/** What every accepted manifest says, character by character, whoever wrote it. */
module ManifestFacts {
  import opened BitOps
  import opened Bytes
  import opened Wrappers
  import opened Text
  import opened Manifest
  import A = ArchiveHeader
  import H = HeaderLookup
  import R = ReaderSpec
  import W = WriterSpec
  import WholeArchive
  import P5R

  // ----- numbers -----

  function LowerCase(b: byte): byte {
    if 0x41 <= b <= 0x5a then b + 0x20 else b
  }

  /** The digits, in either case, of a number in positional notation; leading zeros are allowed. */
  ghost predicate Spells(s: bytes, n: nat, radix: nat)
    requires radix == 10 || radix == 16
  {
    if s == [] then n == 0
    else LowerCase(s[|s| - 1]) == HexDigit(n % radix) && Spells(s[..|s| - 1], n / radix, radix)
  }

  /** At least one digit, after at most one plus sign. */
  ghost predicate Numeral(s: bytes, n: nat, radix: nat)
    requires radix == 10 || radix == 16
  {
    var digits := if s != [] && s[0] == 0x2b then s[1..] else s;
    digits != [] && Spells(digits, n, radix)
  }

  lemma {:induction false} DigitIff(b: byte, radix: nat, d: nat)
    requires (radix == 10 || radix == 16) && d < radix
    ensures DigitValue(b, radix) == Some(d) <==> LowerCase(b) == HexDigit(d)
  {
  }

  lemma {:induction false} Quotient(n: nat, m: nat, d: nat, radix: nat)
    requires (radix == 10 || radix == 16) && d < radix
    ensures n == m * radix + d <==> n / radix == m && n % radix == d
  {
  }

  lemma {:induction false} SpellsIff(s: bytes, radix: nat, n: nat)
    requires radix == 10 || radix == 16
    ensures DigitsValue(s, radix) == Some(n) <==> Spells(s, n, radix)
  {
    if s != [] {
      var front, last := s[..|s| - 1], s[|s| - 1];
      var m, d := DigitsValue(front, radix), DigitValue(last, radix);
      SpellsIff(front, radix, n / radix);
      DigitIff(last, radix, n % radix);
      if m.Some? && d.Some? {
        Quotient(n, m.value, d.value, radix);
      }
      Quotient(n, n / radix, n % radix, radix);
      hide LowerCase, HexDigit;
    }
  }

  /** A number is read exactly from its numerals, up to the limit of its type. */
  lemma {:induction false} NumeralIff(s: bytes, radix: nat, max: nat, n: nat)
    requires radix == 10 || radix == 16
    ensures ParseNumber(s, radix, max) == Some(n) <==> n <= max && Numeral(s, n, radix)
  {
    var digits := if s != [] && s[0] == 0x2b then s[1..] else s;
    SpellsIff(digits, radix, n);
    hide DigitsValue, Spells;
  }

  // ----- lines and fields -----

  /** A line ends at a line feed and loses one carriage return before it; the last line may lack
      both. */
  lemma {:induction false} LineBreaks(a: bytes, rest: bytes)
    requires 0x0a !in a
    ensures a == [] || a[|a| - 1] != 0x0d ==> Lines(a + [0x0a] + rest) == [a] + Lines(rest)
    ensures Lines(a + [0x0d, 0x0a] + rest) == [a] + Lines(rest)
    ensures Lines(a) == if a == [] then [] else [a]
  {
    var b := a + [0x0d];
    assert a + [0x0d, 0x0a] + rest == b + [0x0a] + rest && b[..|a|] == a;
    hide Lines;
    BrokenLine(a, rest);
    BrokenLine(b, rest);
    LastLine(a);
  }

  lemma {:induction false} BrokenLine(a: bytes, rest: bytes)
    requires 0x0a !in a
    ensures Lines(a + [0x0a] + rest) == [StripCr(a)] + Lines(rest)
  {
    hide StripCr;
    var text := a + [0x0a] + rest;
    IndexInFront(a, 0x0a, rest);
    assert text[..|a|] == a && text[|a| + 1..] == rest;
  }

  lemma {:induction false} LastLine(a: bytes)
    requires 0x0a !in a
    ensures Lines(a) == if a == [] then [] else [a]
  {
    hide StripCr;
    IndexAbsent(a, 0x0a);
  }

  /** Splitting is the inverse of joining, both ways. */
  lemma {:induction false} SplitIff(s: bytes, b: byte, pieces: seq<bytes>)
    ensures Split(s, b) == pieces <==>
            pieces != [] && (forall i :: 0 <= i < |pieces| ==> b !in pieces[i]) && Join(pieces, b) == s
  {
    SplitSound(s, b);
    if pieces != [] && forall i :: 0 <= i < |pieces| ==> b !in pieces[i] {
      SplitJoin(pieces, b);
    }
  }

  lemma {:induction false} SplitSound(s: bytes, b: byte)
    ensures forall i :: 0 <= i < |Split(s, b)| ==> b !in Split(s, b)[i]
    ensures Join(Split(s, b), b) == s
    decreases |s|
  {
    var n := IndexOf(s, b);
    if n < |s| {
      var rest := Split(s[n + 1..], b);
      SplitSound(s[n + 1..], b);
      assert ([s[..n]] + rest)[1..] == rest;
      assert s == s[..n] + [b] + s[n + 1..];
    } else {
      assert s[..n] == s;
    }
  }

  ghost predicate Keyed(line: bytes, key: string) {
    Ascii(key) + [0x09] <= line
  }

  /** The value of a key is everything after the key and one tab. */
  lemma {:induction false} ValueIff(line: bytes, key: string, v: bytes)
    requires 0x09 !in Ascii(key)
    ensures ValueOf(line, key) == Some(v) <==> Keyed(line, key) && v == line[|key| + 1..]
  {
    var k := Ascii(key);
    if Keyed(line, key) {
      assert line == k + [0x09] + line[|key| + 1..];
      IndexInFront(k, 0x09, line[|key| + 1..]);
      assert line[..|k|] == k;
    }
  }

  /** Two digits a byte. */
  ghost predicate Pairs(s: bytes, value: bytes) {
    && |s| == 2 * |value|
    && forall i {:trigger value[i]} :: 0 <= i < |value| ==> Numeral(s[2 * i..2 * i + 2], value[i], 16)
  }

  /** Two digits a byte, and the bytes are text. */
  ghost predicate HexText(s: bytes, value: bytes) {
    Pairs(s, value) && ValidUtf8(value)
  }

  lemma {:induction false} LastPair(s: bytes, value: bytes)
    requires |s| == 2 * |value| > 0
    ensures var n := |value| - 1;
      Pairs(s, value) <==> Pairs(s[..2 * n], value[..n]) && Numeral(s[2 * n..], value[n], 16)
  {
    hide Numeral;
    var n := |value| - 1;
    var front, rest := s[..2 * n], value[..n];
    assert s[2 * n..2 * n + 2] == s[2 * n..];
    assert forall i :: 0 <= i < n ==> rest[i] == value[i];
    forall i | 0 <= i < n ensures front[2 * i..2 * i + 2] == s[2 * i..2 * i + 2] {
    }
    if Pairs(front, rest) && Numeral(s[2 * n..], value[n], 16) {
      forall i | 0 <= i < |value| ensures Numeral(s[2 * i..2 * i + 2], value[i], 16) {
        if i < n {
          assert rest[i] == value[i];
        }
      }
    }
    if Pairs(s, value) {
      forall i | 0 <= i < n ensures Numeral(front[2 * i..2 * i + 2], rest[i], 16) {
        assert rest[i] == value[i];
      }
    }
  }

  lemma {:induction false} FieldIff(s: bytes, value: bytes)
    requires |s| % 2 == 0
    ensures FieldBytes(s) == Some(value) <==> Pairs(s, value)
    decreases |s|
  {
    hide ParseNumber, Numeral, Pairs;
    if s == [] {
      NoPairs(value);
    } else if value == [] {
      NoValue(s);
    } else {
      var n := |value| - 1;
      var front, last := s[..|s| - 2], s[|s| - 2..];
      FieldIff(front, value[..n]);
      NumeralIff(last, 16, 0xff, value[n]);
      assert value == value[..n] + [value[n]];
      PairsLength(s, value);
      PairsLength(front, value[..n]);
      if |s| == 2 * |value| {
        LastPair(s, value);
      }
    }
  }

  lemma {:induction false} NoPairs(value: bytes)
    ensures Pairs([], value) <==> value == []
  {
    hide Numeral;
  }

  lemma {:induction false} NoValue(s: bytes)
    requires s != []
    ensures !Pairs(s, [])
  {
    hide Numeral;
  }

  lemma {:induction false} PairsLength(s: bytes, value: bytes)
    ensures Pairs(s, value) ==> |s| == 2 * |value|
  {
    hide Numeral;
  }

  lemma {:induction false} HexTextIff(s: bytes, value: bytes)
    ensures DecodeField(s) == Some(value) <==> HexText(s, value)
  {
    hide FieldBytes, Pairs, ValidUtf8;
    PairsLength(s, value);
    if |s| % 2 == 0 {
      FieldIff(s, value);
    }
  }

  ghost predicate NumberLine(line: bytes, key: string, radix: nat, n: nat)
    requires radix == 10 || radix == 16
  {
    Keyed(line, key) && Numeral(line[|key| + 1..], n, radix)
  }

  ghost predicate FlagLine(line: bytes, key: string, b: bool) {
    Keyed(line, key) && line[|key| + 1..] == [if b then 0x31 else 0x30]
  }

  ghost predicate TextLine(line: bytes, key: string, value: bytes) {
    Keyed(line, key) && HexText(line[|key| + 1..], value)
  }

  lemma {:induction false} NumberLineIff(line: bytes, key: string, radix: nat, max: nat, n: nat)
    requires (radix == 10 || radix == 16) && 0x09 !in Ascii(key)
    ensures NumberValue(line, key, radix, max) == Some(n) <==> n <= max && NumberLine(line, key, radix, n)
  {
    hide ValueOf, ParseNumber, Numeral, Ascii;
    if Keyed(line, key) {
      ValueIff(line, key, line[|key| + 1..]);
      NumeralIff(line[|key| + 1..], radix, max, n);
    } else if ValueOf(line, key).Some? {
      ValueIff(line, key, ValueOf(line, key).value);
    }
  }

  lemma {:induction false} TextLineIff(line: bytes, key: string, value: bytes)
    requires 0x09 !in Ascii(key)
    ensures FieldValue(line, key) == Some(value) <==> TextLine(line, key, value)
  {
    hide ValueOf, DecodeField, HexText, Ascii;
    if Keyed(line, key) {
      ValueIff(line, key, line[|key| + 1..]);
      HexTextIff(line[|key| + 1..], value);
    } else if ValueOf(line, key).Some? {
      ValueIff(line, key, ValueOf(line, key).value);
    }
  }

  lemma {:induction false} FlagLineIff(line: bytes, key: string, b: bool)
    requires 0x09 !in Ascii(key)
    ensures FlagValue(line, key) == Some(b) <==> FlagLine(line, key, b)
  {
    hide ValueOf, Ascii;
    if Keyed(line, key) {
      ValueIff(line, key, line[|key| + 1..]);
    } else if ValueOf(line, key).Some? {
      ValueIff(line, key, ValueOf(line, key).value);
    }
  }

  // ----- the head -----

  /** Twelve lines: the magic, then these keys in this order. */
  ghost predicate HeadSays(lines: seq<bytes>, m: Manifest) {
    && |lines| >= 12 && lines[0] == Ascii("CRI_CPK_MANIFEST_V2") && TextLine(lines[1], "source", m.source)
    && NumberLine(lines[2], "archive_size", 10, m.archiveSize)
    && NumberLine(lines[3], "archive_hash", 16, m.archiveHash)
    && NumberLine(lines[4], "alignment", 10, m.alignment)
    && FlagLine(lines[5], "has_toc", m.hasToc) && FlagLine(lines[6], "has_itoc", m.hasItoc)
    && FlagLine(lines[7], "direct_itoc", m.directItoc) && FlagLine(lines[8], "p5r", m.p5r)
    && NumberLine(lines[9], "version", 10, m.version) && NumberLine(lines[10], "revision", 10, m.revision)
    && NumberLine(lines[11], "update_date_time", 10, m.updateDateTime)
  }

  lemma {:induction false} KeysPlain()
    ensures 0x09 !in Ascii("source") && 0x09 !in Ascii("archive_size") && 0x09 !in Ascii("archive_hash")
    ensures 0x09 !in Ascii("alignment") && 0x09 !in Ascii("has_toc") && 0x09 !in Ascii("has_itoc")
    ensures 0x09 !in Ascii("direct_itoc") && 0x09 !in Ascii("p5r") && 0x09 !in Ascii("version")
    ensures 0x09 !in Ascii("revision") && 0x09 !in Ascii("update_date_time")
  {
    hide Ascii;
    HeadKeys();
  }

  lemma {:induction false} HeadIff(lines: seq<bytes>, m: Manifest)
    requires m.entries == []
    ensures ParseHead(lines) == Some(m) <==> HeadSays(lines, m)
  {
    hide NumberValue, FlagValue, FieldValue, NumberLine, FlagLine, TextLine, Ascii;
    if |lines| >= 12 {
      SizesIff(lines, m);
      FlagsIff(lines, m);
      VersionsIff(lines, m);
    }
  }

  lemma {:induction false} SizesIff(lines: seq<bytes>, m: Manifest)
    requires |lines| >= 12
    ensures FieldValue(lines[1], "source") == Some(m.source) <==> TextLine(lines[1], "source", m.source)
    ensures NumberValue(lines[2], "archive_size", 10, U64_MAX) == Some(m.archiveSize) <==>
            NumberLine(lines[2], "archive_size", 10, m.archiveSize)
    ensures NumberValue(lines[3], "archive_hash", 16, U64_MAX) == Some(m.archiveHash) <==>
            NumberLine(lines[3], "archive_hash", 16, m.archiveHash)
    ensures NumberValue(lines[4], "alignment", 10, U16_MAX) == Some(m.alignment) <==>
            NumberLine(lines[4], "alignment", 10, m.alignment)
  {
    KeysPlain();
    hide NumberValue, FlagValue, FieldValue, NumberLine, FlagLine, TextLine, Ascii;
    TextLineIff(lines[1], "source", m.source);
    NumberLineIff(lines[2], "archive_size", 10, U64_MAX, m.archiveSize);
    NumberLineIff(lines[3], "archive_hash", 16, U64_MAX, m.archiveHash);
    NumberLineIff(lines[4], "alignment", 10, U16_MAX, m.alignment);
  }

  lemma {:induction false} FlagsIff(lines: seq<bytes>, m: Manifest)
    requires |lines| >= 12
    ensures FlagValue(lines[5], "has_toc") == Some(m.hasToc) <==> FlagLine(lines[5], "has_toc", m.hasToc)
    ensures FlagValue(lines[6], "has_itoc") == Some(m.hasItoc) <==> FlagLine(lines[6], "has_itoc", m.hasItoc)
    ensures FlagValue(lines[7], "direct_itoc") == Some(m.directItoc) <==>
            FlagLine(lines[7], "direct_itoc", m.directItoc)
    ensures FlagValue(lines[8], "p5r") == Some(m.p5r) <==> FlagLine(lines[8], "p5r", m.p5r)
  {
    KeysPlain();
    hide FlagValue, FlagLine, Ascii;
    FlagLineIff(lines[5], "has_toc", m.hasToc);
    FlagLineIff(lines[6], "has_itoc", m.hasItoc);
    FlagLineIff(lines[7], "direct_itoc", m.directItoc);
    FlagLineIff(lines[8], "p5r", m.p5r);
  }

  lemma {:induction false} VersionsIff(lines: seq<bytes>, m: Manifest)
    requires |lines| >= 12
    ensures NumberValue(lines[9], "version", 10, U16_MAX) == Some(m.version) <==>
            NumberLine(lines[9], "version", 10, m.version)
    ensures NumberValue(lines[10], "revision", 10, U16_MAX) == Some(m.revision) <==>
            NumberLine(lines[10], "revision", 10, m.revision)
    ensures NumberValue(lines[11], "update_date_time", 10, U64_MAX) == Some(m.updateDateTime) <==>
            NumberLine(lines[11], "update_date_time", 10, m.updateDateTime)
  {
    KeysPlain();
    hide NumberValue, NumberLine, Ascii;
    NumberLineIff(lines[9], "version", 10, U16_MAX, m.version);
    NumberLineIff(lines[10], "revision", 10, U16_MAX, m.revision);
    NumberLineIff(lines[11], "update_date_time", 10, U64_MAX, m.updateDateTime);
  }

  // ----- entries -----

  /** Ten fields between tabs. */
  ghost predicate EntrySays(line: bytes, f: seq<bytes>, e: Entry) {
    && |f| == 10 && (forall i :: 0 <= i < 10 ==> 0x09 !in f[i]) && line == Join(f, 0x09)
    && f[0] == Ascii("entry") && Numeral(f[1], e.id, 10) && Numeral(f[2], e.extractedSize, 10)
    && Numeral(f[3], e.extractedHash, 16) && Numeral(f[4], e.packedSize, 10) && Numeral(f[5], e.packedOffset, 10)
    && Numeral(f[6], e.packedHash, 16)
    && HexText(f[7], e.directory) && HexText(f[8], e.fileName) && HexText(f[9], e.userString)
  }

  ghost predicate IsEntry(line: bytes, e: Entry) {
    exists f: seq<bytes> :: EntrySays(line, f, e)
  }

  lemma {:induction false} EntryIff(line: bytes, e: Entry)
    ensures ParseEntry(line) == Some(e) <==> IsEntry(line, e)
  {
    var fields := Split(line, 0x09);
    SplitIff(line, 0x09, fields);
    FieldsIff(line, fields, e);
    hide ParseEntry, Split;
    if f: seq<bytes> :| EntrySays(line, f, e) {
      SplitIff(line, 0x09, f);
    }
  }

  lemma {:induction false} FieldsIff(line: bytes, f: seq<bytes>, e: Entry)
    requires f == Split(line, 0x09)
    ensures ParseEntry(line) == Some(e) <==> EntrySays(line, f, e)
  {
    hide ParseNumber, Numeral, DecodeField, HexText, Ascii, Join;
    SplitIff(line, 0x09, f);
    hide Split;
    if |f| == 10 {
      NumeralIff(f[1], 10, U32_MAX, e.id);
      NumeralIff(f[2], 10, U64_MAX, e.extractedSize);
      NumeralIff(f[3], 16, U64_MAX, e.extractedHash);
      NumeralIff(f[4], 10, U32_MAX, e.packedSize);
      NumeralIff(f[5], 10, U64_MAX, e.packedOffset);
      NumeralIff(f[6], 16, U64_MAX, e.packedHash);
      HexTextIff(f[7], e.directory);
      HexTextIff(f[8], e.fileName);
      HexTextIff(f[9], e.userString);
    }
  }

  /** The lines that are not empty, in order. */
  function NonEmpty(lines: seq<bytes>): seq<bytes> {
    if lines == [] then []
    else NonEmpty(lines[..|lines| - 1]) + if lines[|lines| - 1] == [] then [] else [lines[|lines| - 1]]
  }

  ghost predicate EntriesSay(lines: seq<bytes>, entries: seq<Entry>) {
    |lines| == |entries| && forall i :: 0 <= i < |lines| ==> IsEntry(lines[i], entries[i])
  }

  lemma {:induction false} EntriesIff(lines: seq<bytes>, n: nat, entries: seq<Entry>)
    requires n <= |lines|
    ensures ParseEntries(lines, n) == Some(entries) <==> EntriesSay(NonEmpty(lines[..n]), entries)
  {
    hide ParseEntry, IsEntry, EntriesSay;
    if n == 0 {
      NoLinesLeft(entries);
    } else {
      var line, front := lines[n - 1], NonEmpty(lines[..n - 1]);
      assert lines[..n][..n - 1] == lines[..n - 1];
      if line == [] {
        assert NonEmpty(lines[..n]) == front;
        EntriesIff(lines, n - 1, entries);
      } else {
        assert NonEmpty(lines[..n]) == front + [line];
        OneMoreEntry(front, line, entries);
        if entries != [] {
          var k := |entries| - 1;
          EntriesIff(lines, n - 1, entries[..k]);
          EntryIff(line, entries[k]);
          assert entries == entries[..k] + [entries[k]];
        }
      }
    }
  }

  lemma {:induction false} NoLinesLeft(entries: seq<Entry>)
    ensures EntriesSay(NonEmpty([]), entries) <==> entries == []
  {
  }

  lemma {:induction false} OneMoreEntry(lines: seq<bytes>, line: bytes, entries: seq<Entry>)
    ensures EntriesSay(lines + [line], entries) <==>
            && entries != [] && EntriesSay(lines, entries[..|entries| - 1])
            && IsEntry(line, entries[|entries| - 1])
  {
    hide IsEntry;
    var all := lines + [line];
    if entries != [] && |lines| == |entries| - 1 {
      var front := entries[..|lines|];
      assert forall i :: 0 <= i < |lines| ==> all[i] == lines[i] && front[i] == entries[i];
      assert EntriesSay(lines, front) <==> forall i :: 0 <= i < |lines| ==> IsEntry(all[i], entries[i]);
    }
  }

  // ----- the whole text -----

  ghost predicate ManifestSays(text: bytes, m: Manifest) {
    && HeadSays(Lines(text), m) && EntriesSay(NonEmpty(Lines(text)[12..]), m.entries)
    && (m.hasToc || m.hasItoc) && (m.directItoc ==> m.hasItoc)
  }

  /** Exactly these texts are manifests, and this is what each of them says. */
  lemma {:induction false} ManifestIff(text: bytes, m: Manifest)
    ensures Parse(text) == Some(m) <==> ManifestSays(text, m)
  {
    hide ParseHead, HeadSays, ParseEntries, EntriesSay, NonEmpty, Lines;
    var lines := Lines(text);
    HeadSame(lines, m);
    HeadIff(lines, m.(entries := []));
    if ParseHead(lines).Some? {
      HeadLong(lines);
      NoEntries(lines);
      var rest := lines[12..];
      assert rest[..|rest|] == rest;
      EntriesIff(rest, |rest|, m.entries);
    }
  }

  lemma {:induction false} HeadSame(lines: seq<bytes>, m: Manifest)
    ensures HeadSays(lines, m) <==> HeadSays(lines, m.(entries := []))
  {
    hide TextLine, NumberLine, FlagLine, Ascii;
  }

  lemma {:induction false} NoEntries(lines: seq<bytes>)
    requires ParseHead(lines).Some?
    ensures ParseHead(lines).value.entries == []
  {
    hide FieldValue, NumberValue, FlagValue, Ascii;
  }

  // ----- what a rebuilt archive says -----

  /** An archive packed under a manifest's profile has a header with the manifest's version numbers and
      time and exactly its indexes. */
  lemma {:induction false} ProfileStored(m: Manifest, stream: bytes, start: nat, files: seq<W.InputFile>,
        opts: W.Options, target: P5R.Target, p: W.Plan)
    requires m.hasToc || m.hasItoc
    requires WholeArchive.Written(stream, start, files, opts, WriterProfile(m), target, p)
    ensures R.ReadHeader(stream, start).Ok? && R.ReadTable(stream, start, R.Cpk).Ok?
    ensures var h := R.ReadHeader(stream, start).value;
      && h.version == m.version && h.revision == m.revision && h.updateDateTime == m.updateDateTime
      && (h.tocOffset != 0 <==> m.hasToc) && (h.itocOffset != 0 <==> m.hasItoc)
      && h.eid == (if m.hasItoc && m.directItoc then 1 else 0)
      && h.cpkMode == (if m.hasToc && m.hasItoc then 2 else if m.hasToc then 1 else 0)
    ensures var t := R.ReadTable(stream, start, R.Cpk).value;
      H.TextNamed(t, "Tvers", Ascii("7.0.0")) && H.TextNamed(t, "Comment", Ascii("Created by cri-cpk-cli"))
  {
    var profile := WriterProfile(m);
    hide WholeArchive.Written, R.ReadHeader, R.ReadTable, H.TextNamed, A.ChunkLies, Ascii, At;
    A.HeaderDescribes(stream, start, files, opts, profile, target, p);
    A.HeaderTexts(stream, start, files, opts, profile, target, p);
  }
}
