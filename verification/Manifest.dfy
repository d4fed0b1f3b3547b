/** The manifest file: its text, and reading it back. */
module Manifest {
  import opened BitOps
  import opened Bytes
  import opened Wrappers
  import opened Text
  import W = WriterSpec

  datatype Entry = Entry(
    directory: bytes, fileName: bytes, id: u32, userString: bytes, extractedSize: u64, extractedHash: u64,
    packedSize: u32, packedOffset: u64, packedHash: u64)

  datatype Manifest = Manifest(
    source: bytes, archiveSize: u64, archiveHash: u64, alignment: u16, hasToc: bool, hasItoc: bool, directItoc: bool,
    p5r: bool, version: u16, revision: u16, updateDateTime: u64, entries: seq<Entry>)

  // ----- UTF-8 (section 4 of RFC 3629) -----

  predicate Tail(s: bytes, i: nat, lo: nat, hi: nat) {
    i < |s| && lo <= s[i] <= hi
  }

  /** The length of the well-formed sequence in front, or zero. */
  function RuneLength(s: bytes): (n: nat)
    ensures n <= |s|
  {
    if s == [] then 0
    else if s[0] <= 0x7f then 1
    else if 0xc2 <= s[0] <= 0xdf && Tail(s, 1, 0x80, 0xbf) then 2
    else if 0xe0 <= s[0] <= 0xef && Tail(s, 1, if s[0] == 0xe0 then 0xa0 else 0x80, if s[0] == 0xed then 0x9f else 0xbf)
         && Tail(s, 2, 0x80, 0xbf) then 3
    else if 0xf0 <= s[0] <= 0xf4 && Tail(s, 1, if s[0] == 0xf0 then 0x90 else 0x80, if s[0] == 0xf4 then 0x8f else 0xbf)
         && Tail(s, 2, 0x80, 0xbf) && Tail(s, 3, 0x80, 0xbf) then 4
    else 0
  }

  predicate ValidUtf8(s: bytes) {
    s == [] || (RuneLength(s) > 0 && ValidUtf8(s[RuneLength(s)..]))
  }

  // ----- hexadecimal fields -----

  /** Two digits a byte. */
  function HexField(value: bytes): (s: bytes)
    ensures |s| == 2 * |value| && forall i :: 0 <= i < |s| ==> 0x30 <= s[i] <= 0x66
  {
    if value == [] then [] else HexField(value[..|value| - 1]) + Hex(value[|value| - 1], 2)
  }

  function FieldBytes(s: bytes): Option<bytes>
    requires |s| % 2 == 0
  {
    if s == [] then Some([])
    else
      var front :- FieldBytes(s[..|s| - 2]);
      var b :- ParseNumber(s[|s| - 2..], 16, 0xff);
      Some(front + [b])
  }

  function DecodeField(s: bytes): Option<bytes> {
    if |s| % 2 != 0 then None
    else
      var value :- FieldBytes(s);
      if ValidUtf8(value) then Some(value) else None
  }

  method EncodeFieldLoop(value: bytes) returns (s: bytes)
    ensures s == HexField(value)
  {
    s := [];
    for i := 0 to |value|
      invariant s == HexField(value[..i])
    {
      assert value[..i + 1][..i] == value[..i];
      s := s + Hex(value[i], 2);
    }
    assert value[..|value|] == value;
  }

  method DecodeFieldLoop(value: bytes) returns (r: Option<bytes>)
    ensures r == DecodeField(value)
  {
    hide ParseNumber, ValidUtf8, FieldBytes;
    if |value| % 2 != 0 { return None; }
    var out: bytes := [];
    var i := 0;
    NoFieldBytes(value);
    while i < |value|
      invariant i <= |value| && i % 2 == 0
      invariant FieldBytes(value[..i]) == Some(out)
    {
      var b := ParseNumber(value[i..i + 2], 16, 0xff);
      NextFieldByte(value, i, out);
      if b.None? {
        FieldStops(value, i + 2);
        return None;
      }
      out := out + [b.value];
      i := i + 2;
    }
    assert value[..|value|] == value;
    r := if ValidUtf8(out) then Some(out) else None;
  }

  lemma {:induction false} NoFieldBytes(s: bytes)
    ensures FieldBytes(s[..0]) == Some([])
  {
  }

  lemma {:induction false} NextFieldByte(s: bytes, i: nat, out: bytes)
    requires i % 2 == 0 && i + 2 <= |s| && FieldBytes(s[..i]) == Some(out)
    ensures var b := ParseNumber(s[i..i + 2], 16, 0xff);
      FieldBytes(s[..i + 2]) == if b.None? then None else Some(out + [b.value])
  {
    hide ParseNumber;
    var t := s[..i + 2];
    assert t[..i] == s[..i] && t[i..] == s[i..i + 2];
  }

  lemma {:induction false} FieldStops(s: bytes, n: nat)
    requires |s| % 2 == 0 && n % 2 == 0 && n <= |s| && FieldBytes(s[..n]).None?
    ensures FieldBytes(s) == None
    decreases |s|
  {
    hide ParseNumber;
    if n < |s| {
      var front := s[..|s| - 2];
      assert front[..n] == s[..n];
      FieldStops(front, n);
    } else {
      assert s[..n] == s;
    }
  }

  lemma {:induction false} FieldRoundTrip(value: bytes)
    ensures FieldBytes(HexField(value)) == Some(value)
  {
    hide ParseNumber, Hex;
    if value != [] {
      var n := |value| - 1;
      FieldRoundTrip(value[..n]);
      HexWidths();
      HexRoundTrip(value[n], 2, 0xff);
      var s := HexField(value);
      assert s == HexField(value[..n]) + Hex(value[n], 2);
      assert s[..|s| - 2] == HexField(value[..n]) && s[|s| - 2..] == Hex(value[n], 2);
      hide HexField;
      assert value == value[..n] + [value[n]];
    }
  }

  /** An encoded string decodes to itself. */
  lemma {:induction false} EncodeDecode(value: bytes)
    requires ValidUtf8(value)
    ensures DecodeField(HexField(value)) == Some(value)
  {
    hide FieldBytes, HexField, ValidUtf8;
    FieldRoundTrip(value);
    assert |HexField(value)| % 2 == 0;
  }

  // ----- printing -----

  const MANIFEST_MAGIC: bytes := Ascii("CRI_CPK_MANIFEST_V2")

  function Flag(b: bool): bytes {
    if b then [0x31] else [0x30]
  }

  function KeyLine(key: string, value: bytes): bytes {
    Ascii(key) + [TAB] + value
  }

  const HEAD_LINES := 12

  function HeadLines(m: Manifest): (r: seq<bytes>)
    ensures |r| == HEAD_LINES
  {
    [MANIFEST_MAGIC, KeyLine("source", HexField(m.source)), KeyLine("archive_size", Decimal(m.archiveSize)),
     KeyLine("archive_hash", Hex(m.archiveHash, 16)), KeyLine("alignment", Decimal(m.alignment)),
     KeyLine("has_toc", Flag(m.hasToc)), KeyLine("has_itoc", Flag(m.hasItoc)),
         KeyLine("direct_itoc", Flag(m.directItoc)),
     KeyLine("p5r", Flag(m.p5r)), KeyLine("version", Decimal(m.version)), KeyLine("revision", Decimal(m.revision)),
     KeyLine("update_date_time", Decimal(m.updateDateTime))]
  }

  function EntryFields(e: Entry): seq<bytes> {
    [Ascii("entry"), Decimal(e.id), Decimal(e.extractedSize), Hex(e.extractedHash, 16), Decimal(e.packedSize),
     Decimal(e.packedOffset), Hex(e.packedHash, 16), HexField(e.directory), HexField(e.fileName),
         HexField(e.userString)]
  }

  function EntryLine(e: Entry): bytes {
    Join(EntryFields(e), TAB)
  }

  function EntryLines(entries: seq<Entry>): (r: seq<bytes>)
    ensures |r| == |entries|
  {
    seq(|entries|, i requires 0 <= i < |entries| => EntryLine(entries[i]))
  }

  function Print(m: Manifest): bytes {
    Unlines(HeadLines(m) + EntryLines(m.entries))
  }

  // ----- parsing -----

  function ParseFlag(s: bytes): Option<bool> {
    if s == [0x30] then Some(false) else if s == [0x31] then Some(true) else None
  }

  /** The value of a line `key<TAB>value`; the value may hold further tabs. */
  function ValueOf(line: bytes, key: string): Option<bytes> {
    var n := IndexOf(line, TAB);
    if line[..n] != Ascii(key) || n == |line| then None else Some(line[n + 1..])
  }

  function NumberValue(line: bytes, key: string, radix: nat, max: nat): (r: Option<nat>)
    ensures r.Some? ==> r.value <= max
  {
    var v :- ValueOf(line, key);
    ParseNumber(v, radix, max)
  }

  function FlagValue(line: bytes, key: string): Option<bool> {
    var v :- ValueOf(line, key);
    ParseFlag(v)
  }

  function FieldValue(line: bytes, key: string): Option<bytes> {
    var v :- ValueOf(line, key);
    DecodeField(v)
  }

  function ParseHead(lines: seq<bytes>): Option<Manifest> {
    if |lines| < HEAD_LINES || lines[0] != MANIFEST_MAGIC then None
    else
      var source :- FieldValue(lines[1], "source");
      var archiveSize :- NumberValue(lines[2], "archive_size", 10, U64_MAX);
      var archiveHash :- NumberValue(lines[3], "archive_hash", 16, U64_MAX);
      var alignment :- NumberValue(lines[4], "alignment", 10, U16_MAX);
      var hasToc :- FlagValue(lines[5], "has_toc");
      var hasItoc :- FlagValue(lines[6], "has_itoc");
      var directItoc :- FlagValue(lines[7], "direct_itoc");
      var p5r :- FlagValue(lines[8], "p5r");
      var version :- NumberValue(lines[9], "version", 10, U16_MAX);
      var revision :- NumberValue(lines[10], "revision", 10, U16_MAX);
      var updateDateTime :- NumberValue(lines[11], "update_date_time", 10, U64_MAX);
      Some(Manifest(source, archiveSize, archiveHash, alignment, hasToc, hasItoc, directItoc, p5r, version, revision,
          updateDateTime, []))
  }

  function ParseEntry(line: bytes): Option<Entry> {
    var fields := Split(line, TAB);
    if |fields| != 10 || fields[0] != Ascii("entry") then None
    else
      var id :- ParseNumber(fields[1], 10, U32_MAX);
      var extractedSize :- ParseNumber(fields[2], 10, U64_MAX);
      var extractedHash :- ParseNumber(fields[3], 16, U64_MAX);
      var packedSize :- ParseNumber(fields[4], 10, U32_MAX);
      var packedOffset :- ParseNumber(fields[5], 10, U64_MAX);
      var packedHash :- ParseNumber(fields[6], 16, U64_MAX);
      var directory :- DecodeField(fields[7]);
      var fileName :- DecodeField(fields[8]);
      var userString :- DecodeField(fields[9]);
      Some(Entry(directory, fileName, id, userString, extractedSize, extractedHash, packedSize, packedOffset,
          packedHash))
  }

  /** Entries of the first n lines; empty lines are skipped. */
  function ParseEntries(lines: seq<bytes>, n: nat): Option<seq<Entry>>
    requires n <= |lines|
  {
    if n == 0 then Some([])
    else
      var front :- ParseEntries(lines, n - 1);
      if lines[n - 1] == [] then Some(front)
      else
        var e :- ParseEntry(lines[n - 1]);
        Some(front + [e])
  }

  predicate ValidFlags(m: Manifest) {
    (m.hasToc || m.hasItoc) && (m.directItoc ==> m.hasItoc)
  }

  function Parse(text: bytes): Option<Manifest> {
    var lines := Lines(text);
    var head :- ParseHead(lines);
    var entries :- ParseEntries(lines[HEAD_LINES..], |lines| - HEAD_LINES);
    if ValidFlags(head) then Some(head.(entries := entries)) else None
  }

  // ----- round trip -----

  /** What Rust's string type guarantees of the text fields. */
  predicate TextEntry(e: Entry) {
    ValidUtf8(e.directory) && ValidUtf8(e.fileName) && ValidUtf8(e.userString)
  }

  predicate TextManifest(m: Manifest) {
    ValidUtf8(m.source) && forall i :: 0 <= i < |m.entries| ==> TextEntry(m.entries[i])
  }

  /** Only digits, letters and underscores. */
  predicate Wordlike(s: bytes) {
    forall i :: 0 <= i < |s| ==> 0x30 <= s[i] <= 0x7a
  }

  lemma {:induction false} KeyReadsBack(key: string, value: bytes)
    requires Wordlike(Ascii(key))
    ensures ValueOf(KeyLine(key, value), key) == Some(value)
  {
    var line := KeyLine(key, value);
    IndexInFront(Ascii(key), TAB, value);
    assert line[..|Ascii(key)|] == Ascii(key) && line[|Ascii(key)| + 1..] == value;
  }

  lemma {:induction false} SizeKeys()
    ensures Wordlike(Ascii("source")) && Wordlike(Ascii("archive_size")) && Wordlike(Ascii("archive_hash"))
    ensures Wordlike(Ascii("alignment"))
  {
  }

  lemma {:induction false} IndexKeys()
    ensures Wordlike(Ascii("has_toc")) && Wordlike(Ascii("has_itoc")) && Wordlike(Ascii("direct_itoc"))
    ensures Wordlike(Ascii("p5r"))
  {
  }

  lemma {:induction false} VersionKeys()
    ensures Wordlike(Ascii("version")) && Wordlike(Ascii("revision")) && Wordlike(Ascii("update_date_time"))
    ensures Wordlike(Ascii("entry")) && Wordlike(MANIFEST_MAGIC)
  {
  }

  lemma {:induction false} HeadKeys()
    ensures Wordlike(Ascii("source")) && Wordlike(Ascii("archive_size")) && Wordlike(Ascii("archive_hash"))
    ensures Wordlike(Ascii("alignment")) && Wordlike(Ascii("has_toc")) && Wordlike(Ascii("has_itoc"))
    ensures Wordlike(Ascii("direct_itoc")) && Wordlike(Ascii("p5r")) && Wordlike(Ascii("version"))
    ensures Wordlike(Ascii("revision")) && Wordlike(Ascii("update_date_time")) && Wordlike(Ascii("entry"))
    ensures Wordlike(MANIFEST_MAGIC)
  {
    hide *;
    SizeKeys();
    IndexKeys();
    VersionKeys();
  }

  lemma {:induction false} NumberReadsBack(key: string, n: nat, max: nat)
    requires Wordlike(Ascii(key)) && n <= max
    ensures NumberValue(KeyLine(key, Decimal(n)), key, 10, max) == Some(n)
  {
    hide ValueOf, KeyLine, ParseNumber, Decimal, Ascii;
    KeyReadsBack(key, Decimal(n));
    DecimalRoundTrip(n, max);
  }

  lemma {:induction false} HashReadsBack(key: string, n: u64)
    requires Wordlike(Ascii(key))
    ensures NumberValue(KeyLine(key, Hex(n, 16)), key, 16, U64_MAX) == Some(n)
  {
    hide ValueOf, KeyLine, ParseNumber, Hex, Ascii;
    KeyReadsBack(key, Hex(n, 16));
    HexWidths();
    HexRoundTrip(n, 16, U64_MAX);
  }

  lemma {:induction false} FlagReadsBack(key: string, b: bool)
    requires Wordlike(Ascii(key))
    ensures FlagValue(KeyLine(key, Flag(b)), key) == Some(b)
  {
    hide ValueOf, KeyLine, Ascii;
    KeyReadsBack(key, Flag(b));
  }

  lemma {:induction false} FieldReadsBack(key: string, value: bytes)
    requires Wordlike(Ascii(key)) && ValidUtf8(value)
    ensures FieldValue(KeyLine(key, HexField(value)), key) == Some(value)
  {
    hide ValueOf, KeyLine, Ascii, DecodeField;
    KeyReadsBack(key, HexField(value));
    EncodeDecode(value);
  }

  lemma {:induction false} HeadLinesAt(m: Manifest, lines: seq<bytes>)
    requires HeadLines(m) <= lines
    ensures |lines| >= HEAD_LINES && lines[0] == MANIFEST_MAGIC && lines[1] == KeyLine("source", HexField(m.source))
    ensures lines[2] == KeyLine("archive_size", Decimal(m.archiveSize))
    ensures lines[3] == KeyLine("archive_hash", Hex(m.archiveHash, 16))
    ensures lines[4] == KeyLine("alignment", Decimal(m.alignment)) && lines[5] == KeyLine("has_toc", Flag(m.hasToc))
    ensures lines[6] == KeyLine("has_itoc", Flag(m.hasItoc)) && lines[7] == KeyLine("direct_itoc", Flag(m.directItoc))
    ensures lines[8] == KeyLine("p5r", Flag(m.p5r)) && lines[9] == KeyLine("version", Decimal(m.version))
    ensures lines[10] == KeyLine("revision", Decimal(m.revision))
    ensures lines[11] == KeyLine("update_date_time", Decimal(m.updateDateTime))
  {
    hide KeyLine, Decimal, Hex, HexField, Flag, MANIFEST_MAGIC;
    var head := HeadLines(m);
    assert lines == head + lines[HEAD_LINES..];
  }

  lemma {:induction false} HeadReadsBack(m: Manifest, lines: seq<bytes>)
    requires ValidUtf8(m.source) && HeadLines(m) <= lines
    ensures ParseHead(lines) == Some(m.(entries := []))
  {
    hide KeyLine, Ascii, NumberValue, FlagValue, FieldValue, Decimal, Hex, HexField, Flag, HeadLines, ValidUtf8,
      MANIFEST_MAGIC, Wordlike;
    HeadLinesAt(m, lines);
    HeadKeys();
    FieldReadsBack("source", m.source);
    NumberReadsBack("archive_size", m.archiveSize, U64_MAX);
    HashReadsBack("archive_hash", m.archiveHash);
    NumberReadsBack("alignment", m.alignment, U16_MAX);
    FlagReadsBack("has_toc", m.hasToc);
    FlagReadsBack("has_itoc", m.hasItoc);
    FlagReadsBack("direct_itoc", m.directItoc);
    FlagReadsBack("p5r", m.p5r);
    NumberReadsBack("version", m.version, U16_MAX);
    NumberReadsBack("revision", m.revision, U16_MAX);
    NumberReadsBack("update_date_time", m.updateDateTime, U64_MAX);
  }

  lemma {:induction false} WordlikeIsPlain(s: bytes)
    requires Wordlike(s)
    ensures TAB !in s && OneLine(s)
  {
  }

  lemma {:induction false} FieldsTabFree(e: Entry)
    ensures forall i :: 0 <= i < |EntryFields(e)| ==> TAB !in EntryFields(e)[i] && OneLine(EntryFields(e)[i])
  {
    HeadKeys();
    hide Ascii, Decimal, Hex, HexField, OneLine;
    var fields := EntryFields(e);
    forall i | 0 <= i < |fields| ensures TAB !in fields[i] && OneLine(fields[i]) {
      WordlikeIsPlain(fields[i]);
    }
  }

  lemma {:induction false} EntryReadsBack(e: Entry)
    requires TextEntry(e)
    ensures ParseEntry(EntryLine(e)) == Some(e)
  {
    hide Ascii, ParseNumber, DecodeField, Decimal, Hex, HexField, Split, Join, ValidUtf8;
    var fields := EntryFields(e);
    FieldsTabFree(e);
    SplitJoin(fields, TAB);
    assert Split(EntryLine(e), TAB) == fields && |fields| == 10;
    DecimalRoundTrip(e.id, U32_MAX);
    DecimalRoundTrip(e.extractedSize, U64_MAX);
    DecimalRoundTrip(e.packedSize, U32_MAX);
    DecimalRoundTrip(e.packedOffset, U64_MAX);
    HexWidths();
    HexRoundTrip(e.extractedHash, 16, U64_MAX);
    HexRoundTrip(e.packedHash, 16, U64_MAX);
    EncodeDecode(e.directory);
    EncodeDecode(e.fileName);
    EncodeDecode(e.userString);
    assert ParseNumber(fields[1], 10, U32_MAX) == Some(e.id) &&
        ParseNumber(fields[3], 16, U64_MAX) == Some(e.extractedHash);
    assert DecodeField(fields[7]) == Some(e.directory);
    assert DecodeField(fields[8]) == Some(e.fileName);
    assert DecodeField(fields[9]) == Some(e.userString);
  }

  lemma {:induction false} KeyLinePlain(key: string, value: bytes)
    requires Wordlike(Ascii(key)) && Wordlike(value)
    ensures OneLine(KeyLine(key, value))
  {
    WordlikeIsPlain(Ascii(key));
    WordlikeIsPlain(value);
  }

  lemma {:induction false} HeadPlain(m: Manifest)
    ensures forall i :: 0 <= i < HEAD_LINES ==> OneLine(HeadLines(m)[i])
  {
    HeadKeys();
    WordlikeIsPlain(MANIFEST_MAGIC);
    hide KeyLine, Ascii, Decimal, Hex, HexField, OneLine, MANIFEST_MAGIC;
    KeyLinePlain("source", HexField(m.source));
    KeyLinePlain("archive_size", Decimal(m.archiveSize));
    KeyLinePlain("archive_hash", Hex(m.archiveHash, 16));
    KeyLinePlain("alignment", Decimal(m.alignment));
    KeyLinePlain("has_toc", Flag(m.hasToc));
    KeyLinePlain("has_itoc", Flag(m.hasItoc));
    KeyLinePlain("direct_itoc", Flag(m.directItoc));
    KeyLinePlain("p5r", Flag(m.p5r));
    KeyLinePlain("version", Decimal(m.version));
    KeyLinePlain("revision", Decimal(m.revision));
    KeyLinePlain("update_date_time", Decimal(m.updateDateTime));
  }

  lemma {:induction false} JoinPlain(pieces: seq<bytes>)
    requires pieces != [] && forall i :: 0 <= i < |pieces| ==> OneLine(pieces[i])
    ensures OneLine(Join(pieces, TAB))
    ensures pieces[0] <= Join(pieces, TAB)
  {
    if |pieces| > 1 {
      JoinPlain(pieces[1..]);
    }
  }

  lemma {:induction false} EntryPlain(e: Entry)
    ensures OneLine(EntryLine(e)) && EntryLine(e) != []
  {
    FieldsTabFree(e);
    assert EntryFields(e)[0] == Ascii("entry") && |Ascii("entry")| == 5;
    hide Ascii, Join, OneLine, EntryFields;
    JoinPlain(EntryFields(e));
  }

  lemma {:induction false} EntriesReadBack(entries: seq<Entry>, n: nat)
    requires n <= |entries| && forall i :: 0 <= i < |entries| ==> TextEntry(entries[i])
    ensures ParseEntries(EntryLines(entries), n) == Some(entries[..n])
  {
    hide ParseEntry, EntryLine, TextEntry;
    if n == 0 {
      assert entries[..0] == [];
    } else {
      EntriesReadBack(entries, n - 1);
      EntryReadsBack(entries[n - 1]);
      EntryPlain(entries[n - 1]);
      assert entries[..n] == entries[..n - 1] + [entries[n - 1]];
    }
  }

  lemma {:induction false} LinesOfPrint(m: Manifest)
    ensures Lines(Print(m)) == HeadLines(m) + EntryLines(m.entries)
  {
    hide HeadLines, EntryLine, Lines, Unlines, OneLine;
    HeadPlain(m);
    var lines := HeadLines(m) + EntryLines(m.entries);
    forall i | 0 <= i < |lines| ensures OneLine(lines[i]) {
      if i >= HEAD_LINES {
        EntryPlain(m.entries[i - HEAD_LINES]);
      }
    }
    LinesOfUnlines(lines);
  }

  /** Reading what was written gives back every manifest whose flags are valid, and refuses the
      others. */
  lemma {:induction false} ManifestRoundTrip(m: Manifest)
    requires TextManifest(m)
    ensures Parse(Print(m)) == if ValidFlags(m) then Some(m) else None
  {
    hide HeadLines, EntryLines, Lines, Print, ParseHead, ParseEntries, ValidUtf8, TextEntry;
    LinesOfPrint(m);
    var head, rest := HeadLines(m), EntryLines(m.entries);
    assert (head + rest)[HEAD_LINES..] == rest;
    HeadReadsBack(m, head + rest);
    EntriesReadBack(m.entries, |m.entries|);
    assert m.entries[..|m.entries|] == m.entries;
  }

  // ----- the loops -----

  method WriteManifest(m: Manifest) returns (text: bytes)
    ensures text == Print(m)
  {
    hide HeadLines, EntryLine, EntryFields, Unlines;
    text := [];
    NoMoreLines();
    assert HeadLines(m)[..0] == [] && EntryLines(m.entries)[..0] == [];
    for i := 0 to HEAD_LINES
      invariant text == Unlines(HeadLines(m)[..i])
    {
      UnlinesSnoc(HeadLines(m), i);
      text := text + (HeadLines(m)[i] + [LF]);
    }
    assert HeadLines(m)[..HEAD_LINES] == HeadLines(m);
    for i := 0 to |m.entries|
      invariant text == Unlines(HeadLines(m)) + Unlines(EntryLines(m.entries)[..i])
    {
      var directory := EncodeFieldLoop(m.entries[i].directory);
      var fileName := EncodeFieldLoop(m.entries[i].fileName);
      var userString := EncodeFieldLoop(m.entries[i].userString);
      var line := EntryText(m.entries[i], directory, fileName, userString);
      UnlinesSnoc(EntryLines(m.entries), i);
      text := text + (line + [LF]);
    }
    assert EntryLines(m.entries)[..|m.entries|] == EntryLines(m.entries);
    UnlinesConcat(HeadLines(m), EntryLines(m.entries));
  }

  function EntryText(e: Entry, directory: bytes, fileName: bytes, userString: bytes): (line: bytes)
    requires directory == HexField(e.directory) && fileName == HexField(e.fileName)
    requires userString == HexField(e.userString)
    ensures line == EntryLine(e)
  {
    Join([Ascii("entry"), Decimal(e.id), Decimal(e.extractedSize), Hex(e.extractedHash, 16), Decimal(e.packedSize),
          Decimal(e.packedOffset), Hex(e.packedHash, 16), directory, fileName, userString], TAB)
  }

  lemma {:induction false} NoMoreLines()
    ensures Unlines([]) == []
  {
  }

  lemma {:induction false} UnlinesSnoc(lines: seq<bytes>, i: nat)
    requires i < |lines|
    ensures Unlines(lines[..i + 1]) == Unlines(lines[..i]) + (lines[i] + [LF])
  {
    assert lines[..i + 1] == lines[..i] + [lines[i]];
    UnlinesConcat(lines[..i], [lines[i]]);
    var one: seq<bytes> := [lines[i]];
    assert one[1..] == [];
    assert Unlines(one) == lines[i] + [LF] + Unlines([]);
  }

  method ReadManifest(text: bytes) returns (r: Option<Manifest>)
    ensures r == Parse(text)
  {
    hide ParseHead, ParseEntry, Lines;
    var lines := Lines(text);
    var head := ParseHead(lines);
    if head.None? { return None; }
    HeadLong(lines);
    var entries: seq<Entry> := [];
    var rest := lines[HEAD_LINES..];
    for i := 0 to |rest|
      invariant ParseEntries(rest, i) == Some(entries)
    {
      if rest[i] != [] {
        var entry := ParseEntry(rest[i]);
        if entry.None? {
          EntriesStop(rest, i + 1, |rest|);
          return None;
        }
        entries := entries + [entry.value];
      }
    }
    if !head.value.hasToc && !head.value.hasItoc { return None; }
    if head.value.directItoc && !head.value.hasItoc { return None; }
    r := Some(head.value.(entries := entries));
  }

  lemma {:induction false} HeadLong(lines: seq<bytes>)
    requires ParseHead(lines).Some?
    ensures |lines| >= HEAD_LINES
  {
    hide FieldValue, NumberValue, FlagValue;
  }

  lemma {:induction false} EntriesStop(lines: seq<bytes>, m: nat, n: nat)
    requires m <= n <= |lines| && ParseEntries(lines, m).None?
    ensures ParseEntries(lines, n).None?
  {
    hide ParseEntry;
    if m < n {
      EntriesStop(lines, m, n - 1);
    }
  }

  // ----- the writer's profile -----

  function IndexMode(m: Manifest): (r: W.Mode)
    requires m.hasToc || m.hasItoc
    ensures r.HasToc() == m.hasToc && r.HasItoc() == m.hasItoc
  {
    if m.hasToc && m.hasItoc then W.TocAndItoc else if m.hasToc then W.Toc else W.Itoc
  }

  function WriterProfile(m: Manifest): W.Profile
    requires m.hasToc || m.hasItoc
  {
    W.Profile(IndexMode(m), m.directItoc, m.version, m.revision, m.updateDateTime, Ascii("7.0.0"),
        Ascii("Created by cri-cpk-cli"))
  }

  /** Every manifest that was read has an index mode, so the profile's unreachable case is never
      reached, and asks for a direct ITOC only with an ITOC. */
  lemma {:induction false} ReadManifestHasMode(text: bytes)
    requires Parse(text).Some?
    ensures var m := Parse(text).value;
      && (m.hasToc || m.hasItoc)
      && (WriterProfile(m).directItoc ==> WriterProfile(m).mode.HasItoc())
  {
    hide ParseHead, ParseEntries, Lines;
  }
}
