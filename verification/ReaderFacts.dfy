/** What the reader makes of any stream, whoever wrote it: containers, metadata, rows and payloads. */
module ReaderFacts {
  import opened BitOps
  import opened Bytes
  import opened Wrappers
  import opened Layout
  import opened Sorting
  import opened Text
  import opened ReaderSpec
  import P = UtfParse

  // ----- chunk kinds -----

  /** The four letters of each kind. */
  function MagicOf(k: ChunkKind): bytes {
    match k
    case Cpk => Ascii("CPK ")
    case Toc => Ascii("TOC ")
    case Itoc => Ascii("ITOC")
    case Etoc => Ascii("ETOC")
    case Gtoc => Ascii("GTOC")
    case Unknown(magic) => magic
  }

  lemma {:induction false} FirstLetters()
    ensures Ascii("CPK ")[0] == 0x43 && Ascii("TOC ")[0] == 0x54 && Ascii("ITOC")[0] == 0x49
    ensures Ascii("ETOC")[0] == 0x45 && Ascii("GTOC")[0] == 0x47
  {
  }

  /** Every kind keeps its letters, and each of the five known ones is recognised by them. */
  lemma {:induction false} KindsAreMagics(magic: bytes, k: ChunkKind)
    ensures MagicOf(KindOf(magic)) == magic
    ensures !k.Unknown? ==> KindOf(MagicOf(k)) == k
  {
    FirstLetters();
    hide Ascii;
  }

  // ----- containers -----

  /** A kind is told by its letters; every other word is unknown. */
  predicate Letters(k: ChunkKind, magic: bytes) {
    match k
    case Unknown(m) =>
      && m == magic && magic != Ascii("CPK ") && magic != Ascii("TOC ") && magic != Ascii("ITOC")
      && magic != Ascii("ETOC") && magic != Ascii("GTOC")
    case _ => magic == MagicOf(k)
  }

  lemma {:induction false} KindIff(magic: bytes, k: ChunkKind)
    ensures KindOf(magic) == k <==> Letters(k, magic)
  {
    KindsAreMagics(magic, k);
    hide Ascii;
  }

  /** Four letters, a mark that is zero when the table is sealed, the table's length in little-endian
      order at 8, and at 16 the table; a header chunk ends by 0x800. */
  ghost predicate Contains(stream: bytes, pos: nat, kind: ChunkKind, table: bytes) {
    && pos + 16 + |table| <= |stream| && |table| >= 0x20 && Ascii("@UTF") <= table
    && (kind == Cpk ==> 16 + |table| <= 0x800)
    && Letters(kind, stream[pos..pos + 4]) && FromLe(stream[pos + 8..pos + 16]) == |table|
    && var raw := stream[pos + 16..pos + 16 + |table|];
       table == if stream[pos + 4] == 0 then DecryptTable(raw) else raw
  }

  /** Exactly these containers are read. */
  lemma {:induction false} ContainerIff(stream: bytes, pos: nat, kind: ChunkKind, table: bytes)
    ensures ReadContainer(stream, pos) == Some((kind, table)) <==> Contains(stream, pos, kind, table)
  {
    hide KindOf, FromLe, DecryptTable, Letters, Ascii, P.MAGIC;
    P.MagicIs();
    if pos + 16 <= |stream| {
      KindIff(stream[pos..pos + 4], kind);
    }
  }

  /** A chunk of another kind, or a header without rows, is refused. */
  lemma {:induction false} WrongKindRefused(stream: bytes, pos: nat, kind: ChunkKind)
    ensures ReadTable(stream, pos, kind).Ok? ==>
              ReadContainer(stream, pos).Some? && ReadContainer(stream, pos).value.0 == kind
    ensures ReadContainer(stream, pos).Some? && ReadContainer(stream, pos).value.0 != kind ==>
              ReadTable(stream, pos, kind) == Err(InvalidHeaderChunk)
    ensures ReadHeader(stream, pos).Ok? ==>
              ReadTable(stream, pos, Cpk).Ok? && ReadTable(stream, pos, Cpk).value.rows != []
  {
    hide ReadContainer, P.Parse, ParseMetadata;
  }

  function Pow21(n: nat): nat {
    if n == 0 then 1 else 21 * Pow21(n - 1)
  }

  /** The key stream is a geometric progression modulo 256. */
  lemma {:induction false} KeyIsPower(i: nat)
    ensures Key(i) == 0x5f * Pow21(i) % 256
  {
    if i > 0 {
      KeyIsPower(i - 1);
      var x := 0x5f * Pow21(i - 1);
      assert 0x5f * Pow21(i) == 21 * x;
      Residue(x);
    }
  }

  lemma {:induction false} Residue(x: nat)
    ensures x % 256 * 21 % 256 == 21 * x % 256
  {
    var q, r := x / 256, x % 256;
    var k, m := 21 * r / 256, 21 * r % 256;
    assert 21 * x == (21 * q + k) * 256 + m;
    DivModUnique(21 * x, 256, 21 * q + k, m);
  }

  // ----- metadata -----

  /** A header field that is missing, not a number, or too wide reads as zero. */
  lemma {:induction false} FieldOrZero(t: P.HighTable, name: string)
    ensures P.ColumnIndex(t, Ascii(name)).None? ==> Get(t, name) == 0
    ensures P.ColumnIndex(t, Ascii(name)).Some? ==>
      var v := NumericAt(t, 0, P.ColumnIndex(t, Ascii(name)).value);
      Get(t, name) == if v.Some? then v.value else 0
    ensures forall v: u64 :: v > 0xffff ==> ToU16(v) == 0
    ensures forall v: u64 :: v <= 0xffff ==> ToU16(v) == v
    ensures forall v: u64 :: v > 0xffff_ffff ==> ToU32(v) == 0
    ensures forall v: u64 :: v <= 0xffff_ffff ==> ToU32(v) == v
  {
    hide P.ColumnIndex, P.Value, Ascii;
  }

  /** The TOC is read when there is one, the ITOC only without it, and an archive needs one. */
  lemma {:induction false} IndexChoice(stream: bytes, start: nat, m: Metadata)
    requires ReadHeader(stream, start) == Ok(m)
    ensures m.tocOffset != 0 ==> GetFiles(stream, start) == ReadToc(stream, start, m)
    ensures m.tocOffset == 0 && m.itocOffset != 0 ==> GetFiles(stream, start) == ReadItoc(stream, start, m)
    ensures m.tocOffset == 0 && m.itocOffset == 0 ==> GetFiles(stream, start) == Err(MissingTocAndItoc)
    ensures m.contentOffset == 0 ==> ReadItoc(stream, start, m) == Err(MissingContentOffset)
    ensures m.contentOffset > 0xffff_ffff ==> ReadItoc(stream, start, m) == Err(ItocContentOffsetTooLarge)
  {
    hide ReadHeader, ReadToc, ReadTable, ItocRows, SortBy, Materialize;
  }

  /** The first column of a name, or that there is none. */
  ghost predicate FirstNamed(t: P.HighTable, j: Option<nat>, name: string) {
    match j
    case None => forall i :: 0 <= i < |t.columns| ==> P.GetString(t, t.columns[i].nameOffset) != Some(Ascii(name))
    case Some(k) =>
      && k < |t.columns| && P.GetString(t, t.columns[k].nameOffset) == Some(Ascii(name))
      && forall i :: 0 <= i < k ==> P.GetString(t, t.columns[i].nameOffset) != Some(Ascii(name))
  }

  lemma {:induction false} IndexNamed(t: P.HighTable, name: string)
    ensures FirstNamed(t, P.ColumnIndex(t, Ascii(name)), name)
  {
    hide P.GetString;
  }

  /** The columns of any TOC by their names; three of them must be there. */
  lemma {:induction false} TocColumnsNamed(t: P.HighTable)
    ensures FindTocColumns(t).Ok? ==>
      var c := FindTocColumns(t).value;
      && FirstNamed(t, Some(c.fileName), "FileName") && FirstNamed(t, Some(c.fileSize), "FileSize")
      && FirstNamed(t, Some(c.fileOffset), "FileOffset") && FirstNamed(t, c.dirName, "DirName")
      && FirstNamed(t, c.extractSize, "ExtractSize") && FirstNamed(t, c.id, "ID")
      && FirstNamed(t, c.userString, "UserString") && FirstNamed(t, c.fileCrc, "FileCrc")
    ensures FindTocColumns(t).Err? ==>
      && FindTocColumns(t).error == InvalidTocColumn
      && (FirstNamed(t, None, "FileName") || FirstNamed(t, None, "FileSize") || FirstNamed(t, None, "FileOffset"))
  {
    hide P.ColumnIndex, FirstNamed, Ascii;
    IndexNamed(t, "FileName");
    IndexNamed(t, "FileSize");
    IndexNamed(t, "FileOffset");
    IndexNamed(t, "DirName");
    IndexNamed(t, "ExtractSize");
    IndexNamed(t, "ID");
    IndexNamed(t, "UserString");
    IndexNamed(t, "FileCrc");
  }

  // ----- rows -----

  /** A TOC entry from its cells, for any set of columns: offsets count from 0x800; a missing extract
      size stands for the packed size; missing names, IDs and checksums stay empty. */
  lemma {:induction false} TocFileMeans(t: P.HighTable, c: TocColumns, i: nat)
    requires TocFile(t, c, i).Ok?
    ensures var e := TocFile(t, c, i).value;
      && StringAt(t, i, c.fileName) == Some(e.fileName)
      && NumericAt(t, i, c.fileSize) == Some(e.fileSize)
      && NumericAt(t, i, c.fileOffset) == Some(e.fileOffset) && e.absoluteOffset == 0x800 + e.fileOffset
      && (c.dirName.None? || StringAt(t, i, c.dirName.value).None? ==> e.directory == [])
      && (c.dirName.Some? && StringAt(t, i, c.dirName.value).Some? ==>
            StringAt(t, i, c.dirName.value) == Some(e.directory))
      && (c.userString.None? || StringAt(t, i, c.userString.value).None? ==> e.userString == [])
      && (c.userString.Some? && StringAt(t, i, c.userString.value).Some? ==>
            StringAt(t, i, c.userString.value) == Some(e.userString))
  {
    hide StringAt, NumericAt;
  }

  lemma {:induction false} TocFileNumbers(t: P.HighTable, c: TocColumns, i: nat)
    requires TocFile(t, c, i).Ok?
    ensures var e := TocFile(t, c, i).value;
      && (c.extractSize.None? || NumericAt(t, i, c.extractSize.value).None? ==> e.extractSize == e.fileSize)
      && (c.extractSize.Some? && NumericAt(t, i, c.extractSize.value).Some? ==>
            var x := NumericAt(t, i, c.extractSize.value).value;
            x <= 0xffff_ffff && e.extractSize == if x == 0 then e.fileSize else x)
      && Optional(t, i, c.id, e.id) && Optional(t, i, c.fileCrc, e.fileCrc)
  {
    hide StringAt, NumericAt;
  }

  /** A TOC row that is refused lacks its name, its size or its offset, or a size takes more than 32
      bits. */
  lemma {:induction false} TocFileRefused(t: P.HighTable, c: TocColumns, i: nat)
    requires TocFile(t, c, i).Err?
    ensures match TocFile(t, c, i).error
      case MissingFileName => StringAt(t, i, c.fileName).None?
      case MissingFileSize => NumericAt(t, i, c.fileSize).None?
      case FileTooLarge =>
        var size := NumericAt(t, i, c.fileSize);
        && size.Some?
        && (size.value > 0xffff_ffff
            || (c.extractSize.Some? && NumericAt(t, i, c.extractSize.value).Some?
                && NumericAt(t, i, c.extractSize.value).value > 0xffff_ffff))
      case MissingFileOffset =>
        var offset := NumericAt(t, i, c.fileOffset);
        offset.None? || 0x800 + offset.value > 0xffff_ffff_ffff_ffff
      case _ => false
  {
    hide StringAt, NumericAt;
  }

  /** An ITOC row that is refused lacks a 32-bit ID or a size, or a size takes more than 32 bits. */
  lemma {:induction false} ItocRowRefused(t: P.HighTable, i: nat)
    requires CollectRow(t, i).Err?
    ensures var id, size, given := NumericAt(t, i, FoundOr(t, "ID", 0)), NumericAt(t, i, FoundOr(t, "FileSize", 1)),
          NumericAt(t, i, FoundOr(t, "ExtractSize", 2));
      match CollectRow(t, i).error
      case InvalidItoc => id.None? || id.value > 0xffff_ffff
      case MissingFileSize => size.None?
      case FileTooLarge =>
        size.Some? && (size.value > 0xffff_ffff || (given.Some? && given.value > 0xffff_ffff))
      case _ => false
  {
    hide NumericAt, P.ColumnIndex, Ascii;
  }

  /** An optional 32-bit column: there exactly when the column and a number that fits are. */
  ghost predicate Optional(t: P.HighTable, i: nat, column: Option<nat>, value: Option<u32>) {
    && (value.Some? ==> column.Some? && NumericAt(t, i, column.value) == Some(value.value))
    && (value.None? && column.Some? && NumericAt(t, i, column.value).Some? ==>
          NumericAt(t, i, column.value).value > 0xffff_ffff)
  }

  /** An ITOC row from its cells: the columns are found by name or, failing that, are the first
      three. */
  lemma {:induction false} ItocRowMeans(t: P.HighTable, i: nat)
    requires CollectRow(t, i).Ok?
    ensures var row := CollectRow(t, i).value;
      && NumericAt(t, i, FoundOr(t, "ID", 0)) == Some(row.id)
      && NumericAt(t, i, FoundOr(t, "FileSize", 1)) == Some(row.fileSize)
      && var x := NumericAt(t, i, FoundOr(t, "ExtractSize", 2));
         && row.extractSize == (if x.Some? then x.value else row.fileSize)
         && Optional(t, i, P.ColumnIndex(t, Ascii("FileCrc")), row.fileCrc)
  {
    hide NumericAt, P.ColumnIndex, Ascii;
  }

  function FoundOr(t: P.HighTable, name: string, default: nat): nat {
    var j := P.ColumnIndex(t, Ascii(name));
    if j.Some? then j.value else default
  }

  /** An empty data cell counts as missing, so a nested table must have bytes. */
  lemma {:induction false} EmptyDataMissing(t: P.HighTable, i: nat, name: bytes)
    ensures P.DataByName(t, i, name).Some? ==> P.DataByName(t, i, name).value != []
    ensures ItocRows(t, 0).Ok? ==>
              P.DataByName(t, 0, Ascii("DataL")).Some? && P.DataByName(t, 0, Ascii("DataH")).Some?
  {
    hide P.Value, P.ColumnIndex, P.Parse, CollectRows, Ascii;
  }

  // ----- listings from any ITOC -----

  lemma {:induction false} MaterializedIds(rows: seq<ItocRow>, base: u64, a: nat, n: nat, k: nat)
    requires k < n <= |rows| && Materialize(rows, base, a, n).Ok?
    ensures var e := Materialize(rows, base, a, n).value.0[k];
      && e.id == Some(rows[k].id) && e.fileSize == rows[k].fileSize && e.fileCrc == rows[k].fileCrc
      && e.fileName == ItocFileName(rows[k].id) && e.absoluteOffset == base + e.fileOffset
  {
    hide ItocFileName, ReaderAlignUp;
    if k < n - 1 {
      MaterializedIds(rows, base, a, n - 1, k);
    }
  }

  function RowSizes(rows: seq<ItocRow>): (r: seq<nat>)
    ensures |r| == |rows|
  {
    seq(|rows|, k requires 0 <= k < |rows| => rows[k].fileSize as nat)
  }

  /** The offset of an entry is the sum of the aligned sizes before it; alignment zero means none. */
  lemma {:induction false} MaterializedOffsets(rows: seq<ItocRow>, base: u64, a: nat, n: nat)
    requires n <= |rows| && Materialize(rows, base, a, n).Ok?
    ensures var r, unit := Materialize(rows, base, a, n).value, if a == 0 then 1 else a;
      && r.1 == Start(RowSizes(rows), 0, unit, n)
      && forall k :: 0 <= k < n ==> r.0[k].fileOffset == Start(RowSizes(rows), 0, unit, k)
  {
    hide ItocFileName, ReaderAlignUp, Up;
    if n > 0 {
      MaterializedOffsets(rows, base, a, n - 1);
      RoundedUp(rows[n - 1].fileSize, a);
    }
  }

  lemma {:induction false} RoundedUp(v: nat, a: nat)
    requires ReaderAlignUp(v, a).Some?
    ensures ReaderAlignUp(v, a).value == Up(v, if a == 0 then 1 else a)
  {
  }

  /** An alignment of zero in the header is an alignment of one. */
  lemma {:induction false} ZeroAlignment(stream: bytes, start: nat, m: Metadata)
    requires m.align == 0
    ensures ReadItoc(stream, start, m) == ReadItoc(stream, start, m.(align := 1))
  {
    hide ReadTable, ItocRows, SortBy, Materialize;
  }

  /** Whatever the archive, the IDs of a listing from an ITOC ascend strictly: none is listed twice. */
  lemma {:induction false} ListedIdsAscend(stream: bytes, start: nat, m: Metadata, j: nat, k: nat)
    requires ReadItoc(stream, start, m).Ok? && j < k < |ReadItoc(stream, start, m).value|
    ensures var files := ReadItoc(stream, start, m).value;
      && files[j].id.Some? && files[k].id.Some? && files[j].id.value < files[k].id.value
      && files[k].absoluteOffset == m.contentOffset + files[k].fileOffset
  {
    hide ReadTable, ItocRows, Materialize, SortBy, NoAdjacentDuplicate;
    var t := ReadTable(stream, start + m.itocOffset, Itoc).value;
    var rows := ItocRows(t, m.eid).value;
    var sorted := SortBy(rows, RowId());
    var a: nat := if m.align == 0 then 1 else m.align;
    assert ReadItoc(stream, start, m).value == Materialize(sorted, m.contentOffset, a, |sorted|).value.0;
    assert NoAdjacentDuplicate(sorted);
    hide ReadItoc;
    SortSorts(rows, RowId());
    AscendStrictly(sorted, j, k);
    MaterializedIds(sorted, m.contentOffset, a, |sorted|, j);
    MaterializedIds(sorted, m.contentOffset, a, |sorted|, k);
  }

  lemma {:induction false} AscendStrictly(rows: seq<ItocRow>, j: nat, k: nat)
    requires Sorted(rows, RowId()) && NoAdjacentDuplicate(rows) && j < k < |rows|
    ensures rows[j].id < rows[k].id
  {
    assert RowId()(rows[k - 1]) <= RowId()(rows[k]);
    assert rows[k - 1].id != rows[k - 1 + 1].id;
    if j < k - 1 {
      AscendStrictly(rows, j, k - 1);
    }
  }

  // ----- fallback names -----

  lemma {:induction false} DecimalDigits(n: nat, k: nat)
    requires k >= 1
    ensures |Decimal(n)| <= k <==> n < Pow10(k)
  {
    if k == 1 {
      assert Pow10(1) == 10 * Pow10(0) == 10;
      if n >= 10 {
        assert |Decimal(n)| == |Decimal(n / 10)| + 1;
      }
    } else if n >= 10 {
      DecimalDigits(n / 10, k - 1);
      assert |Decimal(n)| == |Decimal(n / 10)| + 1 && Pow10(k) == 10 * Pow10(k - 1);
    } else {
      PowersOfTen(k);
    }
  }

  function Pow10(n: nat): (p: nat)
    ensures p >= 1
  {
    if n == 0 then 1 else 10 * Pow10(n - 1)
  }

  lemma {:induction false} PowersOfTen(k: nat)
    requires k >= 1
    ensures Pow10(k) >= 10
  {
    assert Pow10(k) == 10 * Pow10(k - 1);
  }

  lemma {:induction false} LeadingZeros(n: nat, s: bytes)
    ensures DigitsValue(seq(n, _ => 0x30) + s, 10) == DigitsValue(s, 10)
  {
    var z := seq(n, _ => 0x30 as byte);
    if s == [] {
      assert z + s == z;
      if n > 0 {
        assert z[..n - 1] == seq(n - 1, _ => 0x30 as byte);
        assert seq(n - 1, _ => 0x30 as byte) + [] == seq(n - 1, _ => 0x30 as byte);
        LeadingZeros(n - 1, []);
      }
    } else {
      LeadingZeros(n, s[..|s| - 1]);
      assert (z + s)[..|z + s| - 1] == z + s[..|s| - 1];
    }
  }

  /** The name of an entry without one: its ID in at least five decimal digits, and ".bin". */
  lemma {:induction false} FallbackName(id: u32)
    ensures var name := ItocFileName(id);
      && |name| >= 9 && (id < 100000 ==> |name| == 9)
      && name[|name| - 4..] == Ascii(".bin")
      && ParseNumber(name[..|name| - 4], 10, 0xffff_ffff) == Some(id)
  {
    hide PaddedDecimal, ParseNumber, Ascii;
    var digits, name := PaddedDecimal(id, 5), ItocFileName(id);
    assert name[..|name| - 4] == digits && name[|name| - 4..] == Ascii(".bin");
    PaddedLength(id);
    PaddedValue(id);
  }

  lemma {:induction false} PaddedLength(id: nat)
    ensures |PaddedDecimal(id, 5)| >= 5 && (id < 100000 ==> |PaddedDecimal(id, 5)| == 5)
  {
    FifthPower();
    hide Decimal, Pow10;
    DecimalDigits(id, 5);
  }

  lemma {:induction false} FifthPower()
    ensures Pow10(5) == 100000
  {
    assert Pow10(1) == 10 && Pow10(2) == 100 && Pow10(3) == 1000 && Pow10(4) == 10000;
  }

  lemma {:induction false} PaddedValue(id: u32)
    ensures ParseNumber(PaddedDecimal(id, 5), 10, 0xffff_ffff) == Some(id)
  {
    hide Decimal, DigitsValue;
    var s, digits := Decimal(id), PaddedDecimal(id, 5);
    DecimalValue(id);
    if |s| < 5 {
      var z: bytes := seq(5 - |s|, _ => 0x30);
      LeadingZeros(5 - |s|, s);
      assert digits == z + s && digits[0] == 0x30;
    }
  }

  // ----- payloads -----

  /** Reading an entry succeeds exactly when its range lies inside the stream and within 64 bits, and
      returns that range. */
  lemma {:induction false} ReadPackedIff(stream: bytes, start: nat, e: CpkFile)
    ensures var pos := start + e.absoluteOffset;
      && (ReadPacked(stream, start, e).Ok? <==>
            pos <= 0xffff_ffff_ffff_ffff && (e.fileSize == 0 || pos + e.fileSize <= |stream|))
      && (ReadPacked(stream, start, e).Ok? ==>
            |ReadPacked(stream, start, e).value| == e.fileSize
            && (e.fileSize > 0 ==> ReadPacked(stream, start, e).value == stream[pos..pos + e.fileSize]))
  {
  }
}
