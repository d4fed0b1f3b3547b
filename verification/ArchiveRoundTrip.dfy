/** Reading back a written archive: every index mode, every file, every payload. */
module ArchiveRoundTrip {
  import opened BitOps
  import opened Bytes
  import opened Wrappers
  import opened Sorting
  import opened WriterSpec
  import opened UtfRoundTrip
  import opened Lookup
  import opened HeaderLookup
  import opened IndexRoundTrip
  import opened ItocRoundTrip
  import R = ReaderSpec
  import B = UtfBuild
  import P = UtfParse

  // ----- chunks -----

  lemma {:induction false} BuiltIs(t: B.Table, b: bytes)
    requires B.Build(t) == Some(b)
    ensures B.Accepts(t) && b == B.TableBytes(t) && B.DataStart(t) <= B.TotalSize(t) == |b|
  {
    B.TableLength(t);
  }

  lemma {:induction false} MirrorsCounts(h: P.HighTable, t: B.Table)
    requires Mirrors(h, t)
    ensures |h.rows| == |t.rows|
  {
  }

  lemma {:induction false} KindsRead()
    ensures ReadKind(CpkChunk) == R.Cpk && ReadKind(TocChunk) == R.Toc && ReadKind(ItocChunk) == R.Itoc
  {
  }

  // ----- the header -----

  /** The reader's metadata is what the writer recorded. */
  lemma {:induction false} HeaderReads(stream: bytes, start: nat, info: HeaderInfo, profile: Profile, table: bytes)
    requires B.Build(HeaderTable(info, profile)) == Some(table)
    requires CHUNK_HEADER_SIZE + |table| <= COPYRIGHT_MARKER_OFFSET
    requires At(stream, start, Chunk(CpkChunk, table))
    ensures R.ReadHeader(stream, start) == Ok(MetadataOf(info, profile))
  {
    var t := HeaderTable(info, profile);
    assert |t.rows| == 1;
    hide *;
    KindsRead();
    BuiltIs(t, table);
    TableReads(stream, start, CpkChunk, t);
    var h := R.ReadTable(stream, start, R.Cpk).value;
    MirrorsCounts(h, t);
    MetadataReadBack(h, info, profile);
    HeaderFrom(stream, start, h);
  }

  lemma {:induction false} HeaderFrom(stream: bytes, start: nat, h: P.HighTable)
    requires R.ReadTable(stream, start, R.Cpk) == Ok(h) && |h.rows| > 0
    ensures R.ReadHeader(stream, start) == Ok(R.ParseMetadata(h))
  {
    hide R.ReadTable, R.ParseMetadata;
  }

  // ----- the TOC -----

  /** What `get_files` yields from a TOC: every input in input order, or the missing-name error. */
  lemma {:induction false} TocReads(stream: bytes, start: nat, m: R.Metadata, files: seq<InputFile>,
        offsets: seq<u64>, table: bytes)
    requires |offsets| == |files| && forall i :: 0 <= i < |files| ==> R.ENGINE_TOC_FILE_BASE + offsets[i] <= U64_MAX
    requires B.Build(TocTable(files, offsets)) == Some(table) && |table| <= U32_MAX
    requires start + m.tocOffset <= U64_MAX && At(stream, start + m.tocOffset, Chunk(TocChunk, table))
    ensures R.ReadToc(stream, start, m) ==
            if AllNamed(files) then Ok(TocEntries(files, offsets)) else Err(R.MissingFileName)
  {
    hide *;
    var t, at := TocTable(files, offsets), start + m.tocOffset;
    TocTableRows(files, offsets);
    KindsRead();
    BuiltIs(t, table);
    TableReads(stream, at, TocChunk, t);
    var h := R.ReadTable(stream, at, R.Toc).value;
    MirrorsCounts(h, t);
    TocColumnsFound(h, files, offsets);
    TocRowsRead(h, files, offsets, |files|);
    var entries := TocEntries(files, offsets);
    assert files[..|files|] == files && entries[..|files|] == entries;
    TocFrom(stream, start, m, h);
  }

  lemma {:induction false} TocTableRows(files: seq<InputFile>, offsets: seq<u64>)
    requires |offsets| == |files|
    ensures |TocTable(files, offsets).rows| == |files|
  {
  }

  lemma {:induction false} TocFrom(stream: bytes, start: nat, m: R.Metadata, h: P.HighTable)
    requires start + m.tocOffset <= U64_MAX && R.ReadTable(stream, start + m.tocOffset, R.Toc) == Ok(h)
    requires R.FindTocColumns(h) == Ok(TOC_FIELDS)
    ensures R.ReadToc(stream, start, m) == R.TocFiles(h, TOC_FIELDS, |h.rows|)
  {
    hide R.ReadTable, R.TocFiles, R.FindTocColumns;
  }

  // ----- the ITOC -----

  /** Nested tables are small enough to parse, and so is the table that holds them. */
  lemma {:induction false} NestedFits(low: bytes, high: bytes)
    requires B.Accepts(ItocInfoTable(low, high)) && |low| >= 32
    ensures B.DataStart(ItocInfoTable(low, high)) <= U32_MAX && |low| <= U32_MAX && |high| <= U32_MAX
  {
    var t := ItocInfoTable(low, high);
    assert t.rows[0] == [B.CellData(low), B.CellData(high)] && |t.rows| == 1;
    hide B.DataStart, B.RowsData, ItocInfoTable, DataPlace, B.StringStart;
    PlaceFits(t, 0, 0);
    PlaceFits(t, 0, 1);
    Bounds(t);
    TotalIs(t);
  }

  lemma {:induction false} TotalIs(t: B.Table)
    ensures B.TotalSize(t) == B.DataStart(t) + |B.RowsData(t.rows)|
  {
  }

  lemma {:induction false} ItocInfoNames()
    ensures CleanNames(ITOC_INFO_COLUMNS) && |ITOC_INFO_COLUMNS| == 2
    ensures ITOC_INFO_COLUMNS[0].name == Ascii("DataL") && ITOC_INFO_COLUMNS[1].name == Ascii("DataH")
    ensures Ascii("DataL") != Ascii("DataH")
  {
    assert Ascii("DataL")[4] != Ascii("DataH")[4];
  }

  lemma {:induction false} ItocInfoShape(low: bytes, high: bytes)
    ensures var t := ItocInfoTable(low, high);
      t.columns == ITOC_INFO_COLUMNS && |t.rows| == 1 && t.rows[0] == [B.CellData(low), B.CellData(high)]
  {
    hide ITOC_INFO_COLUMNS;
  }

  lemma {:induction false} NestedFound(h: P.HighTable, low: bytes, high: bytes)
    requires Mirrors(h, ItocInfoTable(low, high)) && low != [] && high != []
    ensures P.DataByName(h, 0, Ascii("DataL")) == Some(low) && P.DataByName(h, 0, Ascii("DataH")) == Some(high)
  {
    hide *;
    ItocInfoShape(low, high);
    ItocInfoNames();
    DataCell(h, ItocInfoTable(low, high), 0, 0);
    DataCell(h, ItocInfoTable(low, high), 0, 1);
  }

  /** One nested table, parsed and collected. */
  lemma {:induction false} NestedRowsRead(files: seq<InputFile>, indices: seq<nat>, low: bool, name: bytes, b: bytes)
    requires AllInTable(files, indices, low) && B.Build(ItocRowsTable(files, indices, low, name)) == Some(b)
    requires |b| <= U32_MAX
    ensures P.Parse(b).Some?
    ensures R.CollectRows(P.Parse(b).value, |P.Parse(b).value.rows|) == Ok(RowsOf(files, indices))
  {
    assert forall k :: 0 <= k < |indices| ==> indices[k] < |files|;
    hide *;
    var t := ItocRowsTable(files, indices, low, name);
    BuiltIs(t, b);
    BuiltTableParses(t);
    ItocRowsRead(P.Parse(b).value, files, indices, low, name);
  }

  /** The rows of a standard ITOC: DataL's, then DataH's. */
  lemma {:induction false} StandardRows(h: P.HighTable, files: seq<InputFile>, order: seq<nat>, low: bytes, high: bytes)
    requires OrderOk(files, order) && AllInTable(files, Group(files, order, true), true)
    requires AllInTable(files, Group(files, order, false), false)
    requires B.Build(ItocRowsTable(files, Group(files, order, true), true, Ascii("CpkItocL"))) == Some(low)
    requires B.Build(ItocRowsTable(files, Group(files, order, false), false, Ascii("CpkItocH"))) == Some(high)
    requires Mirrors(h, ItocInfoTable(low, high)) && 0 < |low| <= U32_MAX && 0 < |high| <= U32_MAX
    ensures R.ItocRows(h, 0) == Ok(RowsOf(files, Group(files, order, true)) + RowsOf(files, Group(files, order, false)))
  {
    hide Mirrors, ItocInfoTable, P.DataByName, Ascii, B.Build, ItocRowsTable, P.Parse, R.CollectRows, RowsOf, Group,
      AllInTable;
    NestedFound(h, low, high);
    NestedRowsRead(files, Group(files, order, true), true, Ascii("CpkItocL"), low);
    NestedRowsRead(files, Group(files, order, false), false, Ascii("CpkItocH"), high);
  }

  /** The table bytes behind a standard ITOC. */
  lemma {:induction false} StandardBytes(files: seq<InputFile>, order: seq<nat>, b: bytes)
        returns (low: bytes, high: bytes)
    requires OrderOk(files, order) && ItocBytes(files, order, false) == Some(b)
    ensures AllInTable(files, Group(files, order, true), true) && AllInTable(files, Group(files, order, false), false)
    ensures B.Build(ItocRowsTable(files, Group(files, order, true), true, Ascii("CpkItocL"))) == Some(low)
    ensures B.Build(ItocRowsTable(files, Group(files, order, false), false, Ascii("CpkItocH"))) == Some(high)
    ensures B.Build(ItocInfoTable(low, high)) == Some(b)
  {
    OrderInTable(files, order);
    hide B.Build, ItocRowsTable, Group, AllInTable, ItocInfoTable;
    low := B.Build(ItocRowsTable(files, Group(files, order, true), true, Ascii("CpkItocL"))).value;
    high := B.Build(ItocRowsTable(files, Group(files, order, false), false, Ascii("CpkItocH"))).value;
  }

  lemma {:induction false} DirectPermuted(stream: bytes, at: nat, files: seq<InputFile>, order: seq<nat>, table: bytes)
    requires OrderOk(files, order) && ItocBytes(files, order, true) == Some(table) && |table| <= U32_MAX
    requires forall k :: 0 <= k < |order| ==> order[k] < |files|
    requires At(stream, at, Chunk(ItocChunk, table))
    ensures R.ReadTable(stream, at, R.Itoc).Ok?
    ensures R.ItocRows(R.ReadTable(stream, at, R.Itoc).value, 1) == Ok(RowsOf(files, order))
  {
    hide *;
    KindsRead();
    OrderInTable(files, order);
    DirectBytes(files, order, table);
    var t := ItocRowsTable(files, order, false, Ascii("CpkExtendId"));
    BuiltIs(t, table);
    TableReads(stream, at, ItocChunk, t);
    var h := R.ReadTable(stream, at, R.Itoc).value;
    ItocRowsRead(h, files, order, false, Ascii("CpkExtendId"));
    DirectRows(h);
  }

  lemma {:induction false} DirectBytes(files: seq<InputFile>, order: seq<nat>, table: bytes)
    requires OrderOk(files, order) && ItocBytes(files, order, true) == Some(table) && AllInTable(files, order, false)
    ensures B.Build(ItocRowsTable(files, order, false, Ascii("CpkExtendId"))) == Some(table)
  {
    hide B.Build, ItocRowsTable, Ascii;
  }

  lemma {:induction false} StandardPermuted(stream: bytes, at: nat, files: seq<InputFile>, order: seq<nat>,
        table: bytes)
        returns (rows: seq<R.ItocRow>)
    requires OrderOk(files, order) && ItocBytes(files, order, false) == Some(table)
    requires forall k :: 0 <= k < |order| ==> order[k] < |files|
    requires At(stream, at, Chunk(ItocChunk, table))
    ensures R.ReadTable(stream, at, R.Itoc).Ok?
    ensures R.ItocRows(R.ReadTable(stream, at, R.Itoc).value, 0) == Ok(rows)
    ensures multiset(rows) == multiset(RowsOf(files, order))
  {
    hide *;
    KindsRead();
    HeaderSizes();
    var low, high := StandardBytes(files, order, table);
    var t := ItocInfoTable(low, high);
    var lowRows := ItocRowsTable(files, Group(files, order, true), true, Ascii("CpkItocL"));
    var highRows := ItocRowsTable(files, Group(files, order, false), false, Ascii("CpkItocH"));
    BuiltIs(t, table);
    BuiltIs(lowRows, low);
    BuiltIs(highRows, high);
    TableBytesStart(lowRows);
    TableBytesStart(highRows);
    NestedFits(low, high);
    TableReads(stream, at, ItocChunk, t);
    StandardRows(R.ReadTable(stream, at, R.Itoc).value, files, order, low, high);
    rows := RowsOf(files, Group(files, order, true)) + RowsOf(files, Group(files, order, false));
    GroupsPermute(files, order);
  }

  /** Whatever the ITOC's form, its rows are the physical order's, permuted. */
  lemma {:induction false} ItocRowsPermuted(stream: bytes, at: nat, files: seq<InputFile>, order: seq<nat>,
        direct: bool, table: bytes) returns (rows: seq<R.ItocRow>)
    requires OrderOk(files, order) && ItocBytes(files, order, direct) == Some(table)
    requires direct ==> |table| <= U32_MAX
    requires At(stream, at, Chunk(ItocChunk, table))
    ensures R.ReadTable(stream, at, R.Itoc).Ok?
    ensures R.ItocRows(R.ReadTable(stream, at, R.Itoc).value, if direct then 1 else 0) == Ok(rows)
    ensures multiset(rows) == multiset(RowsOf(files, order))
  {
    hide *;
    OrderBounds(files, order);
    if direct {
      DirectPermuted(stream, at, files, order, table);
      rows := RowsOf(files, order);
    } else {
      rows := StandardPermuted(stream, at, files, order, table);
    }
  }

  lemma {:induction false} HeaderSizes()
    ensures P.HEADER_SIZE == 32
  {
  }

  lemma {:induction false} DirectRows(h: P.HighTable)
    ensures R.ItocRows(h, 1) == R.CollectRows(h, |h.rows|)
  {
  }

  /** What `get_files` yields from an ITOC: every input once, in ascending ID order, at the
      writer's payload offsets. */
  lemma {:induction false} ItocReads(stream: bytes, start: nat, m: R.Metadata, files: seq<InputFile>,
        order: seq<nat>, direct: bool, table: bytes)
    requires OrderOk(files, order) && StrictlySorted(order, IdOf(files))
    requires ItocBytes(files, order, direct) == Some(table)
    requires 0 < m.contentOffset <= U32_MAX && m.align > 0 && m.eid == (if direct then 1 else 0)
    requires direct ==> |table| <= U32_MAX
    requires start + m.itocOffset <= U64_MAX && At(stream, start + m.itocOffset, Chunk(ItocChunk, table))
    requires forall k :: 0 <= k <= |order| ==> m.contentOffset + Starts(files, order, m.align)[k] <= U64_MAX
    ensures R.ReadItoc(stream, start, m) == Ok(ItocEntries(files, order, m.contentOffset,
            Starts(files, order, m.align)))
  {
    hide *;
    OrderBounds(files, order);
    var rows := ItocRowsPermuted(stream, start + m.itocOffset, files, order, direct, table);
    SortingMerges(files, order, rows);
    MaterializeReads(files, order, m.contentOffset, m.align);
    ItocFrom(stream, start, m, rows, RowsOf(files, order));
  }

  lemma {:induction false} OrderBounds(files: seq<InputFile>, order: seq<nat>)
    requires OrderOk(files, order)
    ensures forall k :: 0 <= k < |order| ==> order[k] < |files|
  {
  }

  lemma {:induction false} ItocFrom(stream: bytes, start: nat, m: R.Metadata, rows: seq<R.ItocRow>,
        sorted: seq<R.ItocRow>)
    requires 0 < m.contentOffset <= U32_MAX && start + m.itocOffset <= U64_MAX && m.align > 0
    requires R.ReadTable(stream, start + m.itocOffset, R.Itoc).Ok?
    requires R.ItocRows(R.ReadTable(stream, start + m.itocOffset, R.Itoc).value, m.eid) == Ok(rows)
    requires SortBy(rows, R.RowId()) == sorted && R.NoAdjacentDuplicate(sorted)
    requires R.Materialize(sorted, m.contentOffset, m.align, |sorted|).Ok?
    ensures R.ReadItoc(stream, start, m) == Ok(R.Materialize(sorted, m.contentOffset, m.align, |sorted|).value.0)
  {
    hide R.ReadTable, R.ItocRows, SortBy, R.NoAdjacentDuplicate, R.Materialize;
  }
}
