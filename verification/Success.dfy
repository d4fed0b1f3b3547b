/** When writing succeeds: sizes of the index tables, and bounds under which no check fails. */
module Success {
  import opened BitOps
  import opened Bytes
  import opened Wrappers
  import opened Layout
  import opened Sorting
  import opened WriterSpec
  import opened WriterPlan
  import opened Emission
  import opened WholeArchive
  import opened IndexRoundTrip
  import R = ReaderSpec
  import B = UtfBuild
  import P5R
  import HeaderLookup

  // ----- the size of a pool -----

  /** Room for texts with their NULs. */
  function TextRoom(texts: seq<bytes>): nat {
    if texts == [] then 0 else TextRoom(texts[..|texts| - 1]) + |texts[|texts| - 1]| + 1
  }

  lemma {:induction false} TextRoomConcat(a: seq<bytes>, b: seq<bytes>)
    ensures TextRoom(a + b) == TextRoom(a) + TextRoom(b)
  {
    if b == [] {
      assert a + b == a;
    } else {
      assert (a + b)[..|a + b| - 1] == a + b[..|b| - 1];
      TextRoomConcat(a, b[..|b| - 1]);
    }
  }

  lemma {:induction false} ShortTexts(texts: seq<bytes>, n: nat)
    requires forall i :: 0 <= i < |texts| ==> |texts[i]| < n
    ensures TextRoom(texts) <= Times(n, |texts|)
  {
    if texts != [] {
      ShortTexts(texts[..|texts| - 1], n);
    }
  }

  lemma {:induction false} PoolRoom(p: B.Pool, texts: seq<bytes>)
    ensures |B.InternAll(p, texts).data| <= |p.data| + TextRoom(texts)
  {
    if texts != [] {
      PoolRoom(p, texts[..|texts| - 1]);
    }
  }

  lemma {:induction false} WidthRoom(columns: seq<B.UtfColumn>)
    ensures B.Width(columns) <= 8 * |columns|
  {
    if columns != [] {
      WidthRoom(columns[..|columns| - 1]);
    }
  }

  lemma {:induction false} TimesMonotone(w: nat, v: nat, n: nat)
    requires w <= v
    ensures Times(w, n) <= v * n
  {
    TimesIsProduct(w, n);
    assert w * n <= v * n;
  }

  /** Everything but the data pool, bounded by counts and text lengths. */
  lemma {:induction false} TableRoom(t: B.Table)
    ensures B.DataStart(t) <= 0x20 + 5 * |t.columns| + 8 * |t.columns| * |t.rows| + 1
              + |t.name| + 1 + TextRoom(B.ColumnNames(t.columns)) + TextRoom(B.RowsTexts(t.rows))
  {
    PoolRoom(B.FIRST_POOL, B.Texts(t));
    var names, cells := B.ColumnNames(t.columns), B.RowsTexts(t.rows);
    TextRoomConcat([t.name] + names, cells);
    TextRoomConcat([t.name], names);
    OneText(t.name);
    WidthRoom(t.columns);
    TimesMonotone(B.Width(t.columns), 8 * |t.columns|, |t.rows|);
  }

  lemma {:induction false} OneText(s: bytes)
    ensures TextRoom([s]) == |s| + 1
  {
    var one: seq<bytes> := [s];
    assert one[..0] == [];
    assert TextRoom(one) == TextRoom(one[..0]) + |s| + 1;
  }

  // ----- texts of rows -----

  lemma {:induction false} NoRowTexts(row: seq<B.UtfValue>)
    requires forall j :: 0 <= j < |row| ==> !row[j].CellString?
    ensures B.RowTexts(row) == []
  {
    if row != [] {
      NoRowTexts(row[..|row| - 1]);
    }
  }

  lemma {:induction false} NoRowsTexts(rows: seq<seq<B.UtfValue>>)
    requires forall i, j :: 0 <= i < |rows| && 0 <= j < |rows[i]| ==> !rows[i][j].CellString?
    ensures B.RowsTexts(rows) == []
  {
    if rows != [] {
      NoRowsTexts(rows[..|rows| - 1]);
      NoRowTexts(rows[|rows| - 1]);
    }
  }

  lemma {:induction false} RowTextsConcat(a: seq<B.UtfValue>, b: seq<B.UtfValue>)
    ensures B.RowTexts(a + b) == B.RowTexts(a) + B.RowTexts(b)
  {
    if b == [] {
      assert a + b == a;
    } else {
      assert (a + b)[..|a + b| - 1] == a + b[..|b| - 1];
      RowTextsConcat(a, b[..|b| - 1]);
    }
  }

  lemma {:induction false} OneString(s: bytes)
    ensures B.RowTexts([B.CellString(s)]) == [s]
  {
    var one := [B.CellString(s)];
    assert one[..0] == [];
    assert B.RowTexts(one) == B.RowTexts(one[..0]) + [s];
  }

  function FileRoom(f: InputFile): nat {
    |f.directory| + |f.fileName| + |f.userString| + 3
  }

  function FilesRoom(files: seq<InputFile>): nat {
    if files == [] then 0 else FilesRoom(files[..|files| - 1]) + FileRoom(files[|files| - 1])
  }

  lemma {:induction false} TocRowTexts(f: InputFile, offset: u64)
    ensures B.RowTexts(TocRow(f, offset)) == [f.directory] + [f.fileName] + [f.userString]
  {
    var a, b, c := [B.CellString(f.directory)], [B.CellString(f.fileName)], [B.CellString(f.userString)];
    var n := [B.CellU32(f.size), B.CellU32(f.extractSize), B.CellU64(offset), B.CellU32(f.id)];
    assert TocRow(f, offset) == a + b + n + c;
    hide B.RowTexts;
    RowTextsConcat(a + b + n, c);
    RowTextsConcat(a + b, n);
    RowTextsConcat(a, b);
    NoRowTexts(n);
    OneString(f.directory);
    OneString(f.fileName);
    OneString(f.userString);
  }

  lemma {:induction false} TocRowRoom(f: InputFile, offset: u64)
    ensures TextRoom(B.RowTexts(TocRow(f, offset))) == FileRoom(f)
  {
    hide B.RowTexts, TextRoom, TocRow;
    TocRowTexts(f, offset);
    OneText(f.directory);
    OneText(f.fileName);
    OneText(f.userString);
    TextRoomConcat([f.directory] + [f.fileName], [f.userString]);
    TextRoomConcat([f.directory], [f.fileName]);
  }

  lemma {:induction false} TocTextsRoom(files: seq<InputFile>, offsets: seq<u64>)
    requires |offsets| == |files|
    ensures TextRoom(B.RowsTexts(TocTable(files, offsets).rows)) == FilesRoom(files)
  {
    if files != [] {
      var n := |files| - 1;
      var rows := TocTable(files, offsets).rows;
      TocTextsRoom(files[..n], offsets[..n]);
      assert rows[..n] == TocTable(files[..n], offsets[..n]).rows;
      TextRoomConcat(B.RowsTexts(rows[..n]), B.RowTexts(rows[n]));
      TocRowRoom(files[n], offsets[n]);
    }
  }

  // ----- accepted tables -----

  lemma {:induction false} AcceptedBy(t: B.Table, room: nat)
    requires |t.columns| <= 26 && |t.rows| <= U32_MAX && forall i :: 0 <= i < |t.rows| ==> B.Typed(t.rows[i], t.columns)
    requires B.TotalSize(t) <= room <= U32_MAX
    ensures B.Build(t) == Some(B.TableBytes(t)) && |B.TableBytes(t)| == B.TotalSize(t) <= room
  {
    hide B.TableBytes, B.TotalSize, B.Typed, B.Width;
    WidthRoom(t.columns);
    assert B.Accepts(t);
    B.TableLength(t);
  }

  lemma {:induction false} NamesRoom(columns: seq<B.UtfColumn>, n: nat)
    requires forall j :: 0 <= j < |columns| ==> |columns[j].name| < n
    ensures TextRoom(B.ColumnNames(columns)) <= n * |columns|
  {
    ShortTexts(B.ColumnNames(columns), n);
    TimesIsProduct(n, |columns|);
  }

  lemma {:induction false} TocColumnsShort()
    ensures |TOC_COLUMNS| == 7 && forall j :: 0 <= j < 7 ==> |TOC_COLUMNS[j].name| < 12
  {
  }

  const MANY := 0x100_0000
  const MUCH_TEXT := 0x1000_0000

  /** Offsets this far up still leave room for every payload. */
  const FAR := 0x100_0000_0000

  lemma {:induction false} TocBuilt(files: seq<InputFile>, offsets: seq<u64>)
    requires |offsets| == |files| <= MANY && FilesRoom(files) <= MUCH_TEXT
    ensures var t := TocTable(files, offsets);
      B.Build(t) == Some(B.TableBytes(t)) && |B.TableBytes(t)| == B.TotalSize(t) <= 0x6000_0000
  {
    var t := TocTable(files, offsets);
    assert |t.name| == 10 && t.columns == TOC_COLUMNS && |t.rows| == |files|;
    forall i | 0 <= i < |t.rows| ensures B.Typed(t.rows[i], t.columns) {
      TocRowTyped(files[i], offsets[i]);
    }
    NoDataCells(t.rows);
    hide TocTable, B.TableBytes, B.DataStart, TOC_COLUMNS, B.Typed, B.RowsTexts, B.ColumnNames, TextRoom;
    TocColumnsShort();
    TableRoom(t);
    NamesRoom(t.columns, 12);
    TocTextsRoom(files, offsets);
    AcceptedBy(t, 0x6000_0000);
  }

  lemma {:induction false} TocRowTyped(f: InputFile, offset: u64)
    ensures B.Typed(TocRow(f, offset), TOC_COLUMNS)
  {
  }

  lemma {:induction false} ItocColumnsShort(low: bool)
    ensures |ItocColumns(low)| == 3 && forall j :: 0 <= j < 3 ==> |ItocColumns(low)[j].name| < 12
  {
  }

  lemma {:induction false} ItocRowsShape(files: seq<InputFile>, indices: seq<nat>, low: bool, name: bytes)
    requires AllInTable(files, indices, low)
    ensures var t := ItocRowsTable(files, indices, low, name);
      && t.name == name && t.columns == ItocColumns(low) && |t.rows| == |indices|
      && (forall i :: 0 <= i < |t.rows| ==> B.Typed(t.rows[i], t.columns))
      && B.RowsData(t.rows) == [] && B.RowsTexts(t.rows) == []
  {
    var t := ItocRowsTable(files, indices, low, name);
    forall i | 0 <= i < |t.rows| ensures B.Typed(t.rows[i], t.columns) {
      assert t.rows[i] == ItocRow(files[indices[i]], low);
    }
    NoDataCells(t.rows);
    NoRowsTexts(t.rows);
  }

  lemma {:induction false} ItocRowsBuilt(files: seq<InputFile>, indices: seq<nat>, low: bool, name: bytes)
    requires AllInTable(files, indices, low) && |indices| <= 0x1_0000 && |name| <= 16
    ensures var t := ItocRowsTable(files, indices, low, name);
      B.Build(t) == Some(B.TableBytes(t)) && |B.TableBytes(t)| <= 0x20_0000
  {
    hide ItocRowsTable, B.TableBytes, B.DataStart, ItocColumns, B.Typed, B.RowsTexts, B.ColumnNames, B.RowsData,
      AllInTable,
      B.Build;
    var t := ItocRowsTable(files, indices, low, name);
    ItocRowsShape(files, indices, low, name);
    ItocColumnsShort(low);
    TableRoom(t);
    NamesRoom(t.columns, 12);
    AcceptedBy(t, 0x20_0000);
  }

  lemma {:induction false} TwoCells(low: bytes, high: bytes)
    ensures |B.RowsData([[B.CellData(low), B.CellData(high)]])| == |low| + |high|
  {
    var row := [B.CellData(low), B.CellData(high)];
    var parts, one: seq<bytes> := B.RowPayloads(row), [low];
    assert parts == [low, high] && parts[..1] == one && one[..0] == [];
    assert Concat(one) == Concat(one[..0]) + low;
    assert B.RowData(row) == low + high;
    var rows := [row];
    var all := B.RowsPayloads(rows);
    assert all == [low + high] && all[..0] == [];
    assert Concat(all) == Concat(all[..0]) + (low + high);
  }

  lemma {:induction false} ItocInfoBuilt(low: bytes, high: bytes)
    requires |low| <= 0x20_0000 && |high| <= 0x20_0000
    ensures var t := ItocInfoTable(low, high);
      B.Build(t) == Some(B.TableBytes(t)) && |B.TableBytes(t)| <= 0x80_0000
  {
    var t := ItocInfoTable(low, high);
    assert |t.name| == 11 && |t.columns| == 2 && |t.rows| == 1 && t.rows == [[B.CellData(low), B.CellData(high)]];
    assert B.Typed(t.rows[0], t.columns);
    assert forall j :: 0 <= j < 2 ==> |t.columns[j].name| < 6;
    TwoCells(low, high);
    NoRowsTexts(t.rows);
    hide ItocInfoTable, B.TableBytes, B.DataStart, B.Typed, B.RowsTexts, B.ColumnNames, B.RowsData;
    TableRoom(t);
    NamesRoom(t.columns, 6);
    AcceptedBy(t, 0x80_0000);
  }

  /** Every ITOC of 16-bit IDs can be built. */
  lemma {:induction false} ItocBuilt(files: seq<InputFile>, order: seq<nat>, direct: bool)
    requires OrderOk(files, order) && |order| <= 0x1_0000
    ensures var b := ItocBytes(files, order, direct); b.Some? && |b.value| <= 0x80_0000
  {
    OrderInTable(files, order);
    GroupShort(files, order, true);
    GroupShort(files, order, false);
    assert |Ascii("CpkExtendId")| <= 16 && |Ascii("CpkItocL")| <= 16 && |Ascii("CpkItocH")| <= 16;
    hide B.Build, B.TableBytes, ItocRowsTable, ItocInfoTable, Group, AllInTable, Ascii;
    if direct {
      ItocRowsBuilt(files, order, false, Ascii("CpkExtendId"));
    } else {
      ItocRowsBuilt(files, Group(files, order, true), true, Ascii("CpkItocL"));
      ItocRowsBuilt(files, Group(files, order, false), false, Ascii("CpkItocH"));
      var low := B.Build(ItocRowsTable(files, Group(files, order, true), true, Ascii("CpkItocL"))).value;
      var high := B.Build(ItocRowsTable(files, Group(files, order, false), false, Ascii("CpkItocH"))).value;
      ItocInfoBuilt(low, high);
    }
  }

  lemma {:induction false} GroupShort(files: seq<InputFile>, order: seq<nat>, low: bool)
    requires forall k :: 0 <= k < |order| ==> order[k] < |files|
    ensures |Group(files, order, low)| <= |order|
  {
    if order != [] {
      GroupShort(files, order[..|order| - 1], low);
    }
  }

  // ----- the header -----

  lemma {:induction false} HeaderColumnsShort()
    ensures |HEADER_COLUMNS| == 26 && forall j :: 0 <= j < 26 ==> |HEADER_COLUMNS[j].name| < 15
  {
  }

  lemma {:induction false} HeaderTexts(h: HeaderInfo, p: Profile)
    ensures B.RowTexts(HeaderRow(h, p)) == [p.tvers] + [p.comment]
  {
    var row := HeaderRow(h, p);
    var a, b, c := row[..20], row[20..22], row[22..];
    assert row == a + b + c && b == [B.CellString(p.tvers)] + [B.CellString(p.comment)];
    hide B.RowTexts, HeaderRow;
    RowTextsConcat(a + b, c);
    RowTextsConcat(a, b);
    NoRowTexts(a);
    NoRowTexts(c);
    RowTextsConcat([B.CellString(p.tvers)], [B.CellString(p.comment)]);
    OneString(p.tvers);
    OneString(p.comment);
  }

  /** The header fits before 0x800 whenever the version and comment texts are at most 0x400 bytes
      together. */
  lemma {:induction false} HeaderBuilt(h: HeaderInfo, p: Profile)
    requires |p.tvers| + |p.comment| <= 0x400
    ensures var t := HeaderTable(h, p);
      B.Build(t) == Some(B.TableBytes(t)) && CHUNK_HEADER_SIZE + |B.TableBytes(t)| <= COPYRIGHT_MARKER_OFFSET
  {
    var t := HeaderTable(h, p);
    var row := HeaderRow(h, p);
    assert |t.name| == 9 && t.columns == HEADER_COLUMNS && t.rows == [row];
    HeaderLookup.HeaderRowTyped(h, p);
    HeaderTexts(h, p);
    HeaderRowData(h, p);
    hide HeaderTable, B.TableBytes, B.DataStart, HEADER_COLUMNS, B.Typed, B.ColumnNames, HeaderRow, B.RowTexts,
      B.RowsData;
    HeaderColumnsShort();
    TableRoom(t);
    NamesRoom(t.columns, 15);
    OneRowTexts(row);
    TextRoomConcat([p.tvers], [p.comment]);
    OneText(p.tvers);
    OneText(p.comment);
    AcceptedBy(t, 0x7ea);
  }

  lemma {:induction false} HeaderRowData(h: HeaderInfo, p: Profile)
    ensures B.RowsData([HeaderRow(h, p)]) == []
  {
    var rows := [HeaderRow(h, p)];
    assert forall j: nat :: j < |HeaderRow(h, p)| ==> !HeaderRow(h, p)[j].CellData?;
    hide HeaderRow;
    NoDataCells(rows);
  }

  lemma {:induction false} OneRowTexts(row: seq<B.UtfValue>)
    ensures B.RowsTexts([row]) == B.RowTexts(row)
  {
    var rows := [row];
    assert rows[..0] == [];
    assert B.RowsTexts(rows) == B.RowsTexts(rows[..0]) + B.RowTexts(row);
  }

  // ----- the plan -----

  /** Inputs well below every limit of the format: at most 2^24 files with 256 MB of names, short
      header texts, IDs that pass the ITOC's checks where there is one, and payloads that can be
      read. */
  ghost predicate Moderate(files: seq<InputFile>, opts: Options, profile: Profile, target: P5R.Target) {
    && ValidAlignment(opts.alignment) && 0 < |files| <= MANY && FilesRoom(files) <= MUCH_TEXT
    && |profile.tvers| + |profile.comment| <= 0x400
    && (profile.mode.HasItoc() ==> CheckIds(files, |files|).None?)
    && forall i :: 0 <= i < |files| ==> Payload(files[i], opts.p5rEncryption, target).Ok?
  }

  /** Strictly ascending 16-bit numbers: there are at most 2^16. */
  lemma {:induction false} FewIds(files: seq<InputFile>, order: seq<nat>, k: nat)
    requires OrderOk(files, order) && StrictlySorted(order, IdOf(files)) && k < |order|
    ensures files[order[k]].id >= k
  {
    if k > 0 {
      FewIds(files, order, k - 1);
      assert IdOf(files)(order[k - 1]) < IdOf(files)(order[k]);
    }
  }

  lemma {:induction false} AlignSucceeds(v: nat, a: nat)
    requires IsPowerOfTwo(a) && a <= U16_MAX && v <= FAR
    ensures CheckedAlignUp(v, a).Ok? && v <= CheckedAlignUp(v, a).value < v + a
  {
    hide IsPowerOfTwo, WriterAlignUp, Up;
    MaskRoundsUp(v, a);
  }

  lemma {:induction false} ChunkSucceeds(cursor: nat, table: Option<bytes>, a: nat, room: nat)
    requires IsPowerOfTwo(a) && a <= U16_MAX && (table.Some? ==> |table.value| <= room)
    requires cursor + CHUNK_HEADER_SIZE + room <= FAR
    ensures AfterChunk(cursor, table, a).Ok?
    ensures AfterChunk(cursor, table, a).value <= cursor + CHUNK_HEADER_SIZE + room + a
  {
    hide IsPowerOfTwo, CheckedAlignUp;
    if table.Some? {
      AlignSucceeds(cursor + CHUNK_HEADER_SIZE + |table.value|, a);
    }
  }

  lemma {:induction false} OrderSucceeds(files: seq<InputFile>, profile: Profile)
    requires profile.mode.HasItoc() ==> CheckIds(files, |files|).None?
    ensures var r := PhysicalOrder(files, profile);
      && r.Ok? && IsOrder(r.value, |files|)
      && (profile.mode.HasItoc() ==> OrderOk(files, r.value) && |r.value| <= 0x1_0000)
  {
    OrderFacts(files, profile);
    var order := PhysicalOrder(files, profile).value;
    if profile.mode.HasItoc() && |order| > 0 {
      FewIds(files, order, |order| - 1);
    }
  }

  lemma {:induction false} PartsSucceed(files: seq<InputFile>, offsets: seq<u64>, order: seq<nat>, profile: Profile)
    requires |offsets| == |files| <= MANY && FilesRoom(files) <= MUCH_TEXT
    requires profile.mode.HasItoc() ==> OrderOk(files, order) && |order| <= 0x1_0000
    ensures var toc := TocPart(files, offsets, profile.mode);
      toc.Ok? && (toc.value.Some? ==> |toc.value.value| <= 0x6000_0000)
    ensures var itoc := ItocPart(files, order, profile);
      itoc.Ok? && (itoc.value.Some? ==> |itoc.value.value| <= 0x80_0000)
  {
    hide B.Build, TocTable, ItocBytes, B.TableBytes, OrderOk;
    TocBuilt(files, offsets);
    if profile.mode.HasItoc() {
      ItocBuilt(files, order, profile.directItoc);
    }
  }

  /** The index made from its parts. */
  lemma {:induction false} IndexIs(files: seq<InputFile>, a: nat, profile: Profile, order: seq<nat>,
        toc: Option<bytes>, itoc: Option<bytes>, cursor: nat, end: nat, content: nat)
    requires a >= 1 && PhysicalOrder(files, profile) == Ok(order)
    requires profile.mode.HasItoc() ==> OrderOk(files, order) && content <= U32_MAX
    requires TocPart(files, ZeroOffsets(|files|), profile.mode) == Ok(toc)
    requires ItocPart(files, order, profile) == Ok(itoc)
    requires AfterChunk(ENGINE_INDEX_BASE, toc, a) == Ok(cursor) && AfterChunk(cursor, itoc, a) == Ok(end)
    requires CheckedAlignUp(end, a) == Ok(content)
    ensures MakeIndex(files, a, profile) ==
            Ok(Index(order, toc, itoc, if profile.mode.HasItoc() then cursor else 0, content))
  {
    hide PhysicalOrder, TocPart, ItocPart, AfterChunk, CheckedAlignUp, OrderOk, ZeroOffsets, IsOrder;
    OrderFacts(files, profile);
  }

  lemma {:induction false} IndexSucceeds(files: seq<InputFile>, a: nat, profile: Profile)
    requires IsPowerOfTwo(a) && a <= U16_MAX && |files| <= MANY && FilesRoom(files) <= MUCH_TEXT
    requires profile.mode.HasItoc() ==> CheckIds(files, |files|).None?
    ensures a >= 1 && MakeIndex(files, a, profile).Ok? && MakeIndex(files, a, profile).value.contentOffset <= U32_MAX
  {
    assert a >= 1;
    hide PhysicalOrder, TocPart, ItocPart, AfterChunk, CheckedAlignUp, IsPowerOfTwo, IsOrder, OrderOk, ZeroOffsets,
      FilesRoom, MakeIndex, CheckIds;
    OrderSucceeds(files, profile);
    var order := PhysicalOrder(files, profile).value;
    PartsSucceed(files, ZeroOffsets(|files|), order, profile);
    var toc, itoc := TocPart(files, ZeroOffsets(|files|), profile.mode).value, ItocPart(files, order, profile).value;
    ChunkSucceeds(ENGINE_INDEX_BASE, toc, a, 0x6000_0000);
    var cursor := AfterChunk(ENGINE_INDEX_BASE, toc, a).value;
    ChunkSucceeds(cursor, itoc, a, 0x80_0000);
    var end := AfterChunk(cursor, itoc, a).value;
    AlignSucceeds(end, a);
    IndexIs(files, a, profile, order, toc, itoc, cursor, end, CheckedAlignUp(end, a).value);
  }

  // ----- payloads -----

  lemma {:induction false} StartRoom(sizes: seq<nat>, base: nat, a: nat, k: nat)
    requires k <= |sizes| && a > 0 && forall i :: 0 <= i < |sizes| ==> sizes[i] <= U32_MAX
    ensures Start(sizes, base, a, k) <= base + Times(U32_MAX + a, k)
  {
    hide Up;
    if k > 0 {
      StartRoom(sizes, base, a, k - 1);
    }
  }

  lemma {:induction false} ProductBound(m: nat, k: nat, mMax: nat, kMax: nat)
    requires m <= mMax && k <= kMax
    ensures m * k <= mMax * kMax
  {
    MulLeft(m, mMax, k);
    MulLeft(k, kMax, mMax);
    assert mMax * k == k * mMax && kMax * mMax == mMax * kMax;
  }

  lemma {:induction false} MulLeft(m: nat, n: nat, k: nat)
    requires m <= n
    ensures m * k <= n * k
  {
    var d := n - m;
    assert n * k == m * k + d * k;
  }

  lemma {:induction false} CursorSucceeds(sizes: seq<nat>, base: nat, a: nat)
    requires |sizes| <= MANY && 0 < a <= U16_MAX && base <= FAR && forall i :: 0 <= i < |sizes| ==> sizes[i] <= U32_MAX
    ensures CursorFits(sizes, base, a)
  {
    hide Start;
    forall k | 0 <= k < |sizes| ensures Start(sizes, base, a, k) + sizes[k] + (a - 1) <= U64_MAX {
      StartRoom(sizes, base, a, k);
      var step: nat := U32_MAX + a;
      var reach := step * k;
      TimesIsProduct(step, k);
      ProductBound(step, k, 0x2_0000_0000, MANY);
      assert Start(sizes, base, a, k) <= base + reach && reach <= 0x200_0000_0000_0000;
    }
  }

  lemma {:induction false} PayloadsSucceed(files: seq<InputFile>, order: seq<nat>, p5r: bool, target: P5R.Target,
        n: nat)
    requires n <= |order| && forall k :: 0 <= k < |order| ==> order[k] < |files|
    requires forall i :: 0 <= i < |files| ==> Payload(files[i], p5r, target).Ok?
    ensures Payloads(files, order, p5r, target, n).Ok?
  {
    if n > 0 {
      PayloadsSucceed(files, order, p5r, target, n - 1);
    }
  }

  lemma {:induction false} PlacingSucceeds(files: seq<InputFile>, opts: Options, profile: Profile, x: Index)
    requires 0 < |files| <= MANY && |profile.tvers| + |profile.comment| <= 0x400
    requires opts.alignment > 0 && IsOrder(x.order, |files|)
    requires IndexLaidOut(x, opts.alignment, profile.mode)
    requires CursorFits(SizesInOrder(files, x.order), x.contentOffset, opts.alignment)
    requires TocPart(files, ZeroOffsets(|files|), profile.mode) == Ok(x.tocProbe)
    ensures Aligned(x.contentOffset, opts.alignment) && x.contentOffset >= ENGINE_INDEX_BASE
    ensures x.itocOffset <= x.contentOffset
    ensures ChunkLength(x.itocTable) <= U64_MAX
    ensures PlacePayloads(files, opts, profile, x).Ok?
  {
    CountFits(files);
    hide *;
    LaidOut(x, opts.alignment, profile.mode);
    LowOffsets(files, x.order, x.contentOffset, opts.alignment);
    var offsets := Offsets(files, x.order, x.contentOffset, opts.alignment);
    ProbeAgrees(files, Relative(offsets), profile.mode);
    var tocTable := TocPart(files, Relative(offsets), profile.mode).value;
    PlacingIs(files, opts, profile, x, offsets, tocTable);
    FinishSucceeds(files, opts, profile, BeforeHeader(files, opts.alignment, profile.mode, x, offsets, tocTable));
  }

  lemma {:induction false} CountFits(files: seq<InputFile>)
    ensures |files| <= MANY ==> |files| <= U32_MAX
  {
  }

  lemma {:induction false} FinishSucceeds(files: seq<InputFile>, opts: Options, profile: Profile, p: Plan)
    requires InfoFits(files, p) && |profile.tvers| + |profile.comment| <= 0x400
    ensures FinishPlan(files, opts, profile, p).Ok?
  {
    hide B.Build, HeaderTable, InfoOf, B.TableBytes;
    HeaderBuilt(InfoOf(files, opts, p), profile);
  }

  /** Once the index is made, the plan follows. */
  lemma {:induction false} PlanFromIndex(files: seq<InputFile>, opts: Options, profile: Profile)
    requires ValidAlignment(opts.alignment) && 0 < |files| <= MANY && |profile.tvers| + |profile.comment| <= 0x400
    requires opts.alignment >= 1 && MakeIndex(files, opts.alignment, profile).Ok?
    requires MakeIndex(files, opts.alignment, profile).value.contentOffset <= FAR
    ensures MakePlan(files, opts, profile).Ok?
  {
    var a := opts.alignment as nat;
    hide MakeIndex, PlacePayloads, TocPart, ItocPart, IndexLaidOut, IsOrder, CursorFits, IsPowerOfTwo, SizesInOrder,
      PhysicalOrder, ZeroOffsets, Aligned, OrderOk;
    IndexFacts(files, a, profile);
    var _, _ := IndexSteps(files, a, profile);
    var x := MakeIndex(files, a, profile).value;
    OrderLength(x.order, |files|);
    SizesSmall(files, x.order);
    CursorSucceeds(SizesInOrder(files, x.order), x.contentOffset, a);
    PlacingSucceeds(files, opts, profile, x);
  }

  lemma {:induction false} PlanSucceeds(files: seq<InputFile>, opts: Options, profile: Profile)
    requires ValidAlignment(opts.alignment) && 0 < |files| <= MANY && FilesRoom(files) <= MUCH_TEXT
    requires |profile.tvers| + |profile.comment| <= 0x400
    requires profile.mode.HasItoc() ==> CheckIds(files, |files|).None?
    ensures MakePlan(files, opts, profile).Ok?
  {
    hide MakeIndex, MakePlan, IsPowerOfTwo, FilesRoom, CheckIds;
    IndexSucceeds(files, opts.alignment, profile);
    PlanFromIndex(files, opts, profile);
  }

  lemma {:induction false} SizesSmall(files: seq<InputFile>, order: seq<nat>)
    requires forall k :: 0 <= k < |order| ==> order[k] < |files|
    ensures forall i :: 0 <= i < |order| ==> SizesInOrder(files, order)[i] <= U32_MAX
  {
  }

  /** A planned archive whose payloads can be read is written. */
  lemma {:induction false} PlanIsWritten(files: seq<InputFile>, opts: Options, profile: Profile, target: P5R.Target)
    requires MakePlan(files, opts, profile).Ok?
    requires forall i :: 0 <= i < |files| ==> Payload(files[i], opts.p5rEncryption, target).Ok?
    ensures Archive(files, opts, profile, target).Ok?
  {
    hide MakePlan, PlanOk, TablesOk, PhysicalOrder, ArchiveBytes, Payloads, Payload;
    PlanFacts(files, opts, profile);
    var p := MakePlan(files, opts, profile).value;
    PlanParts(files, opts, profile, p);
    PayloadsSucceed(files, p.order, opts.p5rEncryption, target, |p.order|);
  }

  /** The writer succeeds on every moderate input. */
  lemma {:induction false} WriterSucceeds(files: seq<InputFile>, opts: Options, profile: Profile, target: P5R.Target)
    requires Moderate(files, opts, profile, target)
    ensures Archive(files, opts, profile, target).Ok?
  {
    hide MakePlan, Archive, Payload, FilesRoom, CheckIds;
    PlanSucceeds(files, opts, profile);
    PlanIsWritten(files, opts, profile, target);
  }

  /** An archive that was written is a stream of its own. */
  lemma {:induction false} WrittenAlone(files: seq<InputFile>, opts: Options, profile: Profile, target: P5R.Target)
      returns (p: Plan)
    requires Archive(files, opts, profile, target).Ok?
    ensures MakePlan(files, opts, profile) == Ok(p)
    ensures Written(Archive(files, opts, profile, target).value, 0, files, opts, profile, target, p)
  {
    hide MakePlan, PlanOk, TablesOk, PhysicalOrder, ArchiveBytes, Payload;
    p := MakePlan(files, opts, profile).value;
    PlanFacts(files, opts, profile);
    PlanParts(files, opts, profile, p);
    var payloads := Payloads(files, p.order, opts.p5rEncryption, target, |p.order|).value;
    ArchiveShape(files, opts, profile, p, payloads);
    var archive := ArchiveBytes(p, payloads);
    AtEnd([], archive);
    assert [] + archive == archive;
  }

  /** Write, then read: for every moderate input with names where there is a TOC, the archive is
      written, every file is listed once, and every payload reads back, with no further condition
      on the archive. */
  lemma {:induction false} WriteThenRead(files: seq<InputFile>, opts: Options, profile: Profile,
        target: P5R.Target, before: bytes, after: bytes)
    requires profile.mode.HasToc() ==> AllNamed(files)
    requires Moderate(files, opts, profile, target)
    ensures Archive(files, opts, profile, target).Ok? && MakePlan(files, opts, profile).Ok?
    ensures var stream := before + Archive(files, opts, profile, target).value + after;
      |stream| <= U64_MAX ==>
        && R.GetFiles(stream, |before|).Ok?
        && AllRead(stream, |before|, R.GetFiles(stream, |before|).value, files, opts, profile, target,
            MakePlan(files, opts, profile).value)
  {
    hide MakePlan, Archive, R.GetFiles, AllRead, Payload, FilesRoom, CheckIds, At, TocFits;
    WriterSucceeds(files, opts, profile, target);
    PlanSucceeds(files, opts, profile);
    TocBuilt(files, ZeroOffsets(|files|));
    var p, archive := MakePlan(files, opts, profile).value, Archive(files, opts, profile, target).value;
    var stream := before + archive + after;
    AtEnd(before, archive);
    AtLeft(before + archive, after, |before|, archive);
    FitsBySize(files);
    if |stream| <= U64_MAX {
      ArchiveReadsBack(stream, |before|, files, opts, profile, target, p);
    }
  }

  lemma {:induction false} FitsBySize(files: seq<InputFile>)
    ensures B.TotalSize(TocTable(files, ZeroOffsets(|files|))) <= 0x6000_0000 ==> TocFits(files)
  {
  }
}
