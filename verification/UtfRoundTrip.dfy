/** What the builder writes is what the parser reads. */
module UtfRoundTrip {
  import opened BitOps
  import opened Bytes
  import opened Wrappers
  import B = UtfBuild
  import P = UtfParse

  // ----- reading a written word -----

  lemma {:induction false} Word16(s: bytes, o: nat, v: u16)
    requires At(s, o, Be(v, 2))
    ensures P.U16At(s, o) == v
  {
    AtSlice(s, o, Be(v, 2));
    BeWord(v);
  }

  lemma {:induction false} Word32(s: bytes, o: nat, v: u32)
    requires At(s, o, Be(v, 4))
    ensures P.U32At(s, o) == v
  {
    AtSlice(s, o, Be(v, 4));
    BeWord(v);
  }

  lemma {:induction false} Word64(s: bytes, o: nat, v: u64)
    requires At(s, o, Be(v, 8))
    ensures P.U64At(s, o) == v
  {
    AtSlice(s, o, Be(v, 8));
    BeWord(v);
  }

  // ----- sections -----

  lemma {:induction false} Sections(t: B.Table)
    requires B.Accepts(t)
    ensures var b, p := B.TableBytes(t), B.PoolOf(t);
      && |b| == B.TotalSize(t)
      && At(b, 0, B.HeaderBytes(t))
      && At(b, B.HEADER_SIZE, B.SchemaBytes(t.columns, p))
      && At(b, B.RowsStart(t), B.RowsBytes(t.rows, p))
      && At(b, B.StringStart(t), p.data)
      && At(b, B.DataStart(t), B.RowsData(t.rows))
  {
    hide At, B.HeaderBytes, B.SchemaBytes, B.RowsBytes, B.RowsData, B.PoolOf, B.Width, Times;
    var p := B.PoolOf(t);
    B.TableLength(t);
    B.SchemaLength(t.columns, p);
    B.RowsBytesLength(t.rows, t.columns, p);
    FiveParts(B.HeaderBytes(t), B.SchemaBytes(t.columns, p), B.RowsBytes(t.rows, p), p.data, B.RowsData(t.rows));
  }

  lemma {:induction false} FiveParts(a: bytes, b: bytes, c: bytes, d: bytes, e: bytes)
    ensures var s := a + b + c + d + e;
      && At(s, 0, a) && At(s, |a|, b) && At(s, |a| + |b|, c)
      && At(s, |a| + |b| + |c|, d) && At(s, |a| + |b| + |c| + |d|, e)
  {
  }

  /** The ten header fields. */
  lemma {:induction false} HeaderFields(t: B.Table)
    ensures var h := B.HeaderBytes(t);
      && At(h, 0, B.MAGIC) && At(h, 4, Be(B.TotalSize(t) - 8, 4))
      && At(h, 0xa, Be(B.RowsStart(t) - 8, 2)) && At(h, 0xc, Be(B.StringStart(t) - 8, 4))
      && At(h, 0x10, Be(B.DataStart(t) - 8, 4))
      && At(h, 0x18, Be(|t.columns|, 2)) && At(h, 0x1a, Be(B.Width(t.columns), 2)) && At(h, 0x1c, Be(|t.rows|, 4))
  {
    HeaderParts(Be(B.TotalSize(t) - 8, 4), Be(B.RowsStart(t) - 8, 2), Be(B.StringStart(t) - 8, 4),
      Be(B.DataStart(t) - 8, 4), Be(B.OffsetOf(B.PoolOf(t), t.name), 4), Be(|t.columns|, 2),
          Be(B.Width(t.columns), 2), Be(|t.rows|, 4));
  }

  lemma {:induction false} HeaderParts(size: bytes, rows: bytes, strings: bytes, data: bytes, name: bytes,
        columns: bytes, width: bytes, count: bytes)
    requires |size| == |strings| == |data| == |name| == |count| == 4 && |rows| == |columns| == |width| == 2
    ensures var h := B.MAGIC + size + [0, 1] + rows + strings + data + name + columns + width + count;
      && At(h, 0, B.MAGIC) && At(h, 4, size) && At(h, 0xa, rows) && At(h, 0xc, strings) && At(h, 0x10, data)
      && At(h, 0x18, columns) && At(h, 0x1a, width) && At(h, 0x1c, count)
  {
  }

  lemma {:induction false} HeaderWords(s: bytes, size: u32, rows: u16, strings: u32, data: u32, columns: u16,
        width: u16, count: u32)
    requires |s| >= P.HEADER_SIZE
    requires At(s, 4, Be(size, 4)) && At(s, 0xa, Be(rows, 2)) && At(s, 0xc, Be(strings, 4)) && At(s, 0x10, Be(data, 4))
    requires At(s, 0x18, Be(columns, 2)) && At(s, 0x1a, Be(width, 2)) && At(s, 0x1c, Be(count, 4))
    ensures P.HeaderOf(s) == P.Header(size, rows + 8, P.SaturatingAdd32(strings, 8), P.SaturatingAdd32(data, 8),
            columns, width, count)
  {
    hide At, FromBe, Be;
    Word32(s, 4, size);
    Word16(s, 0xa, rows);
    Word32(s, 0xc, strings);
    Word32(s, 0x10, data);
    Word16(s, 0x18, columns);
    Word16(s, 0x1a, width);
    Word32(s, 0x1c, count);
  }

  /** The header as the reader sees it: pool offsets pass through a saturating `+8`. */
  lemma {:induction false} HeaderReadBack(t: B.Table, tail: bytes)
    requires B.Accepts(t)
    ensures var alloc := B.TableBytes(t) + tail;
      && |alloc| >= P.HEADER_SIZE && P.MAGIC <= alloc
      && P.HeaderOf(alloc) == P.Header(B.TotalSize(t) - 8, B.RowsStart(t),
           P.SaturatingAdd32(B.StringStart(t) - 8, 8), P.SaturatingAdd32(B.DataStart(t) - 8, 8),
           |t.columns|, B.Width(t.columns), |t.rows|)
  {
    hide *;
    var b, h := B.TableBytes(t), B.HeaderBytes(t);
    var alloc := b + tail;
    Sections(t);
    Bounds(t);
    AtLeft(b, tail, 0, h);
    FieldsAt(alloc, t);
    AtSlice(alloc, 0, B.MAGIC);
    HeaderWords(alloc, B.TotalSize(t) - 8, B.RowsStart(t) - 8, B.StringStart(t) - 8, B.DataStart(t) - 8,
      |t.columns|, B.Width(t.columns), |t.rows|);
  }

  lemma {:induction false} Bounds(t: B.Table)
    requires B.Accepts(t)
    ensures P.HEADER_SIZE == B.HEADER_SIZE == 0x20 && P.MAGIC == B.MAGIC && |B.MAGIC| == 4
    ensures 0x20 <= B.RowsStart(t) <= B.StringStart(t) <= B.DataStart(t) <= B.TotalSize(t) <= U32_MAX + 8
    ensures B.RowsStart(t) <= U16_MAX + 8 && |t.columns| <= U16_MAX && B.Width(t.columns) <= U16_MAX
    ensures |t.rows| <= U32_MAX
    ensures U16_MAX == 0xffff && U32_MAX == 0xffff_ffff
  {
  }

  lemma {:induction false} FieldsAt(s: bytes, t: B.Table)
    requires At(s, 0, B.HeaderBytes(t))
    ensures At(s, 0, B.MAGIC) && At(s, 4, Be(B.TotalSize(t) - 8, 4))
    ensures At(s, 0xa, Be(B.RowsStart(t) - 8, 2)) && At(s, 0xc, Be(B.StringStart(t) - 8, 4))
    ensures At(s, 0x10, Be(B.DataStart(t) - 8, 4))
    ensures At(s, 0x18, Be(|t.columns|, 2)) && At(s, 0x1a, Be(B.Width(t.columns), 2)) && At(s, 0x1c, Be(|t.rows|, 4))
  {
    hide At, B.HeaderBytes, B.PoolOf, B.Width, Times, B.RowsData, Be;
    var h := B.HeaderBytes(t);
    HeaderFields(t);
    AtInside(s, 0, h, 0, B.MAGIC);
    AtInside(s, 0, h, 4, Be(B.TotalSize(t) - 8, 4));
    AtInside(s, 0, h, 0xa, Be(B.RowsStart(t) - 8, 2));
    AtInside(s, 0, h, 0xc, Be(B.StringStart(t) - 8, 4));
    AtInside(s, 0, h, 0x10, Be(B.DataStart(t) - 8, 4));
    AtInside(s, 0, h, 0x18, Be(|t.columns|, 2));
    AtInside(s, 0, h, 0x1a, Be(B.Width(t.columns), 2));
    AtInside(s, 0, h, 0x1c, Be(|t.rows|, 4));
  }

  // ----- columns -----

  function ReadColumn(c: B.UtfColumn, p: B.Pool): P.Column
    requires B.OffsetOf(p, c.name) <= U32_MAX
  {
    P.Column(B.FlagByte(c.valueType), B.OffsetOf(p, c.name), None)
  }

  ghost predicate SmallOffsets(p: B.Pool) {
    forall s :: s in p.offsets ==> p.offsets[s] <= U32_MAX
  }

  function ReadColumns(columns: seq<B.UtfColumn>, p: B.Pool): (r: seq<P.Column>)
    requires SmallOffsets(p)
    ensures |r| == |columns|
  {
    seq(|columns|, j requires 0 <= j < |columns| => ReadColumn(columns[j], p))
  }

  lemma {:induction false} ColumnsReadBack(buf: bytes, columns: seq<B.UtfColumn>, p: B.Pool, n: nat)
    requires SmallOffsets(p) && n <= |columns|
    requires At(buf, B.HEADER_SIZE, B.SchemaBytes(columns, p))
    ensures P.ReadColumns(buf, n) == Some((ReadColumns(columns, p)[..n], B.HEADER_SIZE + 5 * n))
  {
    hide At, B.SchemaBytes, B.ColumnRecord, P.ReadColumn, ReadColumn;
    var all := ReadColumns(columns, p);
    if n == 0 {
      assert all[..0] == [];
    } else {
      ColumnsReadBack(buf, columns, p, n - 1);
      var c, pos := columns[n - 1], B.HEADER_SIZE + 5 * (n - 1);
      assert At(buf, pos, B.ColumnRecord(c, p)) by {
        B.ColumnInSchema(columns, p, n - 1);
        AtInside(buf, B.HEADER_SIZE, B.SchemaBytes(columns, p), 5 * (n - 1), B.ColumnRecord(c, p));
      }
      ColumnReadBack(buf, pos, c, p);
      assert all[n - 1] == ReadColumn(c, p);
      assert all[..n] == all[..n - 1] + [all[n - 1]];
    }
  }

  lemma {:induction false} ColumnReadBack(buf: bytes, pos: nat, c: B.UtfColumn, p: B.Pool)
    requires SmallOffsets(p) && At(buf, pos, B.ColumnRecord(c, p))
    ensures P.ReadColumn(buf, pos) == Some((ReadColumn(c, p), pos + 5))
  {
    var name := Be(B.OffsetOf(p, c.name), 4);
    AtEnd([B.FlagByte(c.valueType)], name);
    AtInside(buf, pos, B.ColumnRecord(c, p), 1, name);
    Word32(buf, pos + 1, B.OffsetOf(p, c.name));
    assert buf[pos] == B.ColumnRecord(c, p)[0] == B.FlagByte(c.valueType);
  }

  lemma {:induction false} FlagReadsBack(v: B.UtfType)
    ensures var f := B.FlagByte(v);
      && P.HasRowStorage(f) && !P.TypeOf(f).Invalid? && P.TypeSize(P.TypeOf(f)) == B.TypeSize(v)
  {
  }

  lemma {:induction false} WidthReadBack(columns: seq<B.UtfColumn>, p: B.Pool, n: nat)
    requires SmallOffsets(p) && n <= |columns|
    ensures P.Width(ReadColumns(columns, p)[..n]) == B.Width(columns[..n])
  {
    if n > 0 {
      WidthReadBack(columns, p, n - 1);
      FlagReadsBack(columns[n - 1].valueType);
      assert ReadColumns(columns, p)[..n][..n - 1] == ReadColumns(columns, p)[..n - 1];
      assert columns[..n][..n - 1] == columns[..n - 1];
    }
  }

  // ----- strings -----

  lemma {:induction false} UpToNulInFront(s: bytes, rest: bytes)
    ensures P.UpToNul(s + [0] + rest) == P.UpToNul(s)
  {
    var x := s + [0] + rest;
    if s != [] && s[0] != 0 {
      UpToNulInFront(s[1..], rest);
      assert x[1..] == s[1..] + [0] + rest;
    }
  }

  /** Every interned string is found at its offset, cut at its first NUL if it has one. */
  lemma {:induction false} PoolReadsBack(p: B.Pool, s: bytes)
    requires B.WellPooled(p) && s in p.offsets
    ensures P.ParseStrings(p.data) == Some(P.StringsOf(p.data))
    ensures p.offsets[s] in P.StringsOf(p.data) && P.StringsOf(p.data)[p.offsets[s]] == P.UpToNul(s)
  {
    hide P.UpToNul;
    var o := p.offsets[s];
    assert B.Holds(p.data, s, o);
    var rest := p.data[o + |s| + 1..];
    assert p.data[o..] == s + [0] + rest by {
      assert p.data[o..] == p.data[o..o + |s|] + [p.data[o + |s|]] + rest;
    }
    UpToNulInFront(s, rest);
  }

  /** A string reads back whole exactly when it holds no NUL. */
  lemma {:induction false} WholeIffNulFree(s: bytes)
    ensures P.UpToNul(s) == s <==> 0 !in s
  {
    if s != [] && s[0] != 0 {
      WholeIffNulFree(s[1..]);
      assert s == [s[0]] + s[1..];
    }
  }

  // ----- cells -----

  /** What the reader gets for a written cell; data cells carry their place in the data pool. */
  function ReadCell(v: B.UtfValue, p: B.Pool, at: nat): P.RowValue
    requires SmallOffsets(p) && (v.CellData? ==> at <= U32_MAX && |v.data| <= U32_MAX)
  {
    match v
    case CellU16(n) => P.UInt16Value(n)
    case CellU32(n) => P.UInt32Value(n)
    case CellU64(n) => P.UInt64Value(n)
    case CellString(s) => P.StringValue(B.OffsetOf(p, s))
    case CellData(d) => P.DataValue(at, |d|)
  }

  lemma {:induction false} CellReadsBack(v: B.UtfValue, p: B.Pool, at: nat, field: bytes)
    requires SmallOffsets(p) && (v.CellData? ==> at <= U32_MAX && |v.data| <= U32_MAX)
    requires field == B.CellBytes(v, p, at)
    ensures |field| == P.TypeSize(P.TypeOf(B.FlagByte(B.TypeOf(v))))
    ensures P.ValueOf(P.TypeOf(B.FlagByte(B.TypeOf(v))), field) == ReadCell(v, p, at)
  {
    match v
    case CellU16(n) => AtEnd([], field); Word16(field, 0, n);
    case CellU32(n) => AtEnd([], field); Word32(field, 0, n);
    case CellU64(n) => AtEnd([], field); Word64(field, 0, n);
    case CellString(s) => AtEnd([], field); Word32(field, 0, B.OffsetOf(p, s));
    case CellData(d) =>
      AtLeft(Be(at, 4), Be(|d|, 4), 0, Be(at, 4));
      Word32(field, 0, at);
      AtEnd(Be(at, 4), Be(|d|, 4));
      Word32(field, 4, |d|);
  }

  // ----- the whole table -----

  /** Pool offsets and data offsets of an accepted table fit their 32-bit fields. */
  lemma {:induction false} OffsetsFit(t: B.Table)
    requires B.Accepts(t)
    ensures SmallOffsets(B.PoolOf(t)) && |B.RowsData(t.rows)| <= U32_MAX
  {
    hide B.PoolOf, B.RowsData, B.Width, Times;
    B.PoolCovers(t);
    var p := B.PoolOf(t);
    forall s | s in p.offsets ensures p.offsets[s] <= U32_MAX {
      assert B.Holds(p.data, s, p.offsets[s]);
    }
  }

  /** Where the data of cell (i, j) starts in the data pool, and that it is there. */
  function DataPlace(t: B.Table, i: nat, j: nat): nat
    requires i < |t.rows| && j < |t.rows[i]|
  {
    |B.RowsData(t.rows[..i])| + |B.RowData(t.rows[i][..j])|
  }

  lemma {:induction false} DataPlaced(t: B.Table, i: nat, j: nat)
    requires i < |t.rows| && j < |t.rows[i]|
    ensures At(B.RowsData(t.rows), DataPlace(t, i, j), B.CellPayload(t.rows[i][j]))
  {
    hide At, B.RowsData, B.RowData;
    B.DataInRows(t.rows, i);
    B.DataInRow(t.rows[i], j);
    AtInside(B.RowsData(t.rows), |B.RowsData(t.rows[..i])|, B.RowData(t.rows[i]), |B.RowData(t.rows[i][..j])|,
        B.CellPayload(t.rows[i][j]));
  }

  lemma {:induction false} PlaceFits(t: B.Table, i: nat, j: nat)
    requires B.Accepts(t) && i < |t.rows| && j < |t.rows[i]|
    ensures DataPlace(t, i, j) + |B.CellPayload(t.rows[i][j])| <= |B.RowsData(t.rows)| <= U32_MAX
  {
    OffsetsFit(t);
    DataPlaced(t, i, j);
  }

  /** The bytes of cell (i, j) lie at the reader's cell position. */
  lemma {:induction false} CellPlaced(t: B.Table, i: nat, j: nat)
    requires B.Accepts(t) && i < |t.rows| && j < |t.columns|
    ensures |t.rows[i]| == |t.columns|
    ensures At(B.TableBytes(t), B.RowsStart(t) + Times(B.Width(t.columns), i) + B.Width(t.columns[..j]),
               B.CellBytes(t.rows[i][j], B.PoolOf(t), DataPlace(t, i, j)))
  {
    hide At, B.TableBytes, B.RowsBytes, B.RowBytes, B.CellBytes, B.RowsData, B.RowData, B.PoolOf, B.Width, Times;
    var b, p, w := B.TableBytes(t), B.PoolOf(t), B.Width(t.columns);
    var row := t.rows[i];
    assert B.Typed(row, t.columns);
    Sections(t);
    B.RowInRows(t.rows, t.columns, p, i);
    var rowBytes := B.RowBytes(row, p, |B.RowsData(t.rows[..i])|);
    AtInside(b, B.RowsStart(t), B.RowsBytes(t.rows, p), Times(w, i), rowBytes);
    B.CellInRow(row, t.columns, p, |B.RowsData(t.rows[..i])|, j);
    AtInside(b, B.RowsStart(t) + Times(w, i), rowBytes, B.Width(t.columns[..j]),
        B.CellBytes(row[j], p, DataPlace(t, i, j)));
  }

  /** The parser accepts the table, cuts off anything after it, and finds the same columns and
      string pool. */
  lemma {:induction false} TableParses(t: B.Table, tail: bytes)
    requires B.Accepts(t) && B.DataStart(t) <= U32_MAX
    ensures SmallOffsets(B.PoolOf(t))
    ensures var r := P.Parse(B.TableBytes(t) + tail);
      && r.Some? && r.value.alloc == B.TableBytes(t)
      && r.value.header == P.Header(B.TotalSize(t) - 8, B.RowsStart(t), B.StringStart(t), B.DataStart(t),
                                    |t.columns|, B.Width(t.columns), |t.rows|)
      && r.value.columns == ReadColumns(t.columns, B.PoolOf(t))
      && r.value.strings == P.StringsOf(B.PoolOf(t).data)
  {
    hide *;
    var b, p := B.TableBytes(t), B.PoolOf(t);
    var alloc := b + tail;
    OffsetsFit(t);
    Sections(t);
    Bounds(t);
    HeaderReadBack(t, tail);
    var h := P.HeaderOf(alloc);
    SectionsHold(t, alloc, h);
    assert alloc[..|b|] == b;
    var columns := ReadColumns(t.columns, p);
    ColumnsReadBack(b, t.columns, p, |t.columns|);
    assert columns[..|t.columns|] == columns && t.columns[..|t.columns|] == t.columns;
    WidthReadBack(t.columns, p, |t.columns|);
    FlagsReadBack(t.columns, p);
    AtLeft(b, tail, B.StringStart(t), p.data);
    AtFits(alloc, B.StringStart(t), p.data);
    B.PoolCovers(t);
    PoolParses(p);
    P.ParseSucceeds(alloc, h, columns, B.RowsStart(t));
  }

  lemma {:induction false} PoolParses(p: B.Pool)
    requires B.WellPooled(p)
    ensures P.ParseStrings(p.data) == Some(P.StringsOf(p.data))
  {
    PoolReadsBack(p, []);
  }

  lemma {:induction false} FlagsReadBack(columns: seq<B.UtfColumn>, p: B.Pool)
    requires SmallOffsets(p)
    ensures forall j :: 0 <= j < |columns| ==> !P.TypeOf(ReadColumns(columns, p)[j].flag).Invalid?
  {
    forall j | 0 <= j < |columns| ensures !P.TypeOf(ReadColumns(columns, p)[j].flag).Invalid? {
      FlagReadsBack(columns[j].valueType);
    }
  }

  lemma {:induction false} SectionsHold(t: B.Table, alloc: bytes, h: P.Header)
    requires B.Accepts(t) && B.DataStart(t) <= U32_MAX && |alloc| >= B.TotalSize(t)
    requires B.StringStart(t) >= 8 && B.DataStart(t) >= 8
    requires h == P.Header(B.TotalSize(t) - 8, B.RowsStart(t), P.SaturatingAdd32(B.StringStart(t) - 8, 8),
               P.SaturatingAdd32(B.DataStart(t) - 8, 8), |t.columns|, B.Width(t.columns), |t.rows|)
    ensures P.SectionsValid(alloc, h) && h.stringPoolOffset == B.StringStart(t) && h.dataPoolOffset == B.DataStart(t)
    ensures B.RowsStart(t) == B.HEADER_SIZE + 5 * |t.columns| && B.DataStart(t) == B.StringStart(t) + |B.PoolOf(t).data|
  {
  }

  /** The columns and the row section are right in every parsed table, even where the pool offsets
      have saturated. */
  lemma {:induction false} RowsParse(t: B.Table, tail: bytes)
    requires B.Accepts(t) && P.Parse(B.TableBytes(t) + tail).Some?
    ensures SmallOffsets(B.PoolOf(t))
    ensures var h := P.Parse(B.TableBytes(t) + tail).value;
      && h.columns == ReadColumns(t.columns, B.PoolOf(t)) && h.alloc == B.TableBytes(t)
      && h.header.rowsOffset == B.RowsStart(t) && h.header.rowSize == B.Width(t.columns)
      && |h.rows| == |t.rows|
  {
    hide At, P.Parse, B.TableBytes, B.PoolOf, B.Width, Times, P.Width, P.HeaderOf, P.ReadColumns, P.StringsOf,
      P.ParseStrings, P.TypeOf,
      P.SectionsValid, B.TotalSize, B.SchemaBytes, ReadColumn, P.RowAt, B.Accepts, SmallOffsets;
    var b, p := B.TableBytes(t), B.PoolOf(t);
    OffsetsFit(t);
    HeaderReadBack(t, tail);
    P.ParsedShape(b + tail);
    Sections(t);
    Bounds(t);
    assert (b + tail)[..|b|] == b;
    ColumnsReadBack(b, t.columns, p, |t.columns|);
    assert ReadColumns(t.columns, p)[..|t.columns|] == ReadColumns(t.columns, p);
  }

  /** Every cell of an accepted table whose bytes parse is read as the value written. */
  lemma {:induction false} CellParses(t: B.Table, tail: bytes, i: nat, j: nat)
    requires B.Accepts(t) && i < |t.rows| && j < |t.columns| && P.Parse(B.TableBytes(t) + tail).Some?
    ensures |t.rows[i]| == |t.columns|
    ensures SmallOffsets(B.PoolOf(t))
    ensures DataPlace(t, i, j) + |B.CellPayload(t.rows[i][j])| <= U32_MAX
    ensures P.Value(P.Parse(B.TableBytes(t) + tail).value, i, j) ==
            Some(ReadCell(t.rows[i][j], B.PoolOf(t), DataPlace(t, i, j)))
  {
    hide At, P.Parse, B.TableBytes, B.PoolOf, B.Width, Times, P.Width, B.CellBytes, P.ValueOf, B.DataStart,
      B.StringStart, B.TotalSize, DataPlace, P.TypeOf, B.FlagByte, P.HasRowStorage, B.TypeOf;
    RowsParse(t, tail);
    var b, p := B.TableBytes(t), B.PoolOf(t);
    var h := P.Parse(b + tail).value;
    assert B.Typed(t.rows[i], t.columns);
    var v := t.rows[i][j];
    P.AcceptedCells(b + tail, i, j);
    WidthReadBack(t.columns, p, j);
    CellPlaced(t, i, j);
    PlaceFits(t, i, j);
    FlagReadsBack(t.columns[j].valueType);
    var pos, field := P.CellPosition(h.header, h.columns, i, j), B.CellBytes(v, p, DataPlace(t, i, j));
    AtLeft(b, tail, pos, field);
    AtSlice(b + tail, pos, field);
    assert v.CellData? ==> |v.data| == |B.CellPayload(v)|;
    CellReadsBack(v, p, DataPlace(t, i, j), field);
  }

  /** Cell (i, j) of the parsed table is the cell that went in: numbers equal, strings resolved
      to their text up to the first NUL with offset zero for the empty string alone, data
      resolved to the same bytes. */
  ghost predicate SameCell(h: P.HighTable, i: nat, j: nat, v: B.UtfValue) {
    var r := P.Value(h, i, j);
    && r.Some?
    && match v
       case CellU16(n) => r.value == P.UInt16Value(n)
       case CellU32(n) => r.value == P.UInt32Value(n)
       case CellU64(n) => r.value == P.UInt64Value(n)
       case CellString(s) =>
         r.value.StringValue? && P.GetString(h, r.value.offset) == Some(P.UpToNul(s)) &&
             (r.value.offset == 0 <==> s == [])
       case CellData(d) =>
         r.value.DataValue? && r.value.length == |d| && P.DataOf(h, r.value.start, r.value.length) == Some(d)
  }

  lemma {:induction false} StringSame(h: P.HighTable, i: nat, j: nat, s: bytes, p: B.Pool)
    requires B.WellPooled(p) && s in p.offsets && p.offsets[s] <= U32_MAX && h.strings == P.StringsOf(p.data)
    requires P.Value(h, i, j) == Some(P.StringValue(p.offsets[s]))
    ensures SameCell(h, i, j, B.CellString(s))
  {
    hide P.StringsOf, P.UpToNul, P.Value, B.Holds;
    PoolReadsBack(p, s);
  }

  lemma {:induction false} DataSame(h: P.HighTable, i: nat, j: nat, d: bytes, at: u32)
    requires |d| <= U32_MAX && At(h.alloc, h.header.dataPoolOffset + at, d)
    requires P.Value(h, i, j) == Some(P.DataValue(at, |d|))
    ensures SameCell(h, i, j, B.CellData(d))
  {
    hide At, P.Value;
    AtFits(h.alloc, h.header.dataPoolOffset + at, d);
  }

  lemma {:induction false} NumberSame(h: P.HighTable, i: nat, j: nat, v: B.UtfValue, p: B.Pool, at: nat)
    requires !v.CellString? && !v.CellData? && SmallOffsets(p)
    requires P.Value(h, i, j) == Some(ReadCell(v, p, at))
    ensures SameCell(h, i, j, v)
  {
    hide P.Value;
  }

  lemma {:induction false} CellSame(t: B.Table, tail: bytes, i: nat, j: nat)
    requires B.Accepts(t) && B.DataStart(t) <= U32_MAX && i < |t.rows| && j < |t.columns|
    ensures |t.rows[i]| == |t.columns|
    ensures P.Parse(B.TableBytes(t) + tail).Some? && SameCell(P.Parse(B.TableBytes(t) + tail).value, i, j, t.rows[i][j])
  {
    hide At, P.Parse, B.TableBytes, B.PoolOf, B.Width, Times, P.Value, B.Accepts, B.DataStart, B.StringStart,
      B.TotalSize,
      DataPlace, B.RowsData, P.StringsOf, SameCell, B.WellPooled, SmallOffsets;
    TableParses(t, tail);
    CellParses(t, tail, i, j);
    var p, v := B.PoolOf(t), t.rows[i][j];
    var h := P.Parse(B.TableBytes(t) + tail).value;
    if v.CellString? {
      B.PoolCovers(t);
      OffsetSmall(p, v.text);
      StringSame(h, i, j, v.text, p);
    } else if v.CellData? {
      Sections(t);
      DataPlaced(t, i, j);
      AtInside(h.alloc, B.DataStart(t), B.RowsData(t.rows), DataPlace(t, i, j), v.data);
      DataSame(h, i, j, v.data, DataPlace(t, i, j));
    } else {
      NumberSame(h, i, j, v, p, DataPlace(t, i, j));
    }
  }

  lemma {:induction false} OffsetSmall(p: B.Pool, s: bytes)
    requires SmallOffsets(p) && s in p.offsets
    ensures p.offsets[s] <= U32_MAX
  {
  }

  lemma {:induction false} AtFits(s: bytes, o: nat, x: bytes)
    requires At(s, o, x)
    ensures o + |x| <= |s| && s[o..o + |x|] == x
  {
    AtSlice(s, o, x);
  }

  /** The parsed table holds what the written one did: same row and column counts, same column
      names, same cells. */
  ghost predicate Mirrors(h: P.HighTable, t: B.Table) {
    && |h.rows| == |t.rows| && |h.columns| == |t.columns|
    && (forall j :: 0 <= j < |t.columns| ==>
          P.GetString(h, h.columns[j].nameOffset) == Some(P.UpToNul(t.columns[j].name)))
    && (forall i :: 0 <= i < |t.rows| ==> |t.rows[i]| == |t.columns|)
    && (forall i, j :: 0 <= i < |t.rows| && 0 <= j < |t.columns| ==> SameCell(h, i, j, t.rows[i][j]))
  }

  lemma {:induction false} NameSame(t: B.Table, tail: bytes, j: nat)
    requires B.Accepts(t) && B.DataStart(t) <= U32_MAX && j < |t.columns|
    ensures var r := P.Parse(B.TableBytes(t) + tail);
      && r.Some? && |r.value.columns| == |t.columns| && |r.value.rows| == |t.rows|
      && P.GetString(r.value, r.value.columns[j].nameOffset) == Some(P.UpToNul(t.columns[j].name))
  {
    hide P.Parse, B.TableBytes, B.PoolOf, B.DataStart, P.StringsOf, P.UpToNul, B.Accepts, B.WellPooled;
    TableParses(t, tail);
    RowsParse(t, tail);
    B.PoolCovers(t);
    PoolReadsBack(B.PoolOf(t), t.columns[j].name);
  }

  /** Every table the builder accepts and whose pools start within 32 bits parses back, whatever
      bytes follow it. */
  lemma {:induction false} TableRoundTrip(t: B.Table, tail: bytes)
    requires B.Accepts(t) && B.DataStart(t) <= U32_MAX
    ensures P.Parse(B.TableBytes(t) + tail).Some? && Mirrors(P.Parse(B.TableBytes(t) + tail).value, t)
  {
    hide P.Parse, B.TableBytes, B.DataStart, P.UpToNul, P.GetString, SameCell, B.Accepts, ReadColumns, SmallOffsets;
    TableParses(t, tail);
    RowsParse(t, tail);
    var h := P.Parse(B.TableBytes(t) + tail).value;
    RowsTyped(t);
    forall j | 0 <= j < |t.columns|
      ensures P.GetString(h, h.columns[j].nameOffset) == Some(P.UpToNul(t.columns[j].name))
    {
      NameSame(t, tail, j);
    }
    forall i, j | 0 <= i < |t.rows| && 0 <= j < |t.columns| ensures SameCell(h, i, j, t.rows[i][j]) {
      CellSame(t, tail, i, j);
    }
  }

  lemma {:induction false} RowsTyped(t: B.Table)
    requires B.Accepts(t)
    ensures forall i :: 0 <= i < |t.rows| ==> |t.rows[i]| == |t.columns|
  {
    forall i | 0 <= i < |t.rows| ensures |t.rows[i]| == |t.columns| {
      assert B.Typed(t.rows[i], t.columns);
    }
  }

  lemma {:induction false} BuiltTableParses(t: B.Table)
    requires B.Accepts(t) && B.DataStart(t) <= U32_MAX
    ensures P.Parse(B.TableBytes(t)).Some? && Mirrors(P.Parse(B.TableBytes(t)).value, t)
  {
    hide *;
    TableRoundTrip(t, []);
    assert B.TableBytes(t) + [] == B.TableBytes(t);
  }
}
