/** The exact limit of the table round trip: a table reads back when its data pool starts within
    32 bits, or when everything the reader looks up happens to lie before the cut. */
module TableLimit {
  import opened BitOps
  import opened Bytes
  import opened Wrappers
  import opened UtfRoundTrip
  import opened UtfLimits
  import B = UtfBuild
  import P = UtfParse

  /** Where the reader's saturated data offset cuts the string pool. */
  function Cut(t: B.Table): int {
    U32_MAX - B.StringStart(t)
  }

  /** String pool and data pool together. */
  function Pools(t: B.Table): bytes {
    B.PoolOf(t).data + B.RowsData(t.rows)
  }

  ghost predicate CellBefore(t: B.Table, n: nat, i: nat, j: nat)
    requires i < |t.rows| && j < |t.rows[i]|
  {
    match t.rows[i][j]
    case CellString(s) => B.OffsetOf(B.PoolOf(t), s) < n
    case CellData(d) => At(Pools(t), n + DataPlace(t, i, j), d)
    case _ => true
  }

  /** The cut falls between two strings, every column name and text starts before it, and the data
      pool read from it on holds every data cell where the reader expects it. */
  ghost predicate ReadableBeyond(t: B.Table) {
    && 0 <= Cut(t) <= |B.PoolOf(t).data| && (Cut(t) == 0 || B.PoolOf(t).data[Cut(t) - 1] == 0)
    && (forall j :: 0 <= j < |t.columns| ==> B.OffsetOf(B.PoolOf(t), t.columns[j].name) < Cut(t))
    && (forall i, j :: 0 <= i < |t.rows| && 0 <= j < |t.rows[i]| ==> CellBefore(t, Cut(t), i, j))
  }

  // ----- the cut pool -----

  /** In a cut that the parser accepts, a string is found exactly when it starts before the cut. */
  lemma {:induction false} FoundIff(p: B.Pool, s: bytes, n: nat)
    requires B.WellPooled(p) && s in p.offsets && n <= |p.data| && P.ParseStrings(p.data[..n]).Some?
    ensures p.offsets[s] in P.StringsOf(p.data[..n]) <==> p.offsets[s] < n
    ensures p.offsets[s] < n ==> P.StringsOf(p.data[..n])[p.offsets[s]] == P.UpToNul(s)
  {
    var o, cut := p.offsets[s], p.data[..n];
    assert B.Holds(p.data, s, o);
    if o < n {
      assert cut[n - 1] == 0;
      hide B.WellPooled, P.UpToNul;
      CutText(p.data, s, o, n);
    }
  }

  lemma {:induction false} CutText(data: bytes, s: bytes, o: nat, n: nat)
    requires B.Holds(data, s, o) && o < n <= |data| && data[n - 1] == 0
    ensures P.UpToNul(data[..n][o..]) == P.UpToNul(s)
  {
    var u := P.UpToNul(s);
    NulAfter(data, s, o);
    FirstNul(data, s, o, n);
    var rest := data[..n][o..][|u| + 1..];
    assert data[..n][o..] == u + [0] + rest by {
      Regroup(data, s, u, o, n);
    }
    UpToNulInFront(u, rest);
    WholeIffNulFree(u);
  }

  /** The byte after the part up to the first NUL is a NUL. */
  lemma {:induction false} NulAfter(data: bytes, s: bytes, o: nat)
    requires B.Holds(data, s, o)
    ensures data[o + |P.UpToNul(s)|] == 0
    ensures forall k :: o <= k < o + |P.UpToNul(s)| ==> data[k] == P.UpToNul(s)[k - o] != 0
  {
    var u := P.UpToNul(s);
    if |u| < |s| {
      assert data[o + |u|] == data[o..o + |s|][|u|];
    }
    forall k | o <= k < o + |u| ensures data[k] == u[k - o] != 0 {
      assert data[k] == data[o..o + |s|][k - o];
      assert u[k - o] in u;
    }
  }

  lemma {:induction false} FirstNul(data: bytes, s: bytes, o: nat, n: nat)
    requires B.Holds(data, s, o) && o < n <= |data| && data[n - 1] == 0
    ensures o + |P.UpToNul(s)| < n
  {
    NulAfter(data, s, o);
  }

  lemma {:induction false} Regroup(data: bytes, s: bytes, u: bytes, o: nat, n: nat)
    requires o + |u| < n <= |data| && data[o + |u|] == 0
    requires forall k :: o <= k < o + |u| ==> data[k] == u[k - o]
    ensures data[..n][o..] == u + [0] + data[..n][o..][|u| + 1..]
  {
    var left := data[..n][o..];
    var right := u + [0] + left[|u| + 1..];
    forall k | 0 <= k < |left| ensures left[k] == right[k] {
      assert left[k] == data[o + k];
    }
  }

  // ----- parsing past the limit -----

  /** Past the limit a table parses exactly when its rows end within 32 bits and the cut falls
      between two strings. */
  lemma {:induction false} ParsesBeyond(t: B.Table)
    requires B.Accepts(t) && B.DataStart(t) > U32_MAX
    requires 0 <= Cut(t) <= |B.PoolOf(t).data| && (Cut(t) == 0 || B.PoolOf(t).data[Cut(t) - 1] == 0)
    ensures P.Parse(B.TableBytes(t)).Some?
  {
    hide *;
    var b, p := B.TableBytes(t), B.PoolOf(t);
    assert b + [] == b;
    OffsetsFit(t);
    Sections(t);
    Bounds(t);
    HeaderReadBack(t, []);
    var h := P.HeaderOf(b);
    SaturatedSections(t, b, h);
    assert b[..|b|] == b;
    var columns := ReadColumns(t.columns, p);
    ColumnsReadBack(b, t.columns, p, |t.columns|);
    assert columns[..|t.columns|] == columns && t.columns[..|t.columns|] == t.columns;
    WidthReadBack(t.columns, p, |t.columns|);
    FlagsReadBack(t.columns, p);
    AtFits(b, B.StringStart(t), p.data);
    CutIs(t, b);
    CutParses(p.data, Cut(t));
    P.ParseSucceeds(b, h, columns, B.RowsStart(t));
  }

  lemma {:induction false} CutParses(data: bytes, n: nat)
    requires n <= |data|
    ensures P.ParseStrings(data[..n]).Some? <==> n == 0 || data[n - 1] == 0
  {
    hide P.StringsOf;
  }

  lemma {:induction false} CutIs(t: B.Table, b: bytes)
    requires 0 <= Cut(t) <= |B.PoolOf(t).data| && B.StringStart(t) + |B.PoolOf(t).data| <= |b|
    requires b[B.StringStart(t)..B.StringStart(t) + |B.PoolOf(t).data|] == B.PoolOf(t).data
    ensures B.StringStart(t) <= U32_MAX <= |b| && b[B.StringStart(t)..U32_MAX] == B.PoolOf(t).data[..Cut(t)]
  {
    hide B.StringStart, B.PoolOf;
    var o, x := B.StringStart(t), B.PoolOf(t).data;
    assert b[o..U32_MAX] == b[o..o + |x|][..U32_MAX - o];
  }

  /** The header of a table past the limit, as the reader checks it. */
  lemma {:induction false} SaturatedSections(t: B.Table, alloc: bytes, h: P.Header)
    requires B.Accepts(t) && B.DataStart(t) > U32_MAX && 0 <= Cut(t) && |alloc| >= B.TotalSize(t)
    requires B.StringStart(t) >= 8 && B.DataStart(t) >= 8
    requires h == P.Header(B.TotalSize(t) - 8, B.RowsStart(t), P.SaturatingAdd32(B.StringStart(t) - 8, 8),
               P.SaturatingAdd32(B.DataStart(t) - 8, 8), |t.columns|, B.Width(t.columns), |t.rows|)
    ensures P.SectionsValid(alloc, h) && h.stringPoolOffset == B.StringStart(t) && h.dataPoolOffset == U32_MAX
    ensures B.RowsStart(t) == B.HEADER_SIZE + 5 * |t.columns| && B.DataStart(t) == B.StringStart(t) + |B.PoolOf(t).data|
  {
  }

  // ----- cells past the limit -----

  /** A table past the limit that parses, as the reader sees it. */
  ghost predicate Beyond(t: B.Table, h: P.HighTable) {
    B.Accepts(t) && B.DataStart(t) > U32_MAX && P.Parse(B.TableBytes(t)) == Some(h)
  }

  lemma {:induction false} BeyondShape(t: B.Table, h: P.HighTable)
    requires Beyond(t, h)
    ensures 0 <= Cut(t) < |B.PoolOf(t).data| && P.ParseStrings(B.PoolOf(t).data[..Cut(t)]).Some?
    ensures h.strings == P.StringsOf(B.PoolOf(t).data[..Cut(t)]) && h.alloc == B.TableBytes(t)
    ensures h.header.dataPoolOffset == U32_MAX
    ensures SmallOffsets(B.PoolOf(t)) && h.columns == ReadColumns(t.columns, B.PoolOf(t)) && |h.rows| == |t.rows|
  {
    hide P.Parse, B.TableBytes, B.PoolOf, P.StringsOf, B.Width, Times, P.HeaderOf, ReadColumns, SmallOffsets,
      P.SectionsValid, P.RowsOf, P.ReadColumns;
    assert B.TableBytes(t) + [] == B.TableBytes(t);
    StringsCut(t);
    RowsParse(t, []);
    HeaderReadBack(t, []);
    P.ParsedShape(B.TableBytes(t));
  }

  lemma {:induction false} TextIff(t: B.Table, h: P.HighTable, s: bytes)
    requires Beyond(t, h) && s in B.PoolOf(t).offsets
    ensures 0 <= Cut(t)
    ensures (P.GetString(h, B.PoolOf(t).offsets[s]) == Some(P.UpToNul(s)) <==> B.PoolOf(t).offsets[s] < Cut(t))
  {
    hide Beyond, B.PoolOf, P.StringsOf, P.UpToNul, B.WellPooled, SmallOffsets, B.StringStart;
    BeyondShape(t, h);
    B.PoolCovers(t);
    FoundIff(B.PoolOf(t), s, Cut(t));
  }

  lemma {:induction false} PoolsPlaced(t: B.Table)
    requires B.Accepts(t)
    ensures |B.TableBytes(t)| == B.StringStart(t) + |Pools(t)| && At(B.TableBytes(t), B.StringStart(t), Pools(t))
  {
    hide B.HeaderBytes, B.SchemaBytes, B.RowsBytes, B.RowsData, B.PoolOf, B.Width, Times, At;
    var p := B.PoolOf(t);
    B.TableLength(t);
    B.SchemaLength(t.columns, p);
    B.RowsBytesLength(t.rows, t.columns, p);
    var front := B.HeaderBytes(t) + B.SchemaBytes(t.columns, p) + B.RowsBytes(t.rows, p);
    assert B.TableBytes(t) == front + Pools(t);
    AtEnd(front, Pools(t));
  }

  lemma {:induction false} DataIff(t: B.Table, h: P.HighTable, at: u32, d: bytes)
    requires Beyond(t, h) && |d| <= U32_MAX
    ensures 0 <= Cut(t) && (P.DataOf(h, at, |d|) == Some(d) <==> At(Pools(t), Cut(t) + at, d))
  {
    hide Beyond, B.TableBytes, Pools, SmallOffsets, B.StringStart, B.PoolOf, P.StringsOf, P.ParseStrings;
    BeyondShape(t, h);
    Accepted(t, h);
    PoolsPlaced(t);
    SliceIff(B.TableBytes(t), B.StringStart(t), Pools(t), Cut(t) + at, d);
  }

  lemma {:induction false} Accepted(t: B.Table, h: P.HighTable)
    requires Beyond(t, h)
    ensures B.Accepts(t)
  {
  }

  lemma {:induction false} SliceIff(b: bytes, o: nat, x: bytes, k: nat, d: bytes)
    requires |b| == o + |x| && At(b, o, x)
    ensures (o + k + |d| <= |b| && b[o + k..o + k + |d|] == d) <==> At(x, k, d)
  {
    if o + k + |d| <= |b| {
      assert b[o + k..o + k + |d|] == x[k..k + |d|] by {
        AtSlice(b, o, x);
        assert b[o + k..o + k + |d|] == b[o..o + |x|][k..k + |d|];
      }
      if At(x, k, d) {
        AtSlice(x, k, d);
      }
      assert x[k..k + |d|] == d ==> At(x, k, d) by {
        assert forall m :: k <= m < k + |d| ==> x[m] == x[k..k + |d|][m - k];
      }
    }
  }

  lemma {:induction false} ZeroIsEmpty(p: B.Pool, s: bytes)
    requires B.WellPooled(p) && s in p.offsets
    ensures p.offsets[s] == 0 <==> s == []
  {
  }

  lemma {:induction false} CellIff(t: B.Table, h: P.HighTable, i: nat, j: nat)
    requires Beyond(t, h) && i < |t.rows| && j < |t.columns|
    ensures |t.rows[i]| == |t.columns| && 0 <= Cut(t)
    ensures SameCell(h, i, j, t.rows[i][j]) <==> CellBefore(t, Cut(t), i, j)
  {
    hide P.Parse, B.TableBytes, B.PoolOf, P.StringsOf, P.UpToNul, B.Width, Times, P.Value, P.GetString, P.DataOf,
      Pools, DataPlace,
      B.WellPooled, SmallOffsets, B.DataStart, B.StringStart, B.TotalSize, At;
    assert B.TableBytes(t) + [] == B.TableBytes(t);
    assert B.Typed(t.rows[i], t.columns);
    CellParses(t, [], i, j);
    B.PoolCovers(t);
    BeyondShape(t, h);
    var v := t.rows[i][j];
    match v
    case CellString(s) =>
      ZeroIsEmpty(B.PoolOf(t), s);
      TextIff(t, h, s);
    case CellData(d) => DataIff(t, h, DataPlace(t, i, j), d);
    case CellU16(_) =>
    case CellU32(_) =>
    case CellU64(_) =>
  }

  // ----- the exact condition -----

  lemma {:induction false} NameIff(t: B.Table, h: P.HighTable, j: nat)
    requires Beyond(t, h) && j < |t.columns|
    ensures |h.columns| == |t.columns| && 0 <= Cut(t)
    ensures P.GetString(h, h.columns[j].nameOffset) == Some(P.UpToNul(t.columns[j].name))
            <==> B.OffsetOf(B.PoolOf(t), t.columns[j].name) < Cut(t)
  {
    hide Beyond, B.PoolOf, P.StringsOf, P.UpToNul, P.GetString, SmallOffsets, B.StringStart, B.WellPooled, ReadColumn,
      P.ParseStrings;
    BeyondShape(t, h);
    B.PoolCovers(t);
    ColumnOffset(t.columns, B.PoolOf(t), j);
    TextIff(t, h, t.columns[j].name);
  }

  lemma {:induction false} MirrorsBeyond(t: B.Table, h: P.HighTable)
    requires Beyond(t, h)
    ensures Mirrors(h, t) <==> ReadableBeyond(t)
  {
    hide *;
    BeyondShape(t, h);
    Accepted(t, h);
    RowsTyped(t);
    CutParses(B.PoolOf(t).data, Cut(t));
    forall j | 0 <= j < |t.columns| ensures NameRead(t, h, j) <==> NameBefore(t, j) {
      NameIff(t, h, j);
      NameReadIs(t, h, j);
    }
    forall i, j | 0 <= i < |t.rows| && 0 <= j < |t.columns|
      ensures SameCell(h, i, j, t.rows[i][j]) <==> CellBefore(t, Cut(t), i, j)
    {
      CellIff(t, h, i, j);
    }
    MirrorsIs(t, h);
    ReadableIs(t);
  }

  ghost predicate NameRead(t: B.Table, h: P.HighTable, j: nat) {
    j < |h.columns| && j < |t.columns| && P.GetString(h, h.columns[j].nameOffset) == Some(P.UpToNul(t.columns[j].name))
  }

  ghost predicate NameBefore(t: B.Table, j: nat) {
    j < |t.columns| && B.OffsetOf(B.PoolOf(t), t.columns[j].name) < Cut(t)
  }

  lemma {:induction false} NameReadIs(t: B.Table, h: P.HighTable, j: nat)
    requires j < |t.columns| == |h.columns|
    ensures NameRead(t, h, j) <==> P.GetString(h, h.columns[j].nameOffset) == Some(P.UpToNul(t.columns[j].name))
    ensures NameBefore(t, j) <==> B.OffsetOf(B.PoolOf(t), t.columns[j].name) < Cut(t)
  {
    hide P.GetString, P.UpToNul, B.OffsetOf, B.PoolOf, Cut;
  }

  lemma {:induction false} MirrorsIs(t: B.Table, h: P.HighTable)
    requires |h.rows| == |t.rows| && |h.columns| == |t.columns|
    requires forall i :: 0 <= i < |t.rows| ==> |t.rows[i]| == |t.columns|
    ensures Mirrors(h, t) <==>
              && (forall j :: 0 <= j < |t.columns| ==> NameRead(t, h, j))
              && (forall i, j :: 0 <= i < |t.rows| && 0 <= j < |t.columns| ==> SameCell(h, i, j, t.rows[i][j]))
  {
    hide P.GetString, P.UpToNul, SameCell;
    if Mirrors(h, t) {
      forall j | 0 <= j < |t.columns| ensures NameRead(t, h, j) {
      }
    }
    if forall j :: 0 <= j < |t.columns| ==> NameRead(t, h, j) {
      forall j | 0 <= j < |t.columns|
        ensures P.GetString(h, h.columns[j].nameOffset) == Some(P.UpToNul(t.columns[j].name))
      {
        assert NameRead(t, h, j);
      }
    }
  }

  lemma {:induction false} ReadableIs(t: B.Table)
    requires 0 <= Cut(t) <= |B.PoolOf(t).data| && (Cut(t) == 0 || B.PoolOf(t).data[Cut(t) - 1] == 0)
    requires forall i :: 0 <= i < |t.rows| ==> |t.rows[i]| == |t.columns|
    ensures ReadableBeyond(t) <==>
              && (forall j :: 0 <= j < |t.columns| ==> NameBefore(t, j))
              && (forall i, j :: 0 <= i < |t.rows| && 0 <= j < |t.columns| ==> CellBefore(t, Cut(t), i, j))
  {
    hide B.OffsetOf, B.PoolOf, CellBefore, B.StringStart;
    if forall j :: 0 <= j < |t.columns| ==> NameBefore(t, j) {
      forall j | 0 <= j < |t.columns| ensures B.OffsetOf(B.PoolOf(t), t.columns[j].name) < Cut(t) {
        assert NameBefore(t, j);
      }
    }
  }

  lemma {:induction false} ColumnOffset(columns: seq<B.UtfColumn>, p: B.Pool, j: nat)
    requires SmallOffsets(p) && j < |columns| && columns[j].name in p.offsets
    ensures ReadColumns(columns, p)[j].nameOffset == p.offsets[columns[j].name] == B.OffsetOf(p, columns[j].name)
  {
  }

  /** The exact limit, for every table the builder accepts: it reads back, columns, numbers, texts
      and data, exactly when the data pool starts at or below 0xffff_ffff or everything looked up
      lies before the cut. */
  lemma {:induction false} ReadsBackIff(t: B.Table)
    requires B.Accepts(t)
    ensures (P.Parse(B.TableBytes(t)).Some? && Mirrors(P.Parse(B.TableBytes(t)).value, t))
            <==> B.DataStart(t) <= U32_MAX || ReadableBeyond(t)
  {
    hide *;
    if B.DataStart(t) <= U32_MAX {
      BuiltTableParses(t);
    } else {
      if ReadableBeyond(t) {
        CutGood(t);
        ParsesBeyond(t);
      }
      if P.Parse(B.TableBytes(t)).Some? {
        var h := P.Parse(B.TableBytes(t)).value;
        IsBeyond(t, h);
        MirrorsBeyond(t, h);
      }
    }
  }

  lemma {:induction false} CutGood(t: B.Table)
    requires ReadableBeyond(t)
    ensures 0 <= Cut(t) <= |B.PoolOf(t).data| && (Cut(t) == 0 || B.PoolOf(t).data[Cut(t) - 1] == 0)
  {
    hide B.PoolOf, CellBefore, B.StringStart;
  }

  lemma {:induction false} IsBeyond(t: B.Table, h: P.HighTable)
    requires B.Accepts(t) && B.DataStart(t) > U32_MAX && P.Parse(B.TableBytes(t)) == Some(h)
    ensures Beyond(t, h)
  {
    hide B.Accepts, B.DataStart, P.Parse, B.TableBytes;
  }

  // ----- past the limit and still read -----

  /** Named "ab", two unnamed 16-bit columns and n zero rows. */
  function Plain(n: nat): B.Table {
    B.Table([0x61, 0x62], [B.UtfColumn([], B.TypeU16), B.UtfColumn([], B.TypeU16)],
        seq(n, _ => [B.CellU16(0), B.CellU16(0)]))
  }

  lemma {:induction false} PlainNoTexts(rows: seq<seq<B.UtfValue>>)
    requires forall i :: 0 <= i < |rows| ==> rows[i] == [B.CellU16(0), B.CellU16(0)]
    ensures B.RowsTexts(rows) == [] && B.RowsData(rows) == []
  {
    if rows != [] {
      var k := |rows| - 1;
      PlainNoTexts(rows[..k]);
      var row, one := rows[k], [B.CellU16(0)];
      assert row[..1] == one && one[..0] == [] && B.RowTexts(one) == [] && B.RowTexts(row) == [];
      var parts: seq<bytes> := B.RowPayloads(row);
      var first: seq<bytes> := [[]];
      assert parts == [[], []] && parts[..1] == first && first[..0] == [];
      assert Concat(first) == Concat(first[..0]) + first[0];
      assert B.RowData(row) == [];
      assert B.RowsPayloads(rows)[..k] == B.RowsPayloads(rows[..k]);
    }
  }

  lemma {:induction false} PlainPool(t: B.Table)
    requires t.name == [0x61, 0x62] && B.ColumnNames(t.columns) == [[], []] && B.RowsTexts(t.rows) == []
    ensures B.PoolOf(t) == B.Pool([0, 0x61, 0x62, 0], map[[] := 0, [0x61, 0x62] := 1])
  {
    var x, y, z: seq<bytes> := [[0x61, 0x62], [], []], [[0x61, 0x62], []], [[0x61, 0x62]];
    assert B.Texts(t) == x;
    assert x[..2] == y && y[..1] == z && z[..0] == [];
    var p := B.Intern(B.FIRST_POOL, [0x61, 0x62]);
    assert B.FIRST_POOL.data + [0x61, 0x62] + [0] == [0, 0x61, 0x62, 0];
    assert p == B.Pool([0, 0x61, 0x62, 0], map[[] := 0, [0x61, 0x62] := 1]);
    assert B.InternAll(B.FIRST_POOL, z[..0]) == B.FIRST_POOL;
    assert B.InternAll(B.FIRST_POOL, z) == p;
    assert B.InternAll(B.FIRST_POOL, y) == p;
    assert B.InternAll(B.FIRST_POOL, x) == p;
  }

  lemma {:induction false} PlainWidth(c: seq<B.UtfColumn>)
    requires |c| == 2 && c[0].valueType == B.TypeU16 && c[1].valueType == B.TypeU16
    ensures B.Width(c) == 4
  {
    assert c[..1][..0] == [] && c[..2] == c;
    assert B.Width(c[..1][..0]) == 0;
    assert B.Width(c[..1]) == 2;
  }

  lemma {:induction false} PlainShape(n: nat)
    ensures var t := Plain(n);
      && B.PoolOf(t) == B.Pool([0, 0x61, 0x62, 0], map[[] := 0, [0x61, 0x62] := 1]) && B.Width(t.columns) == 4
      && B.StringStart(t) == 42 + 4 * n && B.DataStart(t) == B.TotalSize(t) == 46 + 4 * n
  {
    var t := Plain(n);
    PlainNoTexts(t.rows);
    assert B.ColumnNames(t.columns) == [[], []];
    PlainPool(t);
    PlainWidth(t.columns);
    hide B.PoolOf, B.Width, B.RowsData, B.RowsTexts;
    TimesIsProduct(4, n);
  }

  /** A table past the limit that still reads back: only its own name is cut off, and that is never
      looked up. */
  lemma {:induction false} PlainReadsBeyond()
    ensures var t := Plain(0x3fff_fff5);
      && B.Accepts(t) && B.DataStart(t) > U32_MAX
      && P.Parse(B.TableBytes(t)).Some? && Mirrors(P.Parse(B.TableBytes(t)).value, t)
  {
    hide B.TableBytes, P.Parse, B.PoolOf, Mirrors, B.Width, B.DataStart, B.StringStart, B.TotalSize;
    var n := 0x3fff_fff5;
    var t := Plain(n);
    PlainShape(n);
    assert B.Accepts(t);
    assert forall i, j :: 0 <= i < |t.rows| && 0 <= j < |t.rows[i]| ==> CellBefore(t, Cut(t), i, j);
    assert ReadableBeyond(t);
    ReadsBackIff(t);
  }
}
