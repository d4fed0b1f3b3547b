/** `UtfTableBuilder::build` and `intern_string`: the loops that produce the table's bytes. */
module UtfBuilder {
  import opened BitOps
  import opened Bytes
  import opened Wrappers
  import opened UtfBuild

  class Interner {
    var pool: bytes
    var offsets: map<bytes, nat>

    ghost function Abs(): Pool
      reads this
    {
      Pool(pool, offsets)
    }

    constructor ()
      ensures Abs() == FIRST_POOL
    {
      pool, offsets := [0], map[[] := 0];
    }

    /** Fails exactly when a new string would start beyond a 32-bit offset. */
    method InternString(s: bytes) returns (r: Option<nat>)
      modifies this
      ensures r.None? <==> s !in old(offsets) && |old(pool)| > U32_MAX
      ensures r.Some? ==> Abs() == Intern(old(Abs()), s) && r.value == OffsetOf(Abs(), s)
      ensures r.None? ==> Abs() == old(Abs())
    {
      if s in offsets { return Some(offsets[s]); }
      if |pool| > U32_MAX { return None; }
      r := Some(|pool|);
      pool := pool + s + [0];
      offsets := offsets[s := r.value];
    }

    /** Interns a list in order; on failure the pool has already outgrown 32 bits. */
    method InternTexts(texts: seq<bytes>) returns (r: Option<seq<nat>>)
      requires WellPooled(Abs())
      modifies this
      ensures r.Some? ==> Abs() == InternAll(old(Abs()), texts) && WellPooled(Abs())
      ensures r.Some? ==> |r.value| == |texts| && forall j :: 0 <= j < |texts| ==>
              r.value[j] == OffsetOf(Abs(), texts[j])
      ensures r.None? ==> |InternAll(old(Abs()), texts).data| > U32_MAX
    {
      hide InternAll, WellPooled, Intern;
      var given: seq<nat> := [];
      ghost var start := Abs();
      InternNone(start, texts);
      for j := 0 to |texts|
        invariant WellPooled(Abs()) && Abs() == InternAll(start, texts[..j])
        invariant |given| == j && forall k :: 0 <= k < j ==> texts[k] in offsets && given[k] == offsets[texts[k]]
      {
        InternKeeps(Abs(), texts[j]);
        InternPrefix(start, texts, j);
        var o := InternString(texts[j]);
        if o.None? { return None; }
        given := given + [o.value];
      }
      assert texts[..|texts|] == texts;
      r := Some(given);
    }

    /** The texts of one row, after those of the rows before it. */
    method InternRow(rows: seq<seq<UtfValue>>, i: nat, ghost start: Pool) returns (ok: bool)
      requires i < |rows| && WellPooled(start) && Abs() == InternAll(start, RowsTexts(rows[..i]))
      modifies this
      ensures ok ==> Abs() == InternAll(start, RowsTexts(rows[..i]) + RowTexts(rows[i]))
      ensures !ok ==> |InternAll(start, RowsTexts(rows)).data| > U32_MAX
    {
      hide InternAll, Intern, RowTexts, RowsTexts, WellPooled;
      ghost var before := RowsTexts(rows[..i]);
      var row := rows[i];
      NoTextsYet(before, row);
      for j := 0 to |row|
        invariant Abs() == InternAll(start, before + RowTexts(row[..j]))
      {
        ghost var part := before + RowTexts(row[..j]);
        TextsSnoc(before, row, j);
        if row[j].CellString? {
          TextsPrefix(rows, i, j);
          InternPart(start, part, RowsTexts(rows));
          InternOneMore(start, part, row[j].text);
          var o := InternString(row[j].text);
          if o.None? { return false; }
        }
      }
      assert row[..|row|] == row;
      ok := true;
    }

    /** Interns every string cell, row by row. */
    method InternRows(rows: seq<seq<UtfValue>>) returns (ok: bool)
      requires WellPooled(Abs())
      modifies this
      ensures ok ==> Abs() == InternAll(old(Abs()), RowsTexts(rows))
      ensures !ok ==> |InternAll(old(Abs()), RowsTexts(rows)).data| > U32_MAX
    {
      hide InternAll, WellPooled, Intern, RowTexts;
      ghost var start := Abs();
      InternNone(start, []);
      for i := 0 to |rows|
        invariant Abs() == InternAll(start, RowsTexts(rows[..i]))
      {
        RowsTextsPrefix(rows, i);
        var done := InternRow(rows, i, start);
        if !done { return false; }
      }
      assert rows[..|rows|] == rows;
      ok := true;
    }
  }

  lemma {:induction false} RowTextsSnoc(row: seq<UtfValue>, j: nat)
    requires j < |row|
    ensures RowTexts(row[..j + 1]) == RowTexts(row[..j]) + (if row[j].CellString? then [row[j].text] else [])
  {
    assert row[..j + 1][..j] == row[..j];
  }

  lemma {:induction false} RowTextsPrefix(row: seq<UtfValue>, j: nat)
    requires j <= |row|
    ensures RowTexts(row[..j]) <= RowTexts(row)
  {
    if j == |row| {
      assert row[..j] == row;
    } else {
      RowTextsPrefix(row[..|row| - 1], j);
      assert row[..|row| - 1][..j] == row[..j];
    }
  }

  lemma {:induction false} RowsTextsPrefix(rows: seq<seq<UtfValue>>, i: nat)
    requires i < |rows|
    ensures RowsTexts(rows[..i]) + RowTexts(rows[i]) <= RowsTexts(rows)
    ensures RowsTexts(rows[..i + 1]) == RowsTexts(rows[..i]) + RowTexts(rows[i])
  {
    assert rows[..i + 1][..i] == rows[..i];
    if i == |rows| - 1 {
      assert rows[..i + 1] == rows;
    } else {
      var k := |rows| - 1;
      RowsTextsPrefix(rows[..k], i);
      assert rows[..k][..i] == rows[..i];
    }
  }

  lemma {:induction false} NoTextsYet(before: seq<bytes>, row: seq<UtfValue>)
    ensures before + RowTexts(row[..0]) == before
  {
  }

  lemma {:induction false} TextsSnoc(before: seq<bytes>, row: seq<UtfValue>, j: nat)
    requires j < |row|
    ensures var part := before + RowTexts(row[..j]);
      before + RowTexts(row[..j + 1]) == if row[j].CellString? then part + [row[j].text] else part
  {
    RowTextsSnoc(row, j);
    hide RowTexts;
  }

  lemma {:induction false} TextsPrefix(rows: seq<seq<UtfValue>>, i: nat, j: nat)
    requires i < |rows| && j <= |rows[i]|
    ensures RowsTexts(rows[..i]) + RowTexts(rows[i][..j]) <= RowsTexts(rows)
  {
    RowsTextsPrefix(rows, i);
    RowTextsPrefix(rows[i], j);
    hide RowTexts, RowsTexts;
    var a, b, c := RowsTexts(rows[..i]), RowTexts(rows[i][..j]), RowTexts(rows[i]);
    assert a + b <= a + c;
  }

  /** Interning part of a list cannot make the pool longer than interning all of it. */
  lemma {:induction false} InternPart(start: Pool, part: seq<bytes>, texts: seq<bytes>)
    requires WellPooled(start) && part <= texts
    ensures WellPooled(InternAll(start, part)) && |InternAll(start, part).data| <= |InternAll(start, texts).data|
  {
    InternAllKeeps(start, part);
    assert texts == part + texts[|part|..];
    InternAllConcat(start, part, texts[|part|..]);
    InternAllKeeps(InternAll(start, part), texts[|part|..]);
  }

  lemma {:induction false} InternOneMore(start: Pool, part: seq<bytes>, s: bytes)
    ensures InternAll(start, part + [s]) == Intern(InternAll(start, part), s)
  {
    assert (part + [s])[..|part|] == part;
  }

  lemma {:induction false} InternNone(start: Pool, texts: seq<bytes>)
    ensures InternAll(start, texts[..0]) == start
  {
  }

  lemma {:induction false} InternPrefix(start: Pool, texts: seq<bytes>, j: nat)
    requires j < |texts| && WellPooled(InternAll(start, texts[..j]))
    ensures InternAll(start, texts[..j + 1]) == Intern(InternAll(start, texts[..j]), texts[j])
    ensures |InternAll(start, texts[..j]).data| <= |InternAll(start, texts).data|
  {
    assert texts[..j + 1][..j] == texts[..j];
    assert texts == texts[..j] + texts[j..];
    InternAllConcat(start, texts[..j], texts[j..]);
    InternAllKeeps(InternAll(start, texts[..j]), texts[j..]);
  }

  /** The shape check on rows. */
  method CheckRows(rows: seq<seq<UtfValue>>, columns: seq<UtfColumn>) returns (ok: bool)
    ensures ok <==> forall i :: 0 <= i < |rows| ==> Typed(rows[i], columns)
  {
    for i := 0 to |rows|
      invariant forall k :: 0 <= k < i ==> Typed(rows[k], columns)
    {
      if |rows[i]| != |columns| { return false; }
      for j := 0 to |columns|
        invariant forall k :: 0 <= k < j ==> TypeOf(rows[i][k]) == columns[k].valueType
      {
        if TypeOf(rows[i][j]) != columns[j].valueType {
          assert !Typed(rows[i], columns);
          return false;
        }
      }
    }
    return true;
  }

  lemma {:induction false} RowDataSnoc(row: seq<UtfValue>, j: nat)
    requires j < |row|
    ensures RowData(row[..j + 1]) == RowData(row[..j]) + CellPayload(row[j])
    ensures |RowData(row[..j + 1])| <= |RowData(row)|
  {
    var all := RowPayloads(row);
    ConcatSnoc(all, j);
    assert RowPayloads(row[..j + 1]) == all[..j + 1] && RowPayloads(row[..j]) == all[..j];
    ConcatPrefix(all, j + 1);
  }

  lemma {:induction false} RowsDataSnoc(rows: seq<seq<UtfValue>>, i: nat)
    requires i < |rows|
    ensures RowsData(rows[..i + 1]) == RowsData(rows[..i]) + RowData(rows[i])
    ensures |RowsData(rows[..i + 1])| <= |RowsData(rows)|
  {
    var all := RowsPayloads(rows);
    ConcatSnoc(all, i);
    assert RowsPayloads(rows[..i + 1]) == all[..i + 1] && RowsPayloads(rows[..i]) == all[..i];
    ConcatPrefix(all, i + 1);
  }

  lemma {:induction false} ConcatPrefix(chunks: seq<bytes>, j: nat)
    requires j <= |chunks|
    ensures |Concat(chunks[..j])| <= |Concat(chunks)|
  {
    if j == |chunks| {
      assert chunks[..j] == chunks;
    } else {
      var k := |chunks| - 1;
      ConcatPrefix(chunks[..k], j);
      assert chunks[..k][..j] == chunks[..j];
    }
  }

  ghost predicate Located(rows: seq<seq<UtfValue>>, locations: map<(nat, nat), (nat, nat)>, i: nat, j: nat)
    requires i < |rows| && j < |rows[i]|
  {
    rows[i][j].CellData? ==>
      (i, j) in locations && locations[(i, j)] == (|RowsData(rows[..i])| + |RowData(rows[i][..j])|, |rows[i][j].data|)
  }

  /** One row's data cells appended to the pool. */
  method GatherRow(rows: seq<seq<UtfValue>>, i: nat, pool: bytes, locations: map<(nat, nat), (nat, nat)>)
    returns (ok: bool, pool': bytes, locations': map<(nat, nat), (nat, nat)>)
    requires i < |rows| && pool == RowsData(rows[..i])
    requires forall a, b :: 0 <= a < i && 0 <= b < |rows[a]| ==> Located(rows, locations, a, b)
    ensures ok ==> pool' == RowsData(rows[..i + 1])
    ensures ok ==> forall a, b :: 0 <= a < i + 1 && 0 <= b < |rows[a]| ==> Located(rows, locations', a, b)
    ensures !ok ==> |RowsData(rows)| > U32_MAX
  {
    hide RowData, RowsData;
    RowDataEmpty(rows[i]);
    var row := rows[i];
    pool', locations' := pool, locations;
    RowsDataSnoc(rows, i);
    for j := 0 to |row|
      invariant pool' == pool + RowData(row[..j])
      invariant forall a, b :: 0 <= a < i && 0 <= b < |rows[a]| ==> Located(rows, locations', a, b)
      invariant forall b :: 0 <= b < j ==> Located(rows, locations', i, b)
    {
      RowDataSnoc(row, j);
      assert pool + (RowData(row[..j]) + CellPayload(row[j])) == pool' + CellPayload(row[j]);
      if row[j].CellData? {
        if |pool'| > U32_MAX || |row[j].data| > U32_MAX { return false, pool', locations'; }
        ghost var known := locations';
        locations' := locations'[(i, j) := (|pool'|, |row[j].data|)];
        forall a, b | 0 <= a <= i && 0 <= b < |rows[a]| && (a < i || b < j) ensures Located(rows, locations', a, b) {
          assert Located(rows, known, a, b);
        }
        pool' := pool' + row[j].data;
      }
    }
    assert row[..|row|] == row;
    ok := true;
  }

  lemma {:induction false} RowDataEmpty(row: seq<UtfValue>)
    ensures RowData(row[..0]) == [] && RowData(row[..|row|]) == RowData(row)
  {
    assert RowPayloads(row[..0]) == [];
    assert row[..|row|] == row;
  }

  /** The data pool and where each data cell's bytes lie in it. */
  method GatherData(rows: seq<seq<UtfValue>>)
    returns (ok: bool, pool: bytes, locations: map<(nat, nat), (nat, nat)>)
    ensures ok ==> pool == RowsData(rows)
    ensures ok ==> forall a, b :: 0 <= a < |rows| && 0 <= b < |rows[a]| ==> Located(rows, locations, a, b)
    ensures !ok ==> |RowsData(rows)| > U32_MAX
  {
    pool, locations := [], map[];
    assert RowsPayloads(rows[..0]) == [];
    for i := 0 to |rows|
      invariant pool == RowsData(rows[..i])
      invariant forall a, b :: 0 <= a < i && 0 <= b < |rows[a]| ==> Located(rows, locations, a, b)
    {
      ok, pool, locations := GatherRow(rows, i, pool, locations);
      if !ok { return; }
    }
    assert rows[..|rows|] == rows;
    ok := true;
  }

  /** The bytes of one row, each cell looked up in the interner and the location map. */
  method EmitRow(rows: seq<seq<UtfValue>>, i: nat, offsets: map<bytes, nat>, locations: map<(nat, nat), (nat,
        nat)>, ghost p: Pool)
    returns (out: bytes)
    requires i < |rows| && p.offsets == offsets
    requires forall j :: 0 <= j < |rows[i]| && rows[i][j].CellString? ==> rows[i][j].text in offsets
    requires forall j :: 0 <= j < |rows[i]| ==> Located(rows, locations, i, j)
    ensures out == RowBytes(rows[i], p, |RowsData(rows[..i])|)
  {
    hide CellBytes, RowsData, RowData, Be;
    var row := rows[i];
    ghost var at := |RowsData(rows[..i])|;
    ghost var cells := RowCells(row, p, at);
    out := [];
    assert cells[..0] == [];
    for j := 0 to |row|
      invariant out == Concat(cells[..j])
    {
      assert Located(rows, locations, i, j);
      assert cells[j] == CellBytes(row[j], p, at + |RowData(row[..j])|);
      ConcatSnoc(cells, j);
      var cell: bytes;
      match row[j] {
        case CellU16(n) => cell := Be(n, 2);
        case CellU32(n) => cell := Be(n, 4);
        case CellU64(n) => cell := Be(n, 8);
        case CellString(s) => cell := Be(offsets[s], 4);
        case CellData(_) => cell := Be(locations[(i, j)].0, 4) + Be(locations[(i, j)].1, 4);
      }
      CellIs(row[j], p, at + |RowData(row[..j])|, cell);
      out := out + cell;
    }
    assert cells[..|row|] == cells;
  }

  lemma {:induction false} CellIs(v: UtfValue, p: Pool, at: nat, cell: bytes)
    requires v.CellU16? ==> cell == Be(v.u16, 2)
    requires v.CellU32? ==> cell == Be(v.u32, 4)
    requires v.CellU64? ==> cell == Be(v.u64, 8)
    requires v.CellString? ==> v.text in p.offsets && cell == Be(p.offsets[v.text], 4)
    requires v.CellData? ==> cell == Be(at, 4) + Be(|v.data|, 4)
    ensures cell == CellBytes(v, p, at)
  {
    hide Be;
  }

  method EmitRows(rows: seq<seq<UtfValue>>, offsets: map<bytes, nat>, locations: map<(nat, nat), (nat, nat)>,
        ghost p: Pool)
    returns (out: bytes)
    requires p.offsets == offsets
    requires forall i, j :: 0 <= i < |rows| && 0 <= j < |rows[i]| && rows[i][j].CellString? ==>
            rows[i][j].text in offsets
    requires forall i, j :: 0 <= i < |rows| && 0 <= j < |rows[i]| ==> Located(rows, locations, i, j)
    ensures out == RowsBytes(rows, p)
  {
    hide RowBytes;
    ghost var all := RowsRows(rows, p);
    out := [];
    assert all[..0] == [];
    for i := 0 to |rows|
      invariant out == Concat(all[..i])
    {
      ConcatSnoc(all, i);
      var row := EmitRow(rows, i, offsets, locations, p);
      out := out + row;
    }
    assert all[..|rows|] == all;
  }

  /** The column records, from the offsets interning returned. */
  method EmitSchema(columns: seq<UtfColumn>, nameOffsets: seq<nat>, ghost p: Pool) returns (out: bytes)
    requires |nameOffsets| == |columns|
    requires forall j :: 0 <= j < |columns| ==> nameOffsets[j] == OffsetOf(p, columns[j].name)
    ensures out == SchemaBytes(columns, p)
  {
    hide Be;
    ghost var all := ColumnRecords(columns, p);
    out := [];
    assert all[..0] == [];
    for j := 0 to |columns|
      invariant out == Concat(all[..j])
    {
      ConcatSnoc(all, j);
      out := out + ([FlagByte(columns[j].valueType)] + Be(nameOffsets[j], 4));
    }
    assert all[..|columns|] == all;
  }

  method RowWidth(columns: seq<UtfColumn>) returns (w: nat)
    ensures w == Width(columns)
  {
    w := 0;
    for j := 0 to |columns|
      invariant w == Width(columns[..j])
    {
      assert columns[..j + 1][..j] == columns[..j];
      w := w + TypeSize(columns[j].valueType);
    }
    assert columns[..|columns|] == columns;
  }

  lemma {:induction false} PoolGrows(t: Table, part: seq<bytes>)
    requires part <= Texts(t) && |InternAll(FIRST_POOL, part).data| > U32_MAX
    ensures !Accepts(t)
  {
    FirstPoolWell();
    InternPart(FIRST_POOL, part, Texts(t));
  }

  lemma {:induction false} PoolInStages(t: Table)
    ensures var p1 := InternAll(FIRST_POOL, [t.name]);
      var p2 := InternAll(p1, ColumnNames(t.columns));
      && InternAll(FIRST_POOL, [t.name] + ColumnNames(t.columns)) == p2
      && PoolOf(t) == InternAll(p2, RowsTexts(t.rows)) == InternAll(FIRST_POOL, Texts(t))
  {
    InternAllConcat(FIRST_POOL, [t.name], ColumnNames(t.columns));
    InternAllConcat(FIRST_POOL, [t.name] + ColumnNames(t.columns), RowsTexts(t.rows));
  }

  /** Later interning keeps the offsets already given out. */
  lemma {:induction false} OffsetsKept(p: Pool, texts: seq<bytes>, more: seq<bytes>)
    requires WellPooled(p)
    ensures WellPooled(InternAll(p, texts))
    ensures forall s :: s in texts ==>
              OffsetOf(InternAll(InternAll(p, texts), more), s) == OffsetOf(InternAll(p, texts), s)
  {
    hide InternAll, WellPooled;
    InternAllKeeps(p, texts);
    InternAllKeeps(InternAll(p, texts), more);
  }

  /** The three interning passes over a table. */
  method InternTable(t: Table) returns (r: Option<(nat, seq<nat>, Interner)>)
    ensures r.Some? ==> var (nameOffset, columnOffsets, interner) := r.value;
      && fresh(interner) && interner.Abs() == PoolOf(t) && nameOffset == OffsetOf(PoolOf(t), t.name)
      && |columnOffsets| == |t.columns|
      && forall j :: 0 <= j < |t.columns| ==> columnOffsets[j] == OffsetOf(PoolOf(t), t.columns[j].name)
    ensures r.None? ==> !Accepts(t)
  {
    hide InternAll, WellPooled, Accepts, PoolOf, OffsetOf;
    ghost var names := ColumnNames(t.columns);
    FirstPoolWell();
    PoolInStages(t);
    var interner := new Interner();
    var own := interner.InternTexts([t.name]);
    if own.None? { PoolGrows(t, [t.name]); return None; }
    OffsetsKept(FIRST_POOL, [t.name], names);
    ghost var p1 := interner.Abs();
    var columnOffsets := interner.InternTexts(ColumnNames(t.columns));
    if columnOffsets.None? { PoolGrows(t, [t.name] + names); return None; }
    OffsetsKept(p1, names, RowsTexts(t.rows));
    InternAllConcat(p1, names, RowsTexts(t.rows));
    OffsetsKept(FIRST_POOL, [t.name], names + RowsTexts(t.rows));
    var ok := interner.InternRows(t.rows);
    if !ok { PoolGrows(t, Texts(t)); return None; }
    assert forall j :: 0 <= j < |names| ==> names[j] in names;
    assert t.name in [t.name];
    r := Some((own.value[0], columnOffsets.value, interner));
  }

  /** The sections put together. */
  method EmitTable(t: Table, nameOffset: nat, columnOffsets: seq<nat>, interner: Interner, dataPool: bytes,
                   locations: map<(nat, nat), (nat, nat)>, width: nat)
    returns (output: bytes)
    requires interner.Abs() == PoolOf(t) && nameOffset == OffsetOf(PoolOf(t), t.name)
    requires |columnOffsets| == |t.columns|
    requires forall j :: 0 <= j < |t.columns| ==> columnOffsets[j] == OffsetOf(PoolOf(t), t.columns[j].name)
    requires dataPool == RowsData(t.rows) && width == Width(t.columns)
    requires forall a, b :: 0 <= a < |t.rows| && 0 <= b < |t.rows[a]| ==> Located(t.rows, locations, a, b)
    ensures output == TableBytes(t)
  {
    hide InternAll, PoolOf, RowsData, RowsBytes, SchemaBytes, Width, WellPooled, Be, Located, Times;
    PoolCovers(t);
    var rowsStart := HEADER_SIZE + 5 * |t.columns|;
    var stringStart := rowsStart + Times(width, |t.rows|);
    var dataStart := stringStart + |interner.pool|;
    var totalSize := dataStart + |dataPool|;
    output := MAGIC + Be(totalSize - 8, 4) + [0, 1]
      + Be(rowsStart - 8, 2) + Be(stringStart - 8, 4) + Be(dataStart - 8, 4)
      + Be(nameOffset, 4) + Be(|t.columns|, 2) + Be(width, 2) + Be(|t.rows|, 4);
    assert output == HeaderBytes(t);
    var schema := EmitSchema(t.columns, columnOffsets, PoolOf(t));
    var rows := EmitRows(t.rows, interner.offsets, locations, PoolOf(t));
    output := output + schema + rows + interner.pool + dataPool;
  }

  /** The builder computes exactly the table's bytes, and fails exactly on the tables whose counts
      or sizes do not fit their fields. */
  method BuildTable(t: Table) returns (r: Option<bytes>)
    ensures r == Build(t)
  {
    hide InternAll, PoolOf, RowsData, Typed, TableBytes, Located, OffsetOf, Times;
    if |t.columns| > U16_MAX || |t.rows| > U32_MAX { return None; }
    var width := RowWidth(t.columns);
    if width > U16_MAX { return None; }
    var ok := CheckRows(t.rows, t.columns);
    if !ok { return None; }
    var interned := InternTable(t);
    if interned.None? { return None; }
    var (nameOffset, columnOffsets, interner) := interned.value;
    var dataPool, locations;
    ok, dataPool, locations := GatherData(t.rows);
    if !ok { return None; }
    var rowsStart := HEADER_SIZE + 5 * |t.columns|;
    var stringStart := rowsStart + Times(width, |t.rows|);
    var dataStart := stringStart + |interner.pool|;
    var totalSize := dataStart + |dataPool|;
    if totalSize - 8 > U32_MAX || rowsStart - 8 > U16_MAX || stringStart - 8 > U32_MAX || dataStart - 8 > U32_MAX {
      return None;
    }
    var output := EmitTable(t, nameOffset, columnOffsets, interner, dataPool, locations, width);
    r := Some(output);
  }
}
