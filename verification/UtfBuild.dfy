/** The `@UTF` table the writer serialises: what its bytes are. */
module UtfBuild {
  import opened BitOps
  import opened Bytes
  import opened Wrappers

  datatype UtfType = TypeU16 | TypeU32 | TypeU64 | TypeString | TypeData

  function TypeSize(t: UtfType): (n: nat)
    ensures 2 <= n <= 8
  {
    match t
    case TypeU16 => 2
    case TypeU32 => 4
    case TypeString => 4
    case TypeU64 => 8
    case TypeData => 8
  }

  /** 0x50 (named, stored per row) with the type number in the low nibble. */
  function FlagByte(t: UtfType): byte {
    match t
    case TypeU16 => 0x52
    case TypeU32 => 0x54
    case TypeU64 => 0x56
    case TypeString => 0x5a
    case TypeData => 0x5b
  }

  datatype UtfColumn = UtfColumn(name: bytes, valueType: UtfType)

  datatype UtfValue =
    | CellU16(u16: u16) | CellU32(u32: u32) | CellU64(u64: u64) | CellString(text: bytes) | CellData(data: bytes)

  function TypeOf(v: UtfValue): UtfType {
    match v
    case CellU16(_) => TypeU16
    case CellU32(_) => TypeU32
    case CellU64(_) => TypeU64
    case CellString(_) => TypeString
    case CellData(_) => TypeData
  }

  datatype Table = Table(name: bytes, columns: seq<UtfColumn>, rows: seq<seq<UtfValue>>)

  predicate Typed(row: seq<UtfValue>, columns: seq<UtfColumn>) {
    |row| == |columns| && forall j :: 0 <= j < |row| ==> TypeOf(row[j]) == columns[j].valueType
  }

  // ----- the string pool -----

  datatype Pool = Pool(data: bytes, offsets: map<bytes, nat>)

  /** Offset zero is the null string, which doubles as the empty one. */
  const FIRST_POOL := Pool([0], map[[] := 0])

  function Intern(p: Pool, s: bytes): Pool {
    if s in p.offsets then p else Pool(p.data + s + [0], p.offsets[s := |p.data|])
  }

  function InternAll(p: Pool, texts: seq<bytes>): Pool {
    if texts == [] then p else Intern(InternAll(p, texts[..|texts| - 1]), texts[|texts| - 1])
  }

  function RowTexts(row: seq<UtfValue>): seq<bytes> {
    if row == [] then []
    else RowTexts(row[..|row| - 1]) + (if row[|row| - 1].CellString? then [row[|row| - 1].text] else [])
  }

  function RowsTexts(rows: seq<seq<UtfValue>>): seq<bytes> {
    if rows == [] then [] else RowsTexts(rows[..|rows| - 1]) + RowTexts(rows[|rows| - 1])
  }

  function ColumnNames(columns: seq<UtfColumn>): (names: seq<bytes>)
    ensures |names| == |columns|
  {
    seq(|columns|, j requires 0 <= j < |columns| => columns[j].name)
  }

  /** Table name, column names, then every string cell in row order. */
  function Texts(t: Table): seq<bytes> {
    [t.name] + ColumnNames(t.columns) + RowsTexts(t.rows)
  }

  function PoolOf(t: Table): Pool {
    InternAll(FIRST_POOL, Texts(t))
  }

  // ----- rows and the data pool -----

  /** What a cell adds to the data pool. */
  function CellPayload(v: UtfValue): bytes {
    if v.CellData? then v.data else []
  }

  function RowPayloads(row: seq<UtfValue>): (r: seq<bytes>)
    ensures |r| == |row|
  {
    seq(|row|, j requires 0 <= j < |row| => CellPayload(row[j]))
  }

  function RowData(row: seq<UtfValue>): bytes {
    Concat(RowPayloads(row))
  }

  function RowsPayloads(rows: seq<seq<UtfValue>>): (r: seq<bytes>)
    ensures |r| == |rows|
  {
    seq(|rows|, i requires 0 <= i < |rows| => RowData(rows[i]))
  }

  function RowsData(rows: seq<seq<UtfValue>>): bytes {
    Concat(RowsPayloads(rows))
  }

  function OffsetOf(p: Pool, s: bytes): nat {
    if s in p.offsets then p.offsets[s] else 0
  }

  /** One cell; `at` is where its data starts in the data pool, if it is data. */
  function CellBytes(v: UtfValue, p: Pool, at: nat): (b: bytes)
    ensures |b| == TypeSize(TypeOf(v))
  {
    match v
    case CellU16(n) => Be(n, 2)
    case CellU32(n) => Be(n, 4)
    case CellU64(n) => Be(n, 8)
    case CellString(s) => Be(OffsetOf(p, s), 4)
    case CellData(d) => Be(at, 4) + Be(|d|, 4)
  }

  /** The cells of a row; each data cell points past the data of the cells before it. */
  function RowCells(row: seq<UtfValue>, p: Pool, at: nat): (r: seq<bytes>)
    ensures |r| == |row|
  {
    seq(|row|, j requires 0 <= j < |row| => CellBytes(row[j], p, at + |RowData(row[..j])|))
  }

  function RowBytes(row: seq<UtfValue>, p: Pool, at: nat): bytes {
    Concat(RowCells(row, p, at))
  }

  function RowsRows(rows: seq<seq<UtfValue>>, p: Pool): (r: seq<bytes>)
    ensures |r| == |rows|
  {
    seq(|rows|, i requires 0 <= i < |rows| => RowBytes(rows[i], p, |RowsData(rows[..i])|))
  }

  function RowsBytes(rows: seq<seq<UtfValue>>, p: Pool): bytes {
    Concat(RowsRows(rows, p))
  }

  // ----- the file -----

  function Width(columns: seq<UtfColumn>): nat {
    if columns == [] then 0 else Width(columns[..|columns| - 1]) + TypeSize(columns[|columns| - 1].valueType)
  }

  function ColumnRecord(c: UtfColumn, p: Pool): (b: bytes)
    ensures |b| == 5
  {
    [FlagByte(c.valueType)] + Be(OffsetOf(p, c.name), 4)
  }

  function ColumnRecords(columns: seq<UtfColumn>, p: Pool): (r: seq<bytes>)
    ensures |r| == |columns|
  {
    seq(|columns|, j requires 0 <= j < |columns| => ColumnRecord(columns[j], p))
  }

  function SchemaBytes(columns: seq<UtfColumn>, p: Pool): bytes {
    Concat(ColumnRecords(columns, p))
  }

  const HEADER_SIZE := 0x20

  function RowsStart(t: Table): nat { HEADER_SIZE + 5 * |t.columns| }
  function StringStart(t: Table): nat { RowsStart(t) + Times(Width(t.columns), |t.rows|) }
  function DataStart(t: Table): nat { StringStart(t) + |PoolOf(t).data| }
  function TotalSize(t: Table): nat { DataStart(t) + |RowsData(t.rows)| }

  const MAGIC: bytes := [0x40, 0x55, 0x54, 0x46]  // "@UTF"

  function HeaderBytes(t: Table): (b: bytes)
    ensures |b| == HEADER_SIZE
  {
    MAGIC + Be(TotalSize(t) - 8, 4) + [0, 1]
    + Be(RowsStart(t) - 8, 2) + Be(StringStart(t) - 8, 4) + Be(DataStart(t) - 8, 4)
    + Be(OffsetOf(PoolOf(t), t.name), 4)
    + Be(|t.columns|, 2) + Be(Width(t.columns), 2) + Be(|t.rows|, 4)
  }

  function TableBytes(t: Table): bytes {
    var p := PoolOf(t);
    HeaderBytes(t) + SchemaBytes(t.columns, p) + RowsBytes(t.rows, p) + p.data + RowsData(t.rows)
  }

  /** The tables the builder accepts; every refusal is the same arithmetic error. */
  predicate Accepts(t: Table) {
    && |t.columns| <= U16_MAX && |t.rows| <= U32_MAX && Width(t.columns) <= U16_MAX
    && (forall i :: 0 <= i < |t.rows| ==> Typed(t.rows[i], t.columns))
    && TotalSize(t) - 8 <= U32_MAX && RowsStart(t) - 8 <= U16_MAX
  }

  function Build(t: Table): Option<bytes> {
    if Accepts(t) then Some(TableBytes(t)) else None
  }

  // ----- interning -----

  /** A position where a pool string begins: the pool's start or just after a NUL. */
  predicate IsStart(data: bytes, o: nat) {
    o < |data| && (o == 0 || data[o - 1] == 0)
  }

  ghost predicate Holds(data: bytes, s: bytes, o: nat) {
    && IsStart(data, o) && o + |s| < |data|
    && data[o..o + |s|] == s && data[o + |s|] == 0
  }

  /** Every interned string sits NUL-terminated at its offset, offset zero is the empty string
      alone, and the pool ends with a NUL. */
  ghost predicate WellPooled(p: Pool) {
    && |p.data| > 0 && p.data[|p.data| - 1] == 0
    && [] in p.offsets
    && (forall s :: s in p.offsets ==> Holds(p.data, s, p.offsets[s]))
    && (forall s :: s in p.offsets ==> (p.offsets[s] == 0 <==> s == []))
  }

  lemma {:induction false} HoldsKept(data: bytes, more: bytes, s: bytes, o: nat)
    requires Holds(data, s, o)
    ensures Holds(data + more, s, o)
  {
    assert (data + more)[o..o + |s|] == data[o..o + |s|];
  }

  lemma {:induction false} HoldsNew(data: bytes, s: bytes)
    requires |data| > 0 && data[|data| - 1] == 0
    ensures Holds(data + s + [0], s, |data|)
  {
    var all := data + s + [0];
    assert all[|data|..|data| + |s|] == s;
  }

  lemma {:induction false} InternKeeps(p: Pool, s: bytes)
    requires WellPooled(p)
    ensures WellPooled(Intern(p, s)) && s in Intern(p, s).offsets
    ensures p.data <= Intern(p, s).data
    ensures forall x :: x in p.offsets ==> x in Intern(p, s).offsets && Intern(p, s).offsets[x] == p.offsets[x]
  {
    hide Holds;
    if s !in p.offsets {
      var q := Intern(p, s);
      assert q.data == p.data + (s + [0]);
      HoldsNew(p.data, s);
      forall x | x in q.offsets ensures Holds(q.data, x, q.offsets[x]) {
        if x != s {
          HoldsKept(p.data, s + [0], x, p.offsets[x]);
        }
      }
    }
  }

  lemma {:induction false} InternAllKeeps(p: Pool, texts: seq<bytes>)
    requires WellPooled(p)
    ensures WellPooled(InternAll(p, texts))
    ensures forall s :: s in p.offsets || s in texts ==> s in InternAll(p, texts).offsets
    ensures p.data <= InternAll(p, texts).data
    ensures forall x :: x in p.offsets ==> InternAll(p, texts).offsets[x] == p.offsets[x]
  {
    if texts != [] {
      var front, last := texts[..|texts| - 1], texts[|texts| - 1];
      InternAllKeeps(p, front);
      InternKeeps(InternAll(p, front), last);
      assert forall s :: s in texts <==> s in front || s == last;
    }
  }

  lemma {:induction false} InternAllConcat(p: Pool, a: seq<bytes>, b: seq<bytes>)
    ensures InternAll(p, a + b) == InternAll(InternAll(p, a), b)
  {
    if b == [] {
      assert a + b == a;
    } else {
      assert (a + b)[..|a + b| - 1] == a + b[..|b| - 1];
      InternAllConcat(p, a, b[..|b| - 1]);
    }
  }

  lemma {:induction false} FirstPoolWell()
    ensures WellPooled(FIRST_POOL)
  {
    assert FIRST_POOL.data[0..0] == [];
  }

  lemma {:induction false} TextInRow(row: seq<UtfValue>, j: nat)
    requires j < |row| && row[j].CellString?
    ensures row[j].text in RowTexts(row)
  {
    if j < |row| - 1 {
      TextInRow(row[..|row| - 1], j);
    }
  }

  lemma {:induction false} TextInRows(rows: seq<seq<UtfValue>>, i: nat, j: nat)
    requires i < |rows| && j < |rows[i]| && rows[i][j].CellString?
    ensures rows[i][j].text in RowsTexts(rows)
  {
    if i < |rows| - 1 {
      TextInRows(rows[..|rows| - 1], i, j);
    } else {
      TextInRow(rows[i], j);
    }
  }

  /** Everything the table mentions is interned. */
  lemma {:induction false} PoolCovers(t: Table)
    ensures WellPooled(PoolOf(t))
    ensures t.name in PoolOf(t).offsets
    ensures forall j :: 0 <= j < |t.columns| ==> t.columns[j].name in PoolOf(t).offsets
    ensures forall i, j :: 0 <= i < |t.rows| && 0 <= j < |t.rows[i]| && t.rows[i][j].CellString? ==>
            t.rows[i][j].text in PoolOf(t).offsets
  {
    FirstPoolWell();
    hide WellPooled, InternAll, RowsTexts;
    InternAllKeeps(FIRST_POOL, Texts(t));
    var texts := Texts(t);
    assert texts[0] == t.name;
    forall j | 0 <= j < |t.columns| ensures t.columns[j].name in texts {
      assert texts[1 + j] == ColumnNames(t.columns)[j];
    }
    forall i, j | 0 <= i < |t.rows| && 0 <= j < |t.rows[i]| && t.rows[i][j].CellString?
      ensures t.rows[i][j].text in texts
    {
      TextInRows(t.rows, i, j);
    }
  }

  // ----- where cells and data lie -----

  lemma {:induction false} CellsWidth(row: seq<UtfValue>, columns: seq<UtfColumn>, p: Pool, at: nat, j: nat)
    requires Typed(row, columns) && j <= |row|
    ensures |Concat(RowCells(row, p, at)[..j])| == Width(columns[..j])
  {
    if j > 0 {
      var cells := RowCells(row, p, at);
      assert |cells[j - 1]| == TypeSize(columns[j - 1].valueType);
      assert columns[..j][..j - 1] == columns[..j - 1];
      assert Width(columns[..j]) == Width(columns[..j - 1]) + TypeSize(columns[j - 1].valueType);
      CellsWidth(row, columns, p, at, j - 1);
      hide Concat, RowCells, Width;
      ConcatSnoc(cells, j - 1);
    }
  }

  /** Cell j of a row starts at the width of the columns before it. */
  lemma {:induction false} CellInRow(row: seq<UtfValue>, columns: seq<UtfColumn>, p: Pool, at: nat, j: nat)
    requires Typed(row, columns) && j < |row|
    ensures At(RowBytes(row, p, at), Width(columns[..j]), CellBytes(row[j], p, at + |RowData(row[..j])|))
  {
    CellsWidth(row, columns, p, at, j);
    var cells := RowCells(row, p, at);
    var cell := CellBytes(row[j], p, at + |RowData(row[..j])|);
    assert cells[j] == cell;
    ChunkAt(cells, j);
    assert At(Concat(cells), Width(columns[..j]), cell);
  }

  lemma {:induction false} RowBytesLength(row: seq<UtfValue>, columns: seq<UtfColumn>, p: Pool, at: nat)
    requires Typed(row, columns)
    ensures |RowBytes(row, p, at)| == Width(columns)
  {
    CellsWidth(row, columns, p, at, |row|);
    assert columns[..|row|] == columns && RowCells(row, p, at)[..|row|] == RowCells(row, p, at);
  }

  lemma {:induction false} RowsBytesLength(rows: seq<seq<UtfValue>>, columns: seq<UtfColumn>, p: Pool)
    requires forall i :: 0 <= i < |rows| ==> Typed(rows[i], columns)
    ensures |RowsBytes(rows, p)| == Times(Width(columns), |rows|)
    ensures forall i :: 0 <= i < |rows| ==> |RowsRows(rows, p)[i]| == Width(columns)
  {
    forall i | 0 <= i < |rows| ensures |RowsRows(rows, p)[i]| == Width(columns) {
      RowBytesLength(rows[i], columns, p, |RowsData(rows[..i])|);
    }
    ConcatWidth(RowsRows(rows, p), Width(columns));
  }

  /** Row i starts at i times the row width, and its data after that of the rows before it. */
  lemma {:induction false} RowInRows(rows: seq<seq<UtfValue>>, columns: seq<UtfColumn>, p: Pool, i: nat)
    requires forall k :: 0 <= k < |rows| ==> Typed(rows[k], columns)
    requires i < |rows|
    ensures At(RowsBytes(rows, p), Times(Width(columns), i), RowBytes(rows[i], p, |RowsData(rows[..i])|))
  {
    RowsBytesLength(rows, columns, p);
    ConcatWidth(RowsRows(rows, p)[..i], Width(columns));
    ChunkAt(RowsRows(rows, p), i);
  }

  lemma {:induction false} DataInRow(row: seq<UtfValue>, j: nat)
    requires j < |row|
    ensures At(RowData(row), |RowData(row[..j])|, CellPayload(row[j]))
  {
    ChunkAt(RowPayloads(row), j);
    assert RowPayloads(row)[..j] == RowPayloads(row[..j]);
  }

  lemma {:induction false} DataInRows(rows: seq<seq<UtfValue>>, i: nat)
    requires i < |rows|
    ensures At(RowsData(rows), |RowsData(rows[..i])|, RowData(rows[i]))
  {
    ChunkAt(RowsPayloads(rows), i);
    assert RowsPayloads(rows)[..i] == RowsPayloads(rows[..i]);
  }

  lemma {:induction false} WidthOfPrefix(columns: seq<UtfColumn>, j: nat)
    requires j < |columns|
    ensures Width(columns[..j]) + TypeSize(columns[j].valueType) <= Width(columns)
  {
    var k := |columns| - 1;
    if j < k {
      WidthOfPrefix(columns[..k], j);
      assert columns[..k][..j] == columns[..j];
    }
  }

  lemma {:induction false} SchemaLength(columns: seq<UtfColumn>, p: Pool)
    ensures |SchemaBytes(columns, p)| == 5 * |columns|
  {
    ConcatWidth(ColumnRecords(columns, p), 5);
    TimesIsProduct(5, |columns|);
  }

  /** Column record j. */
  lemma {:induction false} ColumnInSchema(columns: seq<UtfColumn>, p: Pool, j: nat)
    requires j < |columns|
    ensures At(SchemaBytes(columns, p), 5 * j, ColumnRecord(columns[j], p))
  {
    ChunkAt(ColumnRecords(columns, p), j);
    ConcatWidth(ColumnRecords(columns, p)[..j], 5);
    TimesIsProduct(5, j);
  }

  lemma {:induction false} TableLength(t: Table)
    requires Accepts(t)
    ensures |TableBytes(t)| == TotalSize(t)
  {
    RowsBytesLength(t.rows, t.columns, PoolOf(t));
    SchemaLength(t.columns, PoolOf(t));
  }
}
