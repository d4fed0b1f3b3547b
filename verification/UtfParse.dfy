/** The `@UTF` table as `HighTable::new` reads it, and the lookups on it. */
module UtfParse {
  import opened BitOps
  import opened Bytes
  import opened Wrappers

  // ----- header -----

  const HEADER_SIZE := 0x20
  const HEADER_OFFSET := 8

  datatype Header = Header(
    size: u32, rowsOffset: nat, stringPoolOffset: u32, dataPoolOffset: u32,
    columnCount: u16, rowSize: u16, rowCount: u32)

  function SaturatingAdd32(a: u32, b: nat): (r: u32) {
    if a + b > U32_MAX then U32_MAX else a + b
  }

  function U16At(buf: bytes, o: nat): (v: u16)
    requires o + 2 <= |buf|
  {
    FromBeBound(buf[o..o + 2]);
    WordSizes();
    FromBe(buf[o..o + 2])
  }

  function U32At(buf: bytes, o: nat): (v: u32)
    requires o + 4 <= |buf|
  {
    FromBeBound(buf[o..o + 4]);
    WordSizes();
    FromBe(buf[o..o + 4])
  }

  function U64At(buf: bytes, o: nat): (v: u64)
    requires o + 8 <= |buf|
  {
    FromBeBound(buf[o..o + 8]);
    WordSizes();
    FromBe(buf[o..o + 8])
  }

  function HeaderOf(buf: bytes): Header
    requires |buf| >= HEADER_SIZE
  {
    Header(U32At(buf, 0x4), U16At(buf, 0xa) + HEADER_OFFSET,
           SaturatingAdd32(U32At(buf, 0xc), HEADER_OFFSET), SaturatingAdd32(U32At(buf, 0x10), HEADER_OFFSET),
           U16At(buf, 0x18), U16At(buf, 0x1a), U32At(buf, 0x1c))
  }

  // ----- cells -----

  datatype ColumnType =
    | Byte | SByte | UInt16 | Int16 | UInt32 | Int32 | UInt64 | Int64
    | Single | Double | String | Data | Guid | Invalid

  function TypeSize(t: ColumnType): (n: nat)
    ensures n <= 16 && (n == 0 <==> t.Invalid?)
  {
    match t
    case Byte => 1 case SByte => 1
    case UInt16 => 2 case Int16 => 2
    case UInt32 => 4 case Int32 => 4 case Single => 4 case String => 4
    case UInt64 => 8 case Int64 => 8 case Double => 8 case Data => 8
    case Guid => 16
    case Invalid => 0
  }

  function TypeOf(flag: byte): ColumnType {
    match flag % 16
    case 0 => Byte case 1 => SByte
    case 2 => UInt16 case 3 => Int16
    case 4 => UInt32 case 5 => Int32
    case 6 => UInt64 case 7 => Int64
    case 8 => Single case 9 => Double
    case 10 => String case 11 => Data
    case 12 => Guid
    case _ => Invalid
  }

  predicate HasName(flag: byte) { flag / 0x10 % 2 == 1 }
  predicate HasDefault(flag: byte) { flag / 0x20 % 2 == 1 }
  predicate HasRowStorage(flag: byte) { flag / 0x40 % 2 == 1 }

  /** Floating-point cells are kept as their bit patterns. */
  datatype RowValue =
    | NoValue
    | ByteValue(u8: byte) | SByteValue(i8: int)
    | UInt16Value(u16: u16) | Int16Value(i16: int)
    | UInt32Value(u32: u32) | Int32Value(i32: int)
    | UInt64Value(u64: u64) | Int64Value(i64: int)
    | SingleValue(f32: u32) | DoubleValue(f64: u64)
    | StringValue(offset: u32)
    | DataValue(start: u32, length: u32)
    | GuidValue(g0: u32, g1: u32, g2: u32, g3: u32)

  /** Two's complement. */
  function Signed(v: nat, half: nat): int {
    if v < half then v else v - 2 * half
  }

  function ValueOf(t: ColumnType, field: bytes): RowValue
    requires |field| == TypeSize(t)
  {
    match t
    case Byte => ByteValue(field[0])
    case SByte => SByteValue(Signed(field[0], 0x80))
    case UInt16 => UInt16Value(U16At(field, 0))
    case Int16 => Int16Value(Signed(U16At(field, 0), 0x8000))
    case UInt32 => UInt32Value(U32At(field, 0))
    case Int32 => Int32Value(Signed(U32At(field, 0), 0x8000_0000))
    case UInt64 => UInt64Value(U64At(field, 0))
    case Int64 => Int64Value(Signed(U64At(field, 0), 0x8000_0000_0000_0000))
    case Single => SingleValue(U32At(field, 0))
    case Double => DoubleValue(U64At(field, 0))
    case String => StringValue(U32At(field, 0))
    case Data => DataValue(U32At(field, 0), U32At(field, 4))
    case Guid => GuidValue(U32At(field, 0), U32At(field, 4), U32At(field, 8), U32At(field, 12))
    case Invalid => NoValue
  }

  // ----- columns -----

  datatype Column = Column(flag: byte, nameOffset: u32, default: Option<RowValue>)

  /** One column record and the position after it; a short buffer or an unsupported default is
      an error. */
  function ReadColumn(buf: bytes, pos: nat): (r: Option<(Column, nat)>)
    ensures r.Some? ==> pos < r.value.1 <= |buf|
  {
    if pos >= |buf| then None
    else
      var flag := buf[pos];
      var afterName := if HasName(flag) then pos + 5 else pos + 1;
      if afterName > |buf| then None
      else
        var nameOffset := if HasName(flag) then U32At(buf, pos + 1) else U32_MAX;
        var size := TypeSize(TypeOf(flag));
        if !HasDefault(flag) then Some((Column(flag, nameOffset, None), afterName))
        else if size == 0 || afterName + size > |buf| then None
        else Some((Column(flag, nameOffset, Some(ValueOf(TypeOf(flag), buf[afterName..afterName + size]))),
            afterName + size))
  }

  function ReadColumns(buf: bytes, n: nat): (r: Option<(seq<Column>, nat)>)
    ensures r.Some? ==> |r.value.0| == n && HEADER_SIZE <= r.value.1
  {
    if n == 0 then Some(([], HEADER_SIZE))
    else
      var front :- ReadColumns(buf, n - 1);
      var last :- ReadColumn(buf, front.1);
      Some((front.0 + [last.0], last.1))
  }

  // ----- rows -----

  /** Bytes the first columns take up in a row. */
  function Width(columns: seq<Column>): nat {
    if columns == [] then 0
    else
      var last := columns[|columns| - 1].flag;
      Width(columns[..|columns| - 1]) + (if HasRowStorage(last) then TypeSize(TypeOf(last)) else 0)
  }

  function CellPosition(h: Header, columns: seq<Column>, i: nat, j: nat): nat
    requires j < |columns|
  {
    h.rowsOffset + Times(h.rowSize, i) + Width(columns[..j])
  }

  /** Cell (i, j): the big-endian field at its place in row i, or nothing for a column that is
      not stored per row. */
  function CellAt(buf: bytes, h: Header, columns: seq<Column>, i: nat, j: nat): RowValue
    requires j < |columns|
  {
    var flag := columns[j].flag;
    var pos, size := CellPosition(h, columns, i, j), TypeSize(TypeOf(flag));
    if HasRowStorage(flag) && pos + size <= |buf| then ValueOf(TypeOf(flag), buf[pos..pos + size]) else NoValue
  }

  function RowAt(buf: bytes, h: Header, columns: seq<Column>, i: nat): (r: seq<RowValue>)
    ensures |r| == |columns|
  {
    seq(|columns|, j requires 0 <= j < |columns| => CellAt(buf, h, columns, i, j))
  }

  function RowsOf(buf: bytes, h: Header, columns: seq<Column>): (r: seq<seq<RowValue>>)
    ensures |r| == h.rowCount
  {
    seq(h.rowCount, i requires 0 <= i < h.rowCount => RowAt(buf, h, columns, i))
  }

  // ----- strings -----

  /** The prefix before the first NUL. */
  function UpToNul(s: bytes): (r: bytes)
    ensures r <= s && 0 !in r
    ensures |r| < |s| ==> s[|r|] == 0
  {
    if s == [] || s[0] == 0 then [] else [s[0]] + UpToNul(s[1..])
  }

  predicate IsStart(data: bytes, o: nat) {
    o < |data| && (o == 0 || data[o - 1] == 0)
  }

  /** The NUL-separated strings of a pool, by offset. */
  function StringsOf(data: bytes): map<nat, bytes> {
    map o: nat | o < |data| && IsStart(data, o) :: UpToNul(data[o..])
  }

  /** A pool must be empty or end with a NUL. */
  function ParseStrings(data: bytes): Option<map<nat, bytes>> {
    if data == [] || data[|data| - 1] == 0 then Some(StringsOf(data)) else None
  }

  // ----- the table -----

  datatype HighTable = HighTable(alloc: bytes, header: Header, columns: seq<Column>, strings: map<nat, bytes>,
        rows: seq<seq<RowValue>>)

  const MAGIC: bytes := [0x40, 0x55, 0x54, 0x46]

  lemma {:induction false} MagicIs()
    ensures Ascii("@UTF") == MAGIC
  {
  }

  /** The section checks made before anything is parsed. */
  predicate SectionsValid(alloc: bytes, h: Header) {
    && h.size + 8 <= |alloc|
    && HEADER_SIZE <= h.rowsOffset <= h.stringPoolOffset <= h.dataPoolOffset <= h.size + 8
    && h.rowsOffset + Times(h.rowSize, h.rowCount) <= h.stringPoolOffset
  }

  function Parse(alloc: bytes): Option<HighTable> {
    if |alloc| < HEADER_SIZE || !(MAGIC <= alloc) then None
    else
      var h := HeaderOf(alloc);
      if !SectionsValid(alloc, h) then None
      else
        var buf := alloc[..h.size + 8];
        var (columns, pos) :- ReadColumns(buf, h.columnCount);
        if pos > h.rowsOffset || Width(columns) > h.rowSize then None
        else if h.rowCount > 0 && exists j :: 0 <= j < |columns| && TypeOf(columns[j].flag).Invalid? then None
        else
          var strings :- ParseStrings(buf[h.stringPoolOffset..h.dataPoolOffset]);
          Some(HighTable(buf, h, columns, strings, RowsOf(buf, h, columns)))
  }

  function GetString(t: HighTable, o: nat): Option<bytes> {
    if o in t.strings then Some(t.strings[o]) else None
  }

  function FindColumn(t: HighTable, name: bytes, from: nat): (r: Option<nat>)
    ensures r.Some? ==> from <= r.value < |t.columns| && GetString(t, t.columns[r.value].nameOffset) == Some(name)
    ensures r.Some? ==> forall j :: from <= j < r.value ==> GetString(t, t.columns[j].nameOffset) != Some(name)
    ensures r.None? ==> forall j :: from <= j < |t.columns| ==> GetString(t, t.columns[j].nameOffset) != Some(name)
    decreases |t.columns| - from
  {
    if from >= |t.columns| then None
    else if GetString(t, t.columns[from].nameOffset) == Some(name) then Some(from)
    else FindColumn(t, name, from + 1)
  }

  /** The first column with that name. */
  function ColumnIndex(t: HighTable, name: bytes): Option<nat> {
    FindColumn(t, name, 0)
  }

  /** A cell, falling back to its column's default. */
  function Value(t: HighTable, i: nat, j: nat): Option<RowValue> {
    if i >= |t.rows| || j >= |t.rows[i]| then None
    else if t.rows[i][j] != NoValue then Some(t.rows[i][j])
    else if j < |t.columns| then t.columns[j].default
    else None
  }

  function ToU64(v: RowValue): Option<u64> {
    match v
    case ByteValue(n) => Some(n)
    case SByteValue(n) => if 0 <= n <= U64_MAX then Some(n) else None
    case UInt16Value(n) => Some(n)
    case Int16Value(n) => if 0 <= n <= U64_MAX then Some(n) else None
    case UInt32Value(n) => Some(n)
    case Int32Value(n) => if 0 <= n <= U64_MAX then Some(n) else None
    case UInt64Value(n) => Some(n)
    case Int64Value(n) => if 0 <= n <= U64_MAX then Some(n) else None
    case _ => None
  }

  function U64ByName(t: HighTable, i: nat, name: bytes): Option<u64> {
    var j :- ColumnIndex(t, name);
    var v :- Value(t, i, j);
    ToU64(v)
  }

  function DataOf(t: HighTable, start: u32, length: u32): Option<bytes> {
    var lo := t.header.dataPoolOffset + start;
    if lo + length <= |t.alloc| then Some(t.alloc[lo..lo + length]) else None
  }

  /** A zero-length data cell counts as missing. */
  function DataByName(t: HighTable, i: nat, name: bytes): Option<bytes> {
    var j :- ColumnIndex(t, name);
    var v :- Value(t, i, j);
    match v
    case DataValue(start, length) => if length == 0 then None else DataOf(t, start, length)
    case _ => None
  }

  // ----- every accepted table -----

  lemma {:induction false} WidthOfPrefix(columns: seq<Column>, j: nat)
    requires j < |columns|
    ensures var f := columns[j].flag;
      Width(columns[..j]) + (if HasRowStorage(f) then TypeSize(TypeOf(f)) else 0) <= Width(columns)
  {
    var k := |columns| - 1;
    if j < k {
      WidthOfPrefix(columns[..k], j);
      assert columns[..k][..j] == columns[..j];
    }
  }

  lemma {:induction false} SectionsOrdered(alloc: bytes, h: Header)
    requires SectionsValid(alloc, h)
    ensures h.stringPoolOffset <= h.dataPoolOffset <= h.size + 8 <= |alloc|
  {
  }

  /** A buffer that passes every check parses. */
  lemma {:induction false} ParseSucceeds(alloc: bytes, h: Header, columns: seq<Column>, pos: nat)
    requires |alloc| >= HEADER_SIZE && MAGIC <= alloc && h == HeaderOf(alloc) && SectionsValid(alloc, h)
    requires ReadColumns(alloc[..h.size + 8], h.columnCount) == Some((columns, pos))
    requires pos <= h.rowsOffset && Width(columns) <= h.rowSize
    requires forall j :: 0 <= j < |columns| ==> !TypeOf(columns[j].flag).Invalid?
    requires ParseStrings(alloc[h.stringPoolOffset..h.dataPoolOffset]).Some?
    ensures Parse(alloc) == Some(HighTable(alloc[..h.size + 8], h, columns,
              ParseStrings(alloc[h.stringPoolOffset..h.dataPoolOffset]).value, RowsOf(alloc[..h.size + 8], h, columns)))
  {
    hide ReadColumns, Width, ParseStrings, RowsOf, TypeOf, HeaderOf, SectionsValid;
    assert alloc[..h.size + 8][h.stringPoolOffset..h.dataPoolOffset] == alloc[h.stringPoolOffset..h.dataPoolOffset] by {
      SectionsOrdered(alloc, h);
    }
  }

  /** The facts the parser has checked about a table it returns. */
  lemma {:induction false} ParsedShape(alloc: bytes)
    requires Parse(alloc).Some?
    ensures var t := Parse(alloc).value; var h := t.header;
      && |alloc| >= HEADER_SIZE && h == HeaderOf(alloc) && SectionsValid(alloc, h)
      && t.alloc == alloc[..h.size + 8]
      && Width(t.columns) <= h.rowSize && |t.columns| == h.columnCount
      && ReadColumns(t.alloc, h.columnCount).Some? && ReadColumns(t.alloc, h.columnCount).value.0 == t.columns
      && ReadColumns(t.alloc, h.columnCount).value.1 <= h.rowsOffset
      && t.rows == RowsOf(t.alloc, h, t.columns)
      && ParseStrings(t.alloc[h.stringPoolOffset..h.dataPoolOffset]) == Some(t.strings)
      && (h.rowCount > 0 ==> forall j :: 0 <= j < |t.columns| ==> !TypeOf(t.columns[j].flag).Invalid?)
  {
  }

  /** In every buffer the parser accepts, a stored cell is decoded from bytes that lie wholly
      between the rows' start and the string pool, inside its own row; any other cell resolves
      to its column's default. */
  lemma {:induction false} AcceptedCells(alloc: bytes, i: nat, j: nat)
    requires Parse(alloc).Some?
    requires i < |Parse(alloc).value.rows| && j < |Parse(alloc).value.columns|
    ensures var t := Parse(alloc).value;
      var flag := t.columns[j].flag;
      var row := t.header.rowsOffset + Times(t.header.rowSize, i);
      var pos, size := row + Width(t.columns[..j]), TypeSize(TypeOf(flag));
      && |t.rows[i]| == |t.columns|
      && (HasRowStorage(flag) ==>
            && pos + size <= row + t.header.rowSize <= t.header.stringPoolOffset <= |t.alloc| <= |alloc|
            && t.rows[i][j] == ValueOf(TypeOf(flag), alloc[pos..pos + size])
            && Value(t, i, j) == Some(t.rows[i][j]))
      && (!HasRowStorage(flag) ==> Value(t, i, j) == t.columns[j].default)
  {
    hide Parse, ValueOf, TypeOf, TypeSize, Times, Width, HeaderOf, ReadColumns, ParseStrings;
    ParsedShape(alloc);
    var t := Parse(alloc).value;
    var h, buf := t.header, t.alloc;
    TimesBelow(h.rowSize, i, h.rowCount);
    WidthOfPrefix(t.columns, j);
    assert t.rows[i] == RowAt(buf, h, t.columns, i);
    assert t.rows[i][j] == CellAt(buf, h, t.columns, i, j);
    var flag := t.columns[j].flag;
    if HasRowStorage(flag) {
      var pos, size := CellPosition(h, t.columns, i, j), TypeSize(TypeOf(flag));
      assert pos + size <= h.size + 8 <= |alloc|;
      SliceOfPrefix(alloc, h.size + 8, pos, pos + size);
      StoredValue(TypeOf(flag), buf[pos..pos + size]);
    }
  }

  lemma {:induction false} SliceOfPrefix(s: bytes, n: nat, lo: nat, hi: nat)
    requires lo <= hi <= n <= |s|
    ensures s[..n][lo..hi] == s[lo..hi]
  {
  }

  lemma {:induction false} StoredValue(t: ColumnType, field: bytes)
    requires |field| == TypeSize(t) && !t.Invalid?
    ensures ValueOf(t, field) != NoValue
  {
  }
}
