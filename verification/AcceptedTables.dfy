/** What every accepted table means, whoever wrote it: column records, defaults and typed values. */
module AcceptedTables {
  import opened BitOps
  import opened Bytes
  import opened Wrappers
  import opened UtfParse
  import R = ReaderSpec

  // ----- flags -----

  /** Bit 4 is the name, bit 5 the default value, bit 6 row storage. */
  lemma {:induction false} FlagBits(flag: byte)
    ensures HasName(flag) <==> Bit(flag, 4)
    ensures HasDefault(flag) <==> Bit(flag, 5)
    ensures HasRowStorage(flag) <==> Bit(flag, 6)
  {
    var h := flag / 2 / 2 / 2 / 2;
    assert h == flag / 0x10 && h / 2 == flag / 0x20 && h / 2 / 2 == flag / 0x40;
    assert Bit(flag, 4) == Bit(flag / 2, 3) == Bit(flag / 2 / 2, 2) == Bit(flag / 2 / 2 / 2, 1) == Bit(h, 0);
    assert Bit(flag, 5) == Bit(flag / 2, 4) == Bit(flag / 2 / 2, 3) == Bit(flag / 2 / 2 / 2, 2) == Bit(h, 1);
    assert Bit(flag, 6) == Bit(flag / 2, 5) == Bit(flag / 2 / 2, 4) == Bit(flag / 2 / 2 / 2, 3) == Bit(h, 2);
    assert Bit(h, 1) == Bit(h / 2, 0) && Bit(h, 2) == Bit(h / 2, 1) == Bit(h / 2 / 2, 0);
  }

  /** The number of each type in the low four bits. */
  function TypeNumber(t: ColumnType): nat {
    match t
    case Byte => 0 case SByte => 1
    case UInt16 => 2 case Int16 => 3
    case UInt32 => 4 case Int32 => 5
    case UInt64 => 6 case Int64 => 7
    case Single => 8 case Double => 9
    case String => 10 case Data => 11
    case Guid => 12
    case Invalid => 0xff
  }

  lemma {:induction false} TypeNumbers(flag: byte)
    ensures flag % 16 <= 12 <==> !TypeOf(flag).Invalid?
    ensures flag % 16 <= 12 ==> TypeNumber(TypeOf(flag)) == flag % 16
  {
  }

  // ----- values -----

  /** Two's complement in n bytes. */
  function SignedBytes(v: int, n: nat): bytes {
    var w := if v < 0 then v + Pow256(n) else v;
    Be(if w < 0 then 0 else w, n)
  }

  /** The bytes a cell of each type is stored as. */
  function Stored(v: RowValue): bytes {
    match v
    case NoValue => []
    case ByteValue(n) => [n]
    case SByteValue(n) => SignedBytes(n, 1)
    case UInt16Value(n) => Be(n, 2)
    case Int16Value(n) => SignedBytes(n, 2)
    case UInt32Value(n) => Be(n, 4)
    case Int32Value(n) => SignedBytes(n, 4)
    case UInt64Value(n) => Be(n, 8)
    case Int64Value(n) => SignedBytes(n, 8)
    case SingleValue(n) => Be(n, 4)
    case DoubleValue(n) => Be(n, 8)
    case StringValue(n) => Be(n, 4)
    case DataValue(start, length) => Be(start, 4) + Be(length, 4)
    case GuidValue(a, b, c, d) => Be(a, 4) + Be(b, 4) + Be(c, 4) + Be(d, 4)
  }

  /** The type a value is of. */
  predicate IsOfType(v: RowValue, t: ColumnType) {
    match v
    case NoValue => t.Invalid?
    case ByteValue(_) => t.Byte?
    case SByteValue(n) => t.SByte? && -0x80 <= n < 0x80
    case UInt16Value(_) => t.UInt16?
    case Int16Value(n) => t.Int16? && -0x8000 <= n < 0x8000
    case UInt32Value(_) => t.UInt32?
    case Int32Value(n) => t.Int32? && -0x8000_0000 <= n < 0x8000_0000
    case UInt64Value(_) => t.UInt64?
    case Int64Value(n) => t.Int64? && -0x8000_0000_0000_0000 <= n < 0x8000_0000_0000_0000
    case SingleValue(_) => t.Single?
    case DoubleValue(_) => t.Double?
    case StringValue(_) => t.String?
    case DataValue(_, _) => t.Data?
    case GuidValue(_, _, _, _) => t.Guid?
  }

  /** The word at an offset of a field, and the bytes it came from. */
  lemma {:induction false} WordStored(field: bytes, o: nat, n: nat)
    requires o + n <= |field|
    ensures FromBe(field[o..o + n]) < Pow256(n) && Be(FromBe(field[o..o + n]), n) == field[o..o + n]
  {
    FromBeBound(field[o..o + n]);
    BeOfFromBe(field[o..o + n]);
  }

  lemma {:induction false} SignedStored(v: nat, half: nat, n: nat)
    requires v < 2 * half == Pow256(n)
    ensures -(half as int) <= Signed(v, half) < half && SignedBytes(Signed(v, half), n) == Be(v, n)
  {
    hide Be, Pow256;
  }

  /** Decoding is the inverse of storing: the value is of the column's type, in range, and its bytes
      are the field. */
  lemma {:induction false} ValueStored(t: ColumnType, field: bytes)
    requires |field| == TypeSize(t)
    ensures IsOfType(ValueOf(t, field), t) && Stored(ValueOf(t, field)) == field
  {
    WordSizes();
    hide Be, FromBe, Pow256;
    match t
    case Byte =>
    case SByte =>
      assert field[0..1] == field;
      WordStored(field, 0, 1);
      OneByte(field);
      SignedStored(field[0], 0x80, 1);
    case UInt16 => Whole(field, 2);
    case Int16 =>
      Whole(field, 2);
      SignedStored(U16At(field, 0), 0x8000, 2);
    case UInt32 => Whole(field, 4);
    case Int32 =>
      Whole(field, 4);
      SignedStored(U32At(field, 0), 0x8000_0000, 4);
    case UInt64 => Whole(field, 8);
    case Int64 =>
      Whole(field, 8);
      SignedStored(U64At(field, 0), 0x8000_0000_0000_0000, 8);
    case Single => Whole(field, 4);
    case Double => Whole(field, 8);
    case String => Whole(field, 4);
    case Data =>
      WordStored(field, 0, 4);
      WordStored(field, 4, 4);
      assert field == field[0..4] + field[4..8];
    case Guid =>
      WordStored(field, 0, 4);
      WordStored(field, 4, 4);
      WordStored(field, 8, 4);
      WordStored(field, 12, 4);
      assert field == field[0..4] + field[4..8] + field[8..12] + field[12..16];
    case Invalid =>
  }

  lemma {:induction false} Whole(field: bytes, n: nat)
    requires |field| == n
    ensures field[0..0 + n] == field && FromBe(field[0..0 + n]) < Pow256(n) && Be(FromBe(field[0..0 + n]), n) == field
  {
    assert field[0..0 + n] == field;
    WordStored(field, 0, n);
  }

  lemma {:induction false} OneByte(field: bytes)
    requires |field| == 1
    ensures FromBe(field) == field[0] && Be(field[0], 1) == field
  {
    assert field[..0] == [] && FromBe([]) == 0;
    assert Be(field[0] / 256, 0) == [];
  }

  /** The number in a cell: unsigned types as they are, signed ones when not negative, no other. */
  lemma {:induction false} NumberStored(t: ColumnType, field: bytes)
    requires |field| == TypeSize(t)
    ensures t.Byte? || t.UInt16? || t.UInt32? || t.UInt64? ==> ToU64(ValueOf(t, field)) == Some(FromBe(field))
    ensures t.SByte? || t.Int16? || t.Int32? || t.Int64? ==>
              ToU64(ValueOf(t, field)) == if field[0] < 0x80 then Some(FromBe(field)) else None
    ensures t.Single? || t.Double? || t.String? || t.Data? || t.Guid? || t.Invalid? ==> ToU64(ValueOf(t, field)) == None
  {
    WordSizes();
    if 1 <= |field| {
      assert field[0..|field|] == field;
      FromBeBound(field);
      TopBit(field);
    }
    if |field| == 1 {
      OneByte(field);
    }
    hide FromBe, Pow256;
  }

  /** The first byte of a big-endian number is below 0x80 exactly when the number is in the lower
      half. */
  lemma {:induction false} TopBit(s: bytes)
    requires |s| >= 1
    ensures s[0] < 0x80 <==> 2 * FromBe(s) < Pow256(|s|)
  {
    if |s| == 1 {
      OneByte(s);
      assert Pow256(1) == 256 * Pow256(0);
    } else {
      var front, p := s[..|s| - 1], Pow256(|s| - 1);
      TopBit(front);
      assert FromBe(s) == FromBe(front) * 256 + s[|s| - 1] && Pow256(|s|) == 256 * p;
      EvenPower(|s| - 1);
      hide FromBe, Pow256;
      LowerHalf(FromBe(front), s[|s| - 1], p);
    }
  }

  lemma {:induction false} LowerHalf(f: nat, b: byte, p: nat)
    requires p % 2 == 0
    ensures 2 * f < p <==> 2 * (f * 256 + b) < 256 * p
  {
    var h := p / 2;
    assert p == 2 * h;
  }

  lemma {:induction false} EvenPower(n: nat)
    requires n >= 1
    ensures Pow256(n) % 2 == 0
  {
    assert Pow256(n) == 2 * (128 * Pow256(n - 1));
  }

  // ----- column records -----

  function RecordLength(flag: byte): nat {
    1 + (if HasName(flag) then 4 else 0) + (if HasDefault(flag) then TypeSize(TypeOf(flag)) else 0)
  }

  function RecordsLength(columns: seq<Column>): nat {
    if columns == [] then 0
    else RecordsLength(columns[..|columns| - 1]) + RecordLength(columns[|columns| - 1].flag)
  }

  /** Where a record's default is stored: after the flag and, if there is one, the name. */
  function DefaultAt(flag: byte): nat {
    if HasName(flag) then 5 else 1
  }

  /** A column is what its record says: the flag byte, the name offset if it has one, and a default
      of the column's type if it has one. */
  ghost predicate Records(buf: bytes, pos: nat, c: Column) {
    && At(buf, pos, [c.flag])
    && (HasName(c.flag) ==> At(buf, pos + 1, Be(c.nameOffset, 4)))
    && (!HasName(c.flag) ==> c.nameOffset == U32_MAX)
    && (HasDefault(c.flag) <==> c.default.Some?)
    && (HasDefault(c.flag) ==>
          && !TypeOf(c.flag).Invalid? && IsOfType(c.default.value, TypeOf(c.flag))
          && At(buf, pos + DefaultAt(c.flag), Stored(c.default.value)))
  }

  lemma {:induction false} SliceAt(buf: bytes, o: nat, n: nat)
    requires o + n <= |buf|
    ensures At(buf, o, buf[o..o + n])
  {
  }

  lemma {:induction false} ColumnRead(buf: bytes, pos: nat)
    requires ReadColumn(buf, pos).Some?
    ensures var (c, next) := ReadColumn(buf, pos).value;
      next == pos + RecordLength(c.flag) && Records(buf, pos, c)
  {
    hide TypeOf, ValueOf, FromBe, HasName, HasDefault, TypeSize, Records, At;
    var (c, next) := ReadColumn(buf, pos).value;
    var flag := c.flag;
    assert flag == buf[pos] && buf[pos..pos + 1] == [flag];
    SliceAt(buf, pos, 1);
    if HasName(flag) {
      NameRead(buf, pos, c);
    }
    if HasDefault(flag) {
      DefaultRead(buf, pos + DefaultAt(flag), TypeOf(flag));
    }
    RecordsFrom(buf, pos, c);
  }

  lemma {:induction false} NameRead(buf: bytes, pos: nat, c: Column)
    requires pos + 5 <= |buf| && c.nameOffset == U32At(buf, pos + 1)
    ensures At(buf, pos + 1, Be(c.nameOffset, 4))
  {
    hide FromBe, Be, At;
    WordStored(buf, pos + 1, 4);
    SliceAt(buf, pos + 1, 4);
  }

  lemma {:induction false} DefaultRead(buf: bytes, at: nat, t: ColumnType)
    requires at + TypeSize(t) <= |buf|
    ensures var v := ValueOf(t, buf[at..at + TypeSize(t)]); IsOfType(v, t) && At(buf, at, Stored(v))
  {
    hide ValueOf, At, IsOfType, TypeSize, Stored;
    ValueStored(t, buf[at..at + TypeSize(t)]);
    SliceAt(buf, at, TypeSize(t));
  }

  lemma {:induction false} RecordsFrom(buf: bytes, pos: nat, c: Column)
    requires At(buf, pos, [c.flag])
    requires HasName(c.flag) ==> At(buf, pos + 1, Be(c.nameOffset, 4))
    requires !HasName(c.flag) ==> c.nameOffset == U32_MAX
    requires HasDefault(c.flag) <==> c.default.Some?
    requires HasDefault(c.flag) ==> !TypeOf(c.flag).Invalid? && IsOfType(c.default.value, TypeOf(c.flag))
    requires HasDefault(c.flag) ==> At(buf, pos + DefaultAt(c.flag), Stored(c.default.value))
    ensures Records(buf, pos, c)
  {
    hide At, TypeOf, HasName, HasDefault, IsOfType, Stored, Be;
  }

  lemma {:induction false} ColumnAtItsPlace(buf: bytes, n: nat, j: nat)
    requires ReadColumns(buf, n).Some? && j < n
    ensures var (columns, end) := ReadColumns(buf, n).value;
      && end == 0x20 + RecordsLength(columns)
      && Records(buf, 0x20 + RecordsLength(columns[..j]), columns[j])
  {
    hide Records, ReadColumn, RecordLength;
    var (columns, end) := ReadColumns(buf, n).value;
    var (front, pos) := ReadColumns(buf, n - 1).value;
    assert columns[..n - 1] == front;
    RecordsEnd(buf, n - 1);
    ColumnRead(buf, pos);
    if j < n - 1 {
      ColumnAtItsPlace(buf, n - 1, j);
      assert columns[..j] == front[..j];
    }
  }

  lemma {:induction false} RecordsEnd(buf: bytes, n: nat)
    requires ReadColumns(buf, n).Some?
    ensures ReadColumns(buf, n).value.1 == 0x20 + RecordsLength(ReadColumns(buf, n).value.0)
  {
    hide ReadColumn, RecordLength;
    if n > 0 {
      RecordsEnd(buf, n - 1);
      var (columns, _) := ReadColumns(buf, n).value;
      assert columns[..n - 1] == ReadColumns(buf, n - 1).value.0;
      ColumnRead(buf, ReadColumns(buf, n - 1).value.1);
    }
  }

  /** Every column of an accepted table is the one its record describes; the records follow one
      another from 0x20 and end before the rows, which end before the strings, which end before the
      data. */
  lemma {:induction false} AcceptedColumns(alloc: bytes, j: nat)
    requires Parse(alloc).Some? && j < |Parse(alloc).value.columns|
    ensures var t := Parse(alloc).value;
      && Records(alloc, 0x20 + RecordsLength(t.columns[..j]), t.columns[j])
      && 0x20 + RecordsLength(t.columns) <= t.header.rowsOffset
      && t.header.rowsOffset + Times(t.header.rowSize, t.header.rowCount) <= t.header.stringPoolOffset
      && t.header.stringPoolOffset <= t.header.dataPoolOffset <= |t.alloc| <= |alloc|
  {
    hide Parse, Records, ReadColumns, HeaderOf, RecordsLength, RowsOf, ParseStrings, Width, TypeOf, Times;
    ParsedShape(alloc);
    var t := Parse(alloc).value;
    RecordsEnd(t.alloc, |t.columns|);
    ColumnAtItsPlace(t.alloc, |t.columns|, j);
    RecordsIn(t.alloc, alloc, 0x20 + RecordsLength(t.columns[..j]), t.columns[j]);
  }

  lemma {:induction false} RecordsIn(s: bytes, r: bytes, pos: nat, c: Column)
    requires s <= r && Records(s, pos, c)
    ensures Records(r, pos, c)
  {
    hide At, TypeOf, Stored, IsOfType;
    AtPrefix(s, r, pos, [c.flag]);
    if HasName(c.flag) {
      AtPrefix(s, r, pos + 1, Be(c.nameOffset, 4));
    }
    if HasDefault(c.flag) {
      AtPrefix(s, r, pos + DefaultAt(c.flag), Stored(c.default.value));
    }
  }

  /** A column that is not stored per row has, in every row, the number whose bytes its record holds
      after the flag and the name. */
  lemma {:induction false} DefaultNumber(alloc: bytes, i: nat, j: nat, field: bytes)
    requires Parse(alloc).Some? && i < |Parse(alloc).value.rows| && j < |Parse(alloc).value.columns|
    requires var flag := Parse(alloc).value.columns[j].flag;
      && Bit(flag, 5) && !Bit(flag, 6) && |field| == TypeSize(TypeOf(flag))
      && (TypeOf(flag).Byte? || TypeOf(flag).UInt16? || TypeOf(flag).UInt32? || TypeOf(flag).UInt64?)
      && At(alloc, 0x20 + RecordsLength(Parse(alloc).value.columns[..j]) + (if Bit(flag, 4) then 5 else 1), field)
    ensures R.NumericAt(Parse(alloc).value, i, j) == Some(FromBe(field))
  {
    hide *;
    var t := Parse(alloc).value;
    var c := t.columns[j];
    var pos := 0x20 + RecordsLength(t.columns[..j]);
    FlagBits(c.flag);
    DefaultPlace(c.flag);
    AcceptedColumns(alloc, j);
    DefaultCell(alloc, i, j);
    DefaultIs(alloc, pos, c, field);
    NumberAt(t, i, j);
  }

  lemma {:induction false} DefaultPlace(flag: byte)
    ensures DefaultAt(flag) == if Bit(flag, 4) then 5 else 1
  {
    hide HasName, Bit;
    FlagBits(flag);
  }

  lemma {:induction false} DefaultCell(alloc: bytes, i: nat, j: nat)
    requires Parse(alloc).Some? && i < |Parse(alloc).value.rows| && j < |Parse(alloc).value.columns|
    requires !HasRowStorage(Parse(alloc).value.columns[j].flag)
    ensures Value(Parse(alloc).value, i, j) == Parse(alloc).value.columns[j].default
  {
    AcceptedCells(alloc, i, j);
    hide *;
  }

  lemma {:induction false} NumberAt(t: HighTable, i: nat, j: nat)
    requires Value(t, i, j).Some?
    ensures R.NumericAt(t, i, j) == ToU64(Value(t, i, j).value)
  {
    hide Value, ToU64;
  }

  lemma {:induction false} DefaultIs(buf: bytes, pos: nat, c: Column, field: bytes)
    requires Records(buf, pos, c) && HasDefault(c.flag) && |field| == TypeSize(TypeOf(c.flag))
    requires TypeOf(c.flag).Byte? || TypeOf(c.flag).UInt16? || TypeOf(c.flag).UInt32? || TypeOf(c.flag).UInt64?
    requires At(buf, pos + DefaultAt(c.flag), field)
    ensures c.default.Some? && ToU64(c.default.value) == Some(FromBe(field))
  {
    var v := c.default.value;
    StoredLength(v, TypeOf(c.flag));
    SameBytes(buf, pos + DefaultAt(c.flag), Stored(v), field);
    hide At, TypeOf, FromBe, Be, HasDefault, HasName;
    StoredNumber(v);
  }

  lemma {:induction false} StoredLength(v: RowValue, t: ColumnType)
    requires IsOfType(v, t)
    ensures |Stored(v)| == TypeSize(t)
  {
  }

  lemma {:induction false} SameBytes(s: bytes, o: nat, x: bytes, y: bytes)
    requires At(s, o, x) && At(s, o, y) && |x| == |y|
    ensures x == y
  {
    AtSlice(s, o, x);
    AtSlice(s, o, y);
  }

  lemma {:induction false} StoredNumber(v: RowValue)
    requires v.ByteValue? || v.UInt16Value? || v.UInt32Value? || v.UInt64Value?
    ensures ToU64(v) == Some(FromBe(Stored(v)))
  {
    if v.ByteValue? {
      OneByte([v.u8]);
    } else {
      BeWord(ToU64(v).value);
    }
  }

  /** The other way round: what a record with a name and a default is read as. */
  lemma {:induction false} NamedDefault(buf: bytes, pos: nat, flag: byte, o: u32, field: bytes)
    requires Bit(flag, 4) && Bit(flag, 5) && !TypeOf(flag).Invalid? && |field| == TypeSize(TypeOf(flag))
    requires At(buf, pos, [flag] + Be(o, 4) + field)
    ensures ReadColumn(buf, pos) == Some((Column(flag, o, Some(ValueOf(TypeOf(flag), field))), pos + 5 + |field|))
  {
    FlagBits(flag);
    BeWord(o);
    hide Bit, TypeOf, ValueOf, FromBe, HasName, HasDefault, TypeSize, ReadColumn;
    RecordParts(buf, pos, [flag], Be(o, 4), field);
    NamedFrom(buf, pos, flag, o, field);
  }

  lemma {:induction false} RecordParts(buf: bytes, pos: nat, a: bytes, b: bytes, c: bytes)
    requires |a| == 1 && At(buf, pos, a + b + c)
    ensures pos + 1 + |b| + |c| <= |buf| && buf[pos] == a[0] && buf[pos + 1..pos + 1 + |b|] == b
    ensures buf[pos + 1 + |b|..pos + 1 + |b| + |c|] == c
  {
    var record := a + b + c;
    ThreeParts(a, b, c);
    AtSlice(buf, pos, record);
    hide At;
    var s := buf[pos..pos + |record|];
    assert s == record && s[0] == a[0];
    assert record[1..1 + |b|] == b && record[1 + |b|..1 + |b| + |c|] == c;
    assert s[1..1 + |b|] == buf[pos + 1..pos + 1 + |b|];
    assert s[1 + |b|..1 + |b| + |c|] == buf[pos + 1 + |b|..pos + 1 + |b| + |c|];
  }

  lemma {:induction false} NamedFrom(buf: bytes, pos: nat, flag: byte, o: u32, field: bytes)
    requires HasName(flag) && HasDefault(flag) && !TypeOf(flag).Invalid? && |field| == TypeSize(TypeOf(flag))
    requires pos + 5 + |field| <= |buf| && buf[pos] == flag && FromBe(buf[pos + 1..pos + 5]) == o
    requires buf[pos + 5..pos + 5 + |field|] == field
    ensures ReadColumn(buf, pos) == Some((Column(flag, o, Some(ValueOf(TypeOf(flag), field))), pos + 5 + |field|))
  {
    hide FromBe, TypeOf, ValueOf, HasName, HasDefault, TypeSize;
  }

  /** And a record without a name. */
  lemma {:induction false} UnnamedDefault(buf: bytes, pos: nat, flag: byte, field: bytes)
    requires !Bit(flag, 4) && Bit(flag, 5) && !TypeOf(flag).Invalid? && |field| == TypeSize(TypeOf(flag))
    requires At(buf, pos, [flag] + field)
    ensures ReadColumn(buf, pos) == Some((Column(flag, U32_MAX, Some(ValueOf(TypeOf(flag), field))), pos + 1 + |field|))
  {
    FlagBits(flag);
    var record := [flag] + field;
    AtLeft([flag], field, 0, [flag]);
    AtEnd([flag], field);
    AtInside(buf, pos, record, 0, [flag]);
    AtInside(buf, pos, record, 1, field);
    AtSlice(buf, pos + 1, field);
    hide TypeOf, ValueOf, Bit;
    assert buf[pos] == flag;
  }

  lemma {:induction false} ThreeParts(a: bytes, b: bytes, c: bytes)
    ensures var s := a + b + c; At(s, 0, a) && At(s, |a|, b) && At(s, |a| + |b|, c)
  {
  }

  // ----- which buffers are tables -----

  /** A stored 32-bit section offset, which counts from 8 and saturates. */
  function SectionOffset(buf: bytes, o: nat): nat
    requires o + 4 <= |buf|
  {
    var v := FromBe(buf[o..o + 4]) + 8;
    if v > 0xffff_ffff then 0xffff_ffff else v
  }

  /** The magic; sections in order and inside the stored size; columns that end before the rows and are
      no wider than them, of known types if there are rows; a pool that is empty or ends with a NUL. */
  ghost predicate IsTable(buf: bytes) {
    && |buf| >= 0x20 && Ascii("@UTF") <= buf
    && SectionsFit(buf, FromBe(buf[4..8]) + 8, FromBe(buf[0xa..0xc]) + 8, SectionOffset(buf, 0xc),
         SectionOffset(buf, 0x10), FromBe(buf[0x18..0x1a]), FromBe(buf[0x1a..0x1c]), FromBe(buf[0x1c..0x20]))
  }

  ghost predicate SectionsFit(buf: bytes, end: nat, rows: nat, strings: nat, data: nat, columns: nat, width: nat,
        count: nat)
  {
    && end <= |buf| && 0x20 <= rows <= strings <= data <= end && rows + Times(width, count) <= strings
    && (strings < data ==> buf[data - 1] == 0) && ColumnsFit(buf[..end], columns, rows, width, count)
  }

  ghost predicate ColumnsFit(buf: bytes, n: nat, rows: nat, width: nat, count: nat) {
    && ReadColumns(buf, n).Some?
    && var (columns, last) := ReadColumns(buf, n).value;
       && last <= rows && Width(columns) <= width
       && (count > 0 ==> forall j :: 0 <= j < |columns| ==> !TypeOf(columns[j].flag).Invalid?)
  }

  lemma {:induction false} HeaderIs(buf: bytes)
    requires |buf| >= 0x20
    ensures var h := HeaderOf(buf);
      && h.size == FromBe(buf[4..8]) && h.rowsOffset == FromBe(buf[0xa..0xc]) + 8
      && h.stringPoolOffset == SectionOffset(buf, 0xc) && h.dataPoolOffset == SectionOffset(buf, 0x10)
      && h.columnCount == FromBe(buf[0x18..0x1a]) && h.rowSize == FromBe(buf[0x1a..0x1c])
      && h.rowCount == FromBe(buf[0x1c..0x20])
  {
    hide FromBe;
  }

  lemma {:induction false} PoolEnds(buf: bytes, strings: nat, data: nat, end: nat)
    requires strings <= data <= end <= |buf|
    ensures ParseStrings(buf[..end][strings..data]).Some? <==> (strings < data ==> buf[data - 1] == 0)
  {
    hide StringsOf;
    var pool := buf[..end][strings..data];
    if strings < data {
      assert pool[|pool| - 1] == buf[data - 1];
    }
  }

  /** Exactly these buffers are accepted. */
  lemma {:induction false} TableIff(buf: bytes)
    ensures Parse(buf).Some? <==> IsTable(buf)
  {
    hide Parse, HeaderOf, SectionOffset, FromBe, Ascii, MAGIC, SectionsFit;
    MagicIs();
    ParseIs(buf);
    if |buf| >= 0x20 {
      HeaderIs(buf);
    }
  }

  lemma {:induction false} ParseIs(buf: bytes)
    ensures Parse(buf).Some? <==>
      && |buf| >= 0x20 && MAGIC <= buf
      && var h := HeaderOf(buf);
         SectionsFit(buf, h.size + 8, h.rowsOffset, h.stringPoolOffset, h.dataPoolOffset, h.columnCount, h.rowSize,
           h.rowCount)
  {
    hide HeaderOf, ReadColumns, ParseStrings, TypeOf, Width, MAGIC, RowsOf, Times;
    if |buf| >= 0x20 && SectionsValid(buf, HeaderOf(buf)) {
      var h := HeaderOf(buf);
      PoolEnds(buf, h.stringPoolOffset, h.dataPoolOffset, h.size + 8);
    }
  }
}
