/** `HighTable::new` and the loops it drives: columns, rows and the string pool. */
module UtfParser {
  import opened Bytes
  import opened Wrappers
  import opened UtfParse

  /** The strings whose offset is below `limit`. */
  ghost function StringsBelow(data: bytes, limit: nat): map<nat, bytes> {
    map o: nat | o < |data| && o < limit && IsStart(data, o) :: UpToNul(data[o..])
  }

  /** The position of the first NUL. */
  method FindNul(tail: bytes) returns (length: Option<nat>)
    ensures length.None? ==> 0 !in tail
    ensures length.Some? ==> length.value < |tail| && tail[length.value] == 0 && 0 !in tail[..length.value]
  {
    for i := 0 to |tail|
      invariant 0 !in tail[..i]
    {
      if tail[i] == 0 { return Some(i); }
    }
    assert tail[..|tail|] == tail;
    return None;
  }

  lemma {:induction false} UpToFirstNul(s: bytes, n: nat)
    requires n < |s| && s[n] == 0 && 0 !in s[..n]
    ensures UpToNul(s) == s[..n]
  {
    if n > 0 {
      assert s[0] in s[..n];
      assert s[1..][..n - 1] == s[1..n];
      assert s[..n] == [s[0]] + s[1..n];
      UpToFirstNul(s[1..], n - 1);
    }
  }

  /** No string starts strictly inside another. */
  lemma {:induction false} NextStart(data: bytes, offset: nat, n: nat, o: nat)
    requires IsStart(data, offset) && offset + n < |data| && 0 !in data[offset..offset + n]
    ensures o < offset + n + 1 && IsStart(data, o) <==> (o < offset && IsStart(data, o)) || o == offset
  {
    if offset < o <= offset + n {
      assert data[o - 1] == data[offset..offset + n][o - 1 - offset];
    }
  }

  lemma {:induction false} NextString(data: bytes, offset: nat, n: nat)
    requires IsStart(data, offset) && offset + n < |data| && data[offset + n] == 0 && 0 !in data[offset..offset + n]
    ensures StringsBelow(data, offset + n + 1) == StringsBelow(data, offset)[offset := data[offset..offset + n]]
  {
    FirstNulAt(data, offset, n);
    assert offset < |data|;
    hide UpToNul, IsStart;
    var now, next := StringsBelow(data, offset), StringsBelow(data, offset + n + 1);
    var grown := now[offset := data[offset..offset + n]];
    forall o: nat ensures o in next <==> o in grown {
      NextStart(data, offset, n, o);
    }
    forall o: nat | o in next ensures next[o] == grown[o] {
      NextStart(data, offset, n, o);
    }
  }

  lemma {:induction false} FirstNulAt(data: bytes, offset: nat, n: nat)
    requires offset + n < |data| && data[offset + n] == 0 && 0 !in data[offset..offset + n]
    ensures UpToNul(data[offset..]) == data[offset..offset + n]
  {
    assert data[offset..][..n] == data[offset..offset + n];
    UpToFirstNul(data[offset..], n);
  }

  lemma {:induction false} AllStrings(data: bytes)
    ensures StringsBelow(data, |data|) == StringsOf(data)
  {
    hide UpToNul;
  }

  method ParsePool(stream: bytes) returns (r: Option<map<nat, bytes>>)
    ensures r == ParseStrings(stream)
  {
    hide UpToNul, StringsOf, StringsBelow;
    var offset := 0;
    var strings: map<nat, bytes> := map[];
    NoStrings(stream);
    while offset < |stream|
      invariant 0 <= offset <= |stream|
      invariant offset == 0 || stream[offset - 1] == 0
      invariant strings == StringsBelow(stream, offset)
    {
      var tail := stream[offset..];
      var length := FindNul(tail);
      if length.None? {
        assert stream[|stream| - 1] == tail[|tail| - 1];
        return None;
      }
      assert tail[..length.value] == stream[offset..offset + length.value];
      NextString(stream, offset, length.value);
      strings := strings[offset := tail[..length.value]];
      offset := offset + length.value + 1;
    }
    AllStrings(stream);
    r := Some(strings);
  }

  lemma {:induction false} NoStrings(data: bytes)
    ensures StringsBelow(data, 0) == map[]
  {
  }

  method ReadColumnList(buf: bytes, count: nat) returns (r: Option<(seq<Column>, nat)>)
    ensures r == ReadColumns(buf, count)
  {
    var columns: seq<Column>, pos := [], HEADER_SIZE;
    for n := 0 to count
      invariant ReadColumns(buf, n) == Some((columns, pos))
    {
      var c := ReadColumn(buf, pos);
      if c.None? {
        ReadColumnsFail(buf, n + 1, count);
        return None;
      }
      columns, pos := columns + [c.value.0], c.value.1;
    }
    r := Some((columns, pos));
  }

  lemma {:induction false} ReadColumnsFail(buf: bytes, n: nat, count: nat)
    requires n <= count && ReadColumns(buf, n).None?
    ensures ReadColumns(buf, count).None?
    decreases count
  {
    if n < count {
      ReadColumnsFail(buf, n, count - 1);
    }
  }

  lemma {:induction false} WidthSnoc(columns: seq<Column>, j: nat)
    requires j < |columns|
    ensures Width(columns[..j + 1]) == Width(columns[..j]) +
            (if HasRowStorage(columns[j].flag) then TypeSize(TypeOf(columns[j].flag)) else 0)
  {
    assert columns[..j + 1][..j] == columns[..j];
  }

  lemma {:induction false} WidthOfNone(columns: seq<Column>)
    ensures Width(columns[..0]) == 0
  {
  }

  /** A stored cell lies inside its row, and the row inside the buffer. */
  lemma {:induction false} CellFits(buf: bytes, h: Header, columns: seq<Column>, i: nat, j: nat)
    requires i < h.rowCount && j < |columns| && Width(columns) <= h.rowSize
    requires h.rowsOffset + Times(h.rowSize, h.rowCount) <= |buf|
    ensures HasRowStorage(columns[j].flag) ==>
              h.rowsOffset + Times(h.rowSize, i) + Width(columns[..j]) + TypeSize(TypeOf(columns[j].flag)) <= |buf|
  {
    hide TypeOf, TypeSize, Width, Times, HasRowStorage;
    TimesBelow(h.rowSize, i, h.rowCount);
    WidthOfPrefix(columns, j);
  }

  lemma {:induction false} CellIs(buf: bytes, h: Header, columns: seq<Column>, i: nat, j: nat, pos: nat)
    requires j < |columns| && pos == h.rowsOffset + Times(h.rowSize, i) + Width(columns[..j])
    ensures !HasRowStorage(columns[j].flag) ==> CellAt(buf, h, columns, i, j) == NoValue
    ensures var t := TypeOf(columns[j].flag);
      HasRowStorage(columns[j].flag) && pos + TypeSize(t) <= |buf| ==>
        CellAt(buf, h, columns, i, j) == ValueOf(t, buf[pos..pos + TypeSize(t)])
  {
    hide ValueOf, TypeOf, TypeSize, Width, Times, HasRowStorage;
  }

  lemma {:induction false} RowSnoc(buf: bytes, h: Header, columns: seq<Column>, i: nat, j: nat)
    requires j < |columns|
    ensures var row := RowAt(buf, h, columns, i); row[..j + 1] == row[..j] + [CellAt(buf, h, columns, i, j)]
  {
    hide CellAt;
  }

  /** One row read from a moving position. It fails only on an unsupported column type: the
      schema is no wider than a row and rows end before the buffer does, so no read falls short. */
  method CreateRow(buf: bytes, h: Header, columns: seq<Column>, i: nat) returns (r: Option<seq<RowValue>>)
    requires i < h.rowCount && Width(columns) <= h.rowSize
    requires h.rowsOffset + Times(h.rowSize, h.rowCount) <= |buf|
    ensures r.None? <==> exists j :: 0 <= j < |columns| && TypeOf(columns[j].flag).Invalid?
    ensures r.Some? ==> r.value == RowAt(buf, h, columns, i)
  {
    hide *;
    WidthOfNone(columns);
    var base := h.rowsOffset + Times(h.rowSize, i);
    ghost var full := RowAt(buf, h, columns, i);
    var pos := base;
    var row: seq<RowValue> := [];
    for j := 0 to |columns|
      invariant pos == base + Width(columns[..j]) && row == full[..j]
      invariant forall k :: 0 <= k < j ==> !TypeOf(columns[k].flag).Invalid?
    {
      var flag := columns[j].flag;
      var ctype := TypeOf(flag);
      if ctype.Invalid? { return None; }
      WidthSnoc(columns, j);
      CellFits(buf, h, columns, i, j);
      RowSnoc(buf, h, columns, i, j);
      CellIs(buf, h, columns, i, j, pos);
      if !HasRowStorage(flag) {
        row := row + [NoValue];
      } else {
        var size := TypeSize(ctype);
        row := row + [ValueOf(ctype, buf[pos..pos + size])];
        pos := pos + size;
      }
    }
    assert full[..|columns|] == full;
    r := Some(row);
  }

  method ReadRowList(buf: bytes, h: Header, columns: seq<Column>) returns (r: Option<seq<seq<RowValue>>>)
    requires Width(columns) <= h.rowSize
    requires h.rowsOffset + Times(h.rowSize, h.rowCount) <= |buf|
    ensures r.None? <==> h.rowCount > 0 && exists j :: 0 <= j < |columns| && TypeOf(columns[j].flag).Invalid?
    ensures r.Some? ==> r.value == RowsOf(buf, h, columns)
  {
    var rows: seq<seq<RowValue>> := [];
    for i := 0 to h.rowCount
      invariant rows == RowsOf(buf, h, columns)[..i]
      invariant i > 0 ==> !(exists j :: 0 <= j < |columns| && TypeOf(columns[j].flag).Invalid?)
    {
      var row := CreateRow(buf, h, columns, i);
      if row.None? { return None; }
      rows := rows + [row.value];
    }
    assert rows == RowsOf(buf, h, columns);
    r := Some(rows);
  }

  method RowWidth(columns: seq<Column>) returns (w: nat)
    ensures w == Width(columns)
  {
    w := 0;
    for j := 0 to |columns|
      invariant w == Width(columns[..j])
    {
      WidthSnoc(columns, j);
      if HasRowStorage(columns[j].flag) {
        w := w + TypeSize(TypeOf(columns[j].flag));
      }
    }
    assert columns[..|columns|] == columns;
  }

  method NewHighTable(alloc: bytes) returns (r: Option<HighTable>)
    ensures r == Parse(alloc)
  {
    hide ReadColumns, Width, ParseStrings, RowsOf, TypeOf, HeaderOf, Times;
    if |alloc| < HEADER_SIZE || !(MAGIC <= alloc) { return None; }
    var h := HeaderOf(alloc);
    var declared := h.size + 8;
    if declared > |alloc| { return None; }
    if h.rowsOffset < HEADER_SIZE || h.rowsOffset > h.stringPoolOffset
       || h.stringPoolOffset > h.dataPoolOffset || h.dataPoolOffset > declared { return None; }
    if h.rowsOffset + Times(h.rowSize, h.rowCount) > h.stringPoolOffset { return None; }
    var buf := alloc[..declared];
    var parsed := ReadColumnList(buf, h.columnCount);
    if parsed.None? { return None; }
    var (columns, pos) := parsed.value;
    if pos > h.rowsOffset { return None; }
    var width := RowWidth(columns);
    if width > h.rowSize { return None; }
    var rows := ReadRowList(buf, h, columns);
    if rows.None? { return None; }
    var strings := ParsePool(buf[h.stringPoolOffset..h.dataPoolOffset]);
    if strings.None? { return None; }
    r := Some(HighTable(buf, h, columns, strings.value, rows.value));
  }
}
