/** Name and cell lookups on a table that mirrors what was written. */
module Lookup {
  import opened BitOps
  import opened Bytes
  import opened Wrappers
  import B = UtfBuild
  import P = UtfParse
  import opened UtfRoundTrip
  import opened ReaderSpec

  ghost predicate CleanNames(columns: seq<B.UtfColumn>) {
    forall j :: 0 <= j < |columns| ==> 0 !in columns[j].name
  }

  lemma {:induction false} NameOf(h: P.HighTable, t: B.Table, j: nat)
    requires Mirrors(h, t) && CleanNames(t.columns) && j < |t.columns|
    ensures |h.columns| == |t.columns|
    ensures P.GetString(h, h.columns[j].nameOffset) == Some(t.columns[j].name)
  {
    WholeIffNulFree(t.columns[j].name);
  }

  /** The first column of a name is found by that name. */
  lemma {:induction false} FoundColumn(h: P.HighTable, t: B.Table, k: nat)
    requires Mirrors(h, t) && CleanNames(t.columns) && k < |t.columns|
    requires forall j :: 0 <= j < k ==> t.columns[j].name != t.columns[k].name
    ensures P.ColumnIndex(h, t.columns[k].name) == Some(k)
  {
    hide Mirrors, P.GetString;
    forall j | 0 <= j <= k ensures |h.columns| == |t.columns| &&
        P.GetString(h, h.columns[j].nameOffset) == Some(t.columns[j].name) {
      NameOf(h, t, j);
    }
    NameOf(h, t, k);
    var r := P.FindColumn(h, t.columns[k].name, 0);
    assert r.Some? && r.value <= k;
  }

  lemma {:induction false} AbsentColumn(h: P.HighTable, t: B.Table, name: bytes)
    requires Mirrors(h, t) && CleanNames(t.columns)
    requires forall j :: 0 <= j < |t.columns| ==> t.columns[j].name != name
    ensures P.ColumnIndex(h, name) == None
  {
    var r := P.FindColumn(h, name, 0);
    if r.Some? {
      NameOf(h, t, r.value);
    }
  }

  /** The number in a numeric cell. */
  function NumberIn(v: B.UtfValue): Option<u64> {
    match v
    case CellU16(n) => Some(n)
    case CellU32(n) => Some(n)
    case CellU64(n) => Some(n)
    case _ => None
  }

  lemma {:induction false} NumberCell(h: P.HighTable, t: B.Table, i: nat, j: nat)
    requires Mirrors(h, t) && i < |t.rows| && j < |t.columns|
    ensures |t.rows[i]| == |t.columns|
    ensures NumberIn(t.rows[i][j]).Some? ==> NumericAt(h, i, j) == NumberIn(t.rows[i][j])
  {
    hide P.Value;
    assert SameCell(h, i, j, t.rows[i][j]);
  }

  /** A string cell: the null reference for the empty text, otherwise the text up to its first
      NUL. */
  lemma {:induction false} StringCell(h: P.HighTable, t: B.Table, i: nat, j: nat)
    requires Mirrors(h, t) && i < |t.rows| && j < |t.columns|
    ensures |t.rows[i]| == |t.columns|
    ensures t.rows[i][j].CellString? ==>
              StringAt(h, i, j) == if t.rows[i][j].text == [] then None else Some(P.UpToNul(t.rows[i][j].text))
  {
    hide P.Value, P.GetString, P.UpToNul;
    assert SameCell(h, i, j, t.rows[i][j]);
  }

  lemma {:induction false} DataCell(h: P.HighTable, t: B.Table, i: nat, j: nat)
    requires Mirrors(h, t) && CleanNames(t.columns) && i < |t.rows| && j < |t.columns|
    requires forall k :: 0 <= k < j ==> t.columns[k].name != t.columns[j].name
    ensures |t.rows[i]| == |t.columns|
    ensures t.rows[i][j].CellData? && t.rows[i][j].data != [] ==>
            P.DataByName(h, i, t.columns[j].name) == Some(t.rows[i][j].data)
  {
    hide P.Value, P.GetString, P.UpToNul, P.DataOf, P.ColumnIndex;
    FoundColumn(h, t, j);
    assert SameCell(h, i, j, t.rows[i][j]);
  }

  /** Length, first, middle and last byte: enough to tell the format's column names apart. */
  function Signature(b: bytes): int {
    if b == [] then 0
    else |b| * 0x100_0000 + (b[0] as int) * 0x1_0000 + (b[|b| / 2] as int) * 0x100 + b[|b| - 1]
  }

  lemma {:induction false} SignatureOf(s: string)
    requires |s| > 0 && '\0' < s[0] < 128 as char && '\0' < s[|s| / 2] < 128 as char && '\0' < s[|s| - 1] < 128 as char
    ensures Signature(Ascii(s)) == |s| * 0x100_0000 + (s[0] as int) * 0x1_0000 + (s[|s| / 2] as int) * 0x100 +
            s[|s| - 1] as int
  {
  }
}
