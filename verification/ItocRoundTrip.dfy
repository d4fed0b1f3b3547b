/** ITOC rows read back, and the two nested tables merge into the physical order. */
module ItocRoundTrip {
  import opened BitOps
  import opened Bytes
  import opened Wrappers
  import opened Layout
  import opened Sorting
  import opened WriterSpec
  import opened UtfRoundTrip
  import opened Lookup
  import R = ReaderSpec
  import P = UtfParse

  // ----- rows of one table -----

  function RowOf(f: InputFile): R.ItocRow {
    R.ItocRow(f.id, f.size, f.extractSize, None)
  }

  function RowsOf(files: seq<InputFile>, indices: seq<nat>): (r: seq<R.ItocRow>)
    requires forall k :: 0 <= k < |indices| ==> indices[k] < |files|
    ensures |r| == |indices|
  {
    seq(|indices|, k requires 0 <= k < |indices| => RowOf(files[indices[k]]))
  }

  lemma {:induction false} ItocNames(low: bool)
    ensures var c := ItocColumns(low);
      && |c| == 3 && CleanNames(c)
      && c[0].name == Ascii("ID") && c[1].name == Ascii("FileSize") && c[2].name == Ascii("ExtractSize")
      && (forall i, j :: 0 <= i < j < 3 ==> c[i].name != c[j].name)
      && (forall j :: 0 <= j < 3 ==> c[j].name != Ascii("FileCrc"))
  {
    assert |Ascii("ID")| == 2 && |Ascii("FileSize")| == 8 && |Ascii("ExtractSize")| == 11 && |Ascii("FileCrc")| == 7;
  }

  lemma {:induction false} ItocColumnsFound(h: P.HighTable, files: seq<InputFile>, indices: seq<nat>, low: bool,
        name: bytes)
    requires AllInTable(files, indices, low) && Mirrors(h, ItocRowsTable(files, indices, low, name))
    ensures R.ColumnOr(h, "ID", 0) == 0 && R.ColumnOr(h, "FileSize", 1) == 1 && R.ColumnOr(h, "ExtractSize", 2) == 2
    ensures P.ColumnIndex(h, Ascii("FileCrc")) == None
  {
    var t := ItocRowsTable(files, indices, low, name);
    ItocNames(low);
    assert t.columns == ItocColumns(low);
    hide Mirrors, ItocRowsTable, P.ColumnIndex, Ascii, ItocColumns;
    FoundColumn(h, t, 0);
    FoundColumn(h, t, 1);
    FoundColumn(h, t, 2);
    AbsentColumn(h, t, Ascii("FileCrc"));
  }

  lemma {:induction false} ItocRowReads(h: P.HighTable, files: seq<InputFile>, indices: seq<nat>, low: bool,
        name: bytes, k: nat)
    requires AllInTable(files, indices, low) && Mirrors(h, ItocRowsTable(files, indices, low, name)) && k < |indices|
    ensures R.CollectRow(h, k) == Ok(RowOf(files[indices[k]]))
  {
    var t, f := ItocRowsTable(files, indices, low, name), files[indices[k]];
    assert t.rows[k] == ItocRow(f, low) && |t.columns| == 3 && |t.rows| == |indices|;
    hide Mirrors, ItocRowsTable, R.NumericAt, R.ColumnOr, P.ColumnIndex, Ascii, R.CollectRow, AllInTable;
    ItocColumnsFound(h, files, indices, low, name);
    NumberCell(h, t, k, 0);
    NumberCell(h, t, k, 1);
    NumberCell(h, t, k, 2);
    CollectIs(h, f, k);
  }

  lemma {:induction false} CollectIs(h: P.HighTable, f: InputFile, k: nat)
    requires R.ColumnOr(h, "ID", 0) == 0 && R.ColumnOr(h, "FileSize", 1) == 1 && R.ColumnOr(h, "ExtractSize", 2) == 2
    requires P.ColumnIndex(h, Ascii("FileCrc")) == None
    requires R.NumericAt(h, k, 0) == Some(f.id) && R.NumericAt(h, k, 1) == Some(f.size)
    requires R.NumericAt(h, k, 2) == Some(f.extractSize)
    ensures R.CollectRow(h, k) == Ok(RowOf(f))
  {
    hide R.NumericAt, R.ColumnOr, P.ColumnIndex, Ascii;
  }

  lemma {:induction false} RowsCollected(h: P.HighTable, rows: seq<R.ItocRow>, n: nat)
    requires n <= |rows| && forall k :: 0 <= k < |rows| ==> R.CollectRow(h, k) == Ok(rows[k])
    ensures R.CollectRows(h, n) == Ok(rows[..n])
  {
    hide R.CollectRow;
    if n == 0 {
      assert rows[..0] == [];
    } else {
      RowsCollected(h, rows, n - 1);
      assert rows[..n] == rows[..n - 1] + [rows[n - 1]];
    }
  }

  /** Every row of a written table is collected, in order. */
  lemma {:induction false} ItocRowsRead(h: P.HighTable, files: seq<InputFile>, indices: seq<nat>, low: bool,
        name: bytes)
    requires AllInTable(files, indices, low) && Mirrors(h, ItocRowsTable(files, indices, low, name))
    ensures R.CollectRows(h, |h.rows|) == Ok(RowsOf(files, indices))
  {
    assert |h.rows| == |indices|;
    hide Mirrors, ItocRowsTable, R.CollectRow, R.CollectRows, RowOf, InTable;
    var rows := RowsOf(files, indices);
    forall k | 0 <= k < |rows| ensures R.CollectRow(h, k) == Ok(rows[k]) {
      ItocRowReads(h, files, indices, low, name, k);
    }
    RowsCollected(h, rows, |rows|);
    assert rows[..|rows|] == rows;
  }

  // ----- the two groups -----

  /** DataL followed by DataH holds the rows of the physical order, permuted. */
  lemma {:induction false} GroupsPermute(files: seq<InputFile>, order: seq<nat>)
    requires forall k :: 0 <= k < |order| ==> order[k] < |files|
    ensures multiset(RowsOf(files, Group(files, order, true)) + RowsOf(files, Group(files, order, false)))
         == multiset(RowsOf(files, order))
  {
    var low, high := Group(files, order, true), Group(files, order, false);
    if order == [] {
      assert RowsOf(files, low) + RowsOf(files, high) == RowsOf(files, order);
    } else {
      var n, last := |order| - 1, order[|order| - 1];
      var front := order[..n];
      GroupsPermute(files, front);
      var l, h := RowsOf(files, Group(files, front, true)), RowsOf(files, Group(files, front, false));
      RowsSnoc(files, front, last);
      assert order == front + [last];
      if IsLow(files[last]) {
        RowsSnoc(files, Group(files, front, true), last);
      } else {
        RowsSnoc(files, Group(files, front, false), last);
      }
    }
  }

  lemma {:induction false} RowsSnoc(files: seq<InputFile>, indices: seq<nat>, i: nat)
    requires i < |files| && forall k :: 0 <= k < |indices| ==> indices[k] < |files|
    ensures RowsOf(files, indices + [i]) == RowsOf(files, indices) + [RowOf(files[i])]
  {
  }

  lemma {:induction false} RowsStrict(files: seq<InputFile>, order: seq<nat>)
    requires OrderOk(files, order) && StrictlySorted(order, IdOf(files))
    ensures StrictlySorted(RowsOf(files, order), R.RowId())
  {
    var rows := RowsOf(files, order);
    forall i, j | 0 <= i < j < |rows| ensures R.RowId()(rows[i]) < R.RowId()(rows[j]) {
      assert IdOf(files)(order[i]) < IdOf(files)(order[j]);
    }
  }

  /** Sorting any permutation of the physical order's rows by ID gives back that order. */
  lemma {:induction false} SortingMerges(files: seq<InputFile>, order: seq<nat>, rows: seq<R.ItocRow>)
    requires OrderOk(files, order) && StrictlySorted(order, IdOf(files))
    requires multiset(rows) == multiset(RowsOf(files, order))
    ensures SortBy(rows, R.RowId()) == RowsOf(files, order)
    ensures R.NoAdjacentDuplicate(RowsOf(files, order))
  {
    var want, key := RowsOf(files, order), R.RowId();
    RowsStrict(files, order);
    assert DistinctKeys(want, key);
    DistinctPermuted(want, rows, key);
    SortStrict(rows, key);
    SortSorts(rows, key);
    SortedUnique(SortBy(rows, key), want, key);
    forall k | 0 <= k < |want| - 1 ensures want[k].id != want[k + 1].id {
      assert key(want[k]) < key(want[k + 1]);
    }
  }

  // ----- two-table offsets -----

  /** Aligned sizes of the rows with an ID below the given one. */
  function SumBelow(files: seq<InputFile>, indices: seq<nat>, id: nat, a: nat): nat
    requires a > 0 && forall k :: 0 <= k < |indices| ==> indices[k] < |files|
  {
    if indices == [] then 0
    else
      var last := files[indices[|indices| - 1]];
      SumBelow(files, indices[..|indices| - 1], id, a) + (if last.id < id then Up(last.size, a) else 0)
  }

  lemma {:induction false} GroupsSum(files: seq<InputFile>, order: seq<nat>, id: nat, a: nat)
    requires a > 0 && forall k :: 0 <= k < |order| ==> order[k] < |files|
    ensures SumBelow(files, Group(files, order, true), id, a) + SumBelow(files, Group(files, order, false), id, a)
         == SumBelow(files, order, id, a)
  {
    if order != [] {
      GroupsSum(files, order[..|order| - 1], id, a);
    }
  }

  lemma {:induction false} SumIsStart(files: seq<InputFile>, order: seq<nat>, a: nat, k: nat, n: nat)
    requires a > 0 && OrderOk(files, order) && StrictlySorted(order, IdOf(files)) && k < |order| && n <= |order|
    ensures SumBelow(files, order[..n], files[order[k]].id, a) ==
            Start(SizesInOrder(files, order), 0, a, if n <= k then n else k)
  {
    if n > 0 {
      var sizes, id := SizesInOrder(files, order), files[order[k]].id;
      assert sizes[n - 1] == files[order[n - 1]].size;
      assert n - 1 < k ==> IdOf(files)(order[n - 1]) < IdOf(files)(order[k]);
      assert k < n - 1 ==> IdOf(files)(order[k]) < IdOf(files)(order[n - 1]);
      SumIsStart(files, order, a, k, n - 1);
      hide StrictlySorted, SizesInOrder, SumBelow, Up;
      SumSnoc(files, order, id, a, n - 1);
    }
  }

  lemma {:induction false} SumSnoc(files: seq<InputFile>, order: seq<nat>, id: nat, a: nat, n: nat)
    requires a > 0 && n < |order| && forall k :: 0 <= k < |order| ==> order[k] < |files|
    ensures SumBelow(files, order[..n + 1], id, a) ==
            SumBelow(files, order[..n], id, a) + (if files[order[n]].id < id then Up(files[order[n]].size, a) else 0)
  {
    assert order[..n + 1][..n] == order[..n];
  }

  /** For every ID, the content offset plus the aligned sizes of the DataL rows below it plus those
      of the DataH rows below it is the payload's place in the merged layout. */
  lemma {:induction false} TwoTableLookup(files: seq<InputFile>, order: seq<nat>, base: nat, a: nat, k: nat)
    requires a > 0 && OrderOk(files, order) && StrictlySorted(order, IdOf(files)) && k < |order|
    ensures base + SumBelow(files, Group(files, order, true), files[order[k]].id, a)
                 + SumBelow(files, Group(files, order, false), files[order[k]].id, a)
         == Start(SizesInOrder(files, order), base, a, k)
  {
    GroupsSum(files, order, files[order[k]].id, a);
    SumIsStart(files, order, a, k, |order|);
    assert order[..|order|] == order;
    StartShift(SizesInOrder(files, order), base, a, k);
  }

  // ----- entries -----

  /** The entry an ITOC row reads back as. */
  function ItocEntry(f: InputFile, relative: u64, base: u64): R.CpkFile
    requires base + relative <= U64_MAX
  {
    R.CpkFile([], R.ItocFileName(f.id), relative, base + relative, f.size,
      R.EffectiveExtractSize(f.size, f.extractSize), Some(f.id), [], None)
  }

  /** Where each payload starts, counted from the content. */
  function Starts(files: seq<InputFile>, order: seq<nat>, a: nat): (r: seq<nat>)
    requires a > 0 && forall k :: 0 <= k < |order| ==> order[k] < |files|
    ensures |r| == |order| + 1
  {
    seq(|order| + 1, k requires 0 <= k <= |order| => Start(SizesInOrder(files, order), 0, a, k))
  }

  /** The entries of an ITOC in physical order. */
  function ItocEntries(files: seq<InputFile>, order: seq<nat>, base: u64, starts: seq<nat>): (r: seq<R.CpkFile>)
    requires |starts| == |order| + 1 && forall k :: 0 <= k < |order| ==> order[k] < |files|
    requires forall k :: 0 <= k <= |order| ==> base + starts[k] <= U64_MAX
    ensures |r| == |order|
  {
    seq(|order|, k requires 0 <= k < |order| => ItocEntry(files[order[k]], starts[k], base))
  }

  lemma {:induction false} StartsStep(files: seq<InputFile>, order: seq<nat>, a: nat, k: nat)
    requires a > 0 && (forall k :: 0 <= k < |order| ==> order[k] < |files|) && k < |order|
    ensures Starts(files, order, a)[0] == 0
    ensures Starts(files, order, a)[k + 1] == Starts(files, order, a)[k] + Up(files[order[k]].size, a)
  {
    var sizes := SizesInOrder(files, order);
    assert Start(sizes, 0, a, k + 1) == Start(sizes, 0, a, k) + Up(sizes[k], a);
  }

  /** One step of the reader's loop: the row at `before` becomes this entry and moves the offset
      to `after`. */
  predicate Step(row: R.ItocRow, entry: R.CpkFile, before: nat, after: nat, base: u64, a: nat) {
    && base + before <= U64_MAX && before <= after <= U64_MAX
    && ReaderAlignUp(row.fileSize, a) == Some(after - before)
    && entry == R.CpkFile([], R.ItocFileName(row.id), before, base + before, row.fileSize,
                          R.EffectiveExtractSize(row.fileSize, row.extractSize), Some(row.id), [], row.fileCrc)
  }

  lemma {:induction false} Materialized(rows: seq<R.ItocRow>, entries: seq<R.CpkFile>, starts: seq<nat>, base: u64,
        a: nat, n: nat)
    requires n <= |rows| == |entries| && |starts| == |rows| + 1 && starts[0] == 0
    requires forall k :: 0 <= k < |rows| ==> Step(rows[k], entries[k], starts[k], starts[k + 1], base, a)
    ensures starts[n] <= U64_MAX && R.Materialize(rows, base, a, n) == Ok((entries[..n], starts[n]))
  {
    hide ReaderAlignUp, R.ItocFileName;
    if n == 0 {
      assert entries[..0] == [];
    } else {
      assert Step(rows[n - 1], entries[n - 1], starts[n - 1], starts[n - 1 + 1], base, a);
      Materialized(rows, entries, starts, base, a, n - 1);
      assert entries[..n] == entries[..n - 1] + [entries[n - 1]];
    }
  }

  /** The reader's running relative offset is the writer's payload start, entry by entry. */
  lemma {:induction false} MaterializeReads(files: seq<InputFile>, order: seq<nat>, base: u64, a: nat)
    requires a > 0 && forall k :: 0 <= k < |order| ==> order[k] < |files|
    requires forall k :: 0 <= k <= |order| ==> base + Starts(files, order, a)[k] <= U64_MAX
    ensures var starts := Starts(files, order, a);
      R.Materialize(RowsOf(files, order), base, a, |order|) ==
          Ok((ItocEntries(files, order, base, starts), starts[|order|]))
  {
    var starts, rows := Starts(files, order, a), RowsOf(files, order);
    var entries := ItocEntries(files, order, base, starts);
    assert starts[0] == 0;
    forall k | 0 <= k < |rows| ensures Step(rows[k], entries[k], starts[k], starts[k + 1], base, a) {
      StepTaken(files, order, base, a, k);
    }
    hide *;
    Materialized(rows, entries, starts, base, a, |rows|);
    assert entries[..|rows|] == entries;
  }

  lemma {:induction false} StepTaken(files: seq<InputFile>, order: seq<nat>, base: u64, a: nat, k: nat)
    requires a > 0 && (forall k :: 0 <= k < |order| ==> order[k] < |files|) && k < |order|
    requires forall k :: 0 <= k <= |order| ==> base + Starts(files, order, a)[k] <= U64_MAX
    ensures var starts := Starts(files, order, a);
      Step(RowsOf(files, order)[k], ItocEntries(files, order, base, starts)[k], starts[k], starts[k + 1], base, a)
  {
    var f, starts := files[order[k]], Starts(files, order, a);
    assert RowsOf(files, order)[k] == RowOf(f) &&
        ItocEntries(files, order, base, starts)[k] == ItocEntry(f, starts[k], base);
    StartsStep(files, order, a, k);
    hide Starts, Up, ReaderAlignUp, R.ItocFileName, RowsOf, ItocEntries;
    assert base + starts[k] <= U64_MAX && base + starts[k + 1] <= U64_MAX;
    RemainderRoundsUp(f.size, a);
  }
}
