/** Turning a manifest and the files on disk into writer inputs: retained entries keep their IDs,
    new files get fresh ones. */
module BuildInputs {
  import opened BitOps
  import opened Bytes
  import opened Wrappers
  import M = Manifest
  import W = WriterSpec
  import Emission
  import P5R

  // ----- fresh IDs -----

  const ITOC_IDS := 0x1_0000
  const TOC_IDS := 0x1_0000_0000

  /** The unused IDs below n, ascending. */
  function FreeIds(used: set<u32>, n: nat): (r: seq<u32>)
    requires n <= ITOC_IDS
    ensures forall i :: 0 <= i < |r| ==> r[i] < n && r[i] !in used
    ensures forall i, j :: 0 <= i < j < |r| ==> r[i] < r[j]
  {
    if n == 0 then [] else FreeIds(used, n - 1) + (if n - 1 in used then [] else [n - 1])
  }

  function Taken(used: set<u32>, n: nat): set<u32>
  {
    set id | id in used && id < n
  }

  /** Free and taken IDs make up the whole range. */
  lemma {:induction false} FreeCount(used: set<u32>, n: nat)
    requires n <= ITOC_IDS
    ensures |FreeIds(used, n)| + |Taken(used, n)| == n
    ensures forall id: u32 :: id < n && id !in used ==> id in FreeIds(used, n)
  {
    if n == 0 {
      assert Taken(used, 0) == {};
    } else {
      FreeCount(used, n - 1);
      var last: u32 := n - 1;
      if last in used {
        assert Taken(used, n) == Taken(used, n - 1) + {last};
      } else {
        assert Taken(used, n) == Taken(used, n - 1);
      }
    }
  }

  function Used(ids: seq<u32>): (r: set<u32>)
    ensures forall id :: id in r <==> id in ids
  {
    set id | id in ids
  }

  function MaxId(ids: seq<u32>): (m: u32)
    requires ids != []
    ensures m in ids && forall id :: id in ids ==> id <= m
  {
    var last := ids[|ids| - 1];
    assert ids == ids[..|ids| - 1] + [last];
    if |ids| == 1 then last
    else
      var front := MaxId(ids[..|ids| - 1]);
      if last > front then last else front
  }

  function Consecutive(first: nat, count: nat): (r: seq<u32>)
    requires first + count <= TOC_IDS
    ensures |r| == count && forall i :: 0 <= i < count ==> r[i] == first + i
  {
    seq(count, i requires 0 <= i < count => first + i)
  }

  /** IDs for new files: the lowest free 16-bit IDs with an ITOC, otherwise the IDs after the
      largest retained one. A retained ID of 0xffff_ffff leaves no room even for no file. */
  function NewIds(hasItoc: bool, retained: seq<u32>, count: nat): Option<seq<u32>> {
    if hasItoc then
      var free := FreeIds(Used(retained), ITOC_IDS);
      if count <= |free| then Some(free[..count]) else None
    else if retained != [] && MaxId(retained) == U32_MAX then None
    else
      var first := if retained == [] then 0 else MaxId(retained) + 1;
      if first + count <= TOC_IDS then Some(Consecutive(first, count)) else None
  }

  ghost predicate Distinct(ids: seq<u32>) {
    forall i, j :: 0 <= i < j < |ids| ==> ids[i] != ids[j]
  }

  /** New IDs differ from each other and from every retained ID, and fit the ITOC's 16 bits where
      there is one. */
  lemma {:induction false} NewIdsFresh(hasItoc: bool, retained: seq<u32>, count: nat)
    requires NewIds(hasItoc, retained, count).Some?
    ensures var ids := NewIds(hasItoc, retained, count).value;
      && |ids| == count && Distinct(ids) && (forall i :: 0 <= i < count ==> ids[i] !in retained)
      && (hasItoc ==> forall i :: 0 <= i < count ==> ids[i] <= U16_MAX)
  {
  }

  /** With an ITOC there are IDs for exactly as many new files as the 16-bit range has left. */
  lemma {:induction false} ItocIdsSuffice(retained: seq<u32>, count: nat)
    ensures NewIds(true, retained, count).Some? <==> count + |Taken(Used(retained), ITOC_IDS)| <= ITOC_IDS
  {
    FreeCount(Used(retained), ITOC_IDS);
  }

  /** Without an ITOC there are IDs for exactly as many new files as follow the largest retained
      ID, and for none at all once that is the last one. */
  lemma {:induction false} TocIdsSuffice(retained: seq<u32>, count: nat)
    ensures NewIds(false, retained, count).Some? <==>
              if retained == [] then count <= TOC_IDS
              else MaxId(retained) < U32_MAX && MaxId(retained) + 1 + count <= TOC_IDS
  {
  }

  /** A retained ID of 0xffff_ffff refuses even an empty list of new files, with every other ID
      unused. */
  lemma {:induction false} LastIdBlocks(retained: seq<u32>, count: nat)
    requires U32_MAX in retained
    ensures NewIds(false, retained, count) == None
    ensures NewIds(false, [U32_MAX], 0) == None && Used([U32_MAX]) == {U32_MAX}
  {
    assert MaxId(retained) == U32_MAX;
    var one: seq<u32> := [U32_MAX];
    assert MaxId(one) == U32_MAX;
  }

  // ----- inputs -----

  datatype DiskFile = DiskFile(content: bytes, hash: u64)

  datatype NewFile = NewFile(directory: bytes, fileName: bytes, content: bytes)

  /** A manifest entry whose file is present. Its packed bytes are reused only on request and only
      if size and hash are unchanged. */
  function RetainedInput(e: M.Entry, d: DiskFile, reuse: bool, archive: bytes): Option<W.InputFile> {
    if |d.content| > U32_MAX then None
    else if reuse && |d.content| == e.extractedSize && d.hash == e.extractedHash then
      Some(W.InputFile(e.directory, e.fileName, W.FromArchive(archive, e.packedOffset, e.packedSize), e.packedSize,
                       e.extractedSize, e.id, e.userString))
    else
      Some(W.InputFile(e.directory, e.fileName, W.FromFile(d.content), |d.content|, |d.content|, e.id, e.userString))
  }

  function NewInput(f: NewFile, id: u32): Option<W.InputFile> {
    if |f.content| > U32_MAX then None
    else Some(W.InputFile(f.directory, f.fileName, W.FromFile(f.content), |f.content|, |f.content|, id, []))
  }

  /** Entries whose file is gone are dropped. */
  function RetainedInputs(entries: seq<M.Entry>, disk: seq<Option<DiskFile>>, reuse: bool, archive: bytes,
        n: nat): Option<seq<W.InputFile>>
    requires n <= |entries| == |disk|
  {
    if n == 0 then Some([])
    else
      var front :- RetainedInputs(entries, disk, reuse, archive, n - 1);
      if disk[n - 1].None? then Some(front)
      else
        var f :- RetainedInput(entries[n - 1], disk[n - 1].value, reuse, archive);
        Some(front + [f])
  }

  function NewInputs(files: seq<NewFile>, ids: seq<u32>, n: nat): (r: Option<seq<W.InputFile>>)
    requires n <= |files| && n <= |ids|
    ensures r.Some? ==> |r.value| == n && forall i :: 0 <= i < n ==> r.value[i].id == ids[i]
  {
    if n == 0 then Some([])
    else
      var front :- NewInputs(files, ids, n - 1);
      var f :- NewInput(files[n - 1], ids[n - 1]);
      Some(front + [f])
  }

  function IdsOf(files: seq<W.InputFile>): (r: seq<u32>)
    ensures |r| == |files|
  {
    seq(|files|, i requires 0 <= i < |files| => files[i].id)
  }

  /** What the disk holds for a manifest. */
  datatype Tree = Tree(disk: seq<Option<DiskFile>>, newFiles: seq<NewFile>, archive: bytes, original: bool)

  function Inputs(m: M.Manifest, t: Tree, reuse: bool): Option<seq<W.InputFile>>
    requires |t.disk| == |m.entries|
  {
    if reuse && !t.original then None
    else
      var retained :- RetainedInputs(m.entries, t.disk, reuse, t.archive, |m.entries|);
      var ids :- NewIds(m.hasItoc, IdsOf(retained), |t.newFiles|);
      NewIdsFresh(m.hasItoc, IdsOf(retained), |t.newFiles|);
      var more :- NewInputs(t.newFiles, ids, |t.newFiles|);
      Some(retained + more)
  }

  // ----- the writer's checks -----

  ghost predicate ItocIds(ids: seq<u32>) {
    Distinct(ids) && forall i :: 0 <= i < |ids| ==> ids[i] <= U16_MAX
  }

  lemma {:induction false} IdsPass(files: seq<W.InputFile>, n: nat)
    requires n <= |files|
    ensures W.CheckIds(files, n).None? <==> ItocIds(IdsOf(files)[..n])
  {
    var ids := IdsOf(files);
    if n > 0 {
      IdsPass(files, n - 1);
      ItocIdsSnoc(ids, n);
      assert forall j :: 0 <= j < n ==> ids[j] == files[j].id;
      assert (exists j :: 0 <= j < n - 1 && files[j].id == files[n - 1].id) <==>
          !forall j :: 0 <= j < n - 1 ==> ids[j] != ids[n - 1];
    }
  }

  lemma {:induction false} ItocIdsSnoc(ids: seq<u32>, n: nat)
    requires 0 < n <= |ids|
    ensures ItocIds(ids[..n]) <==> ItocIds(ids[..n - 1]) && ids[n - 1] <= U16_MAX && forall j :: 0 <= j < n - 1 ==>
            ids[j] != ids[n - 1]
  {
    var longer, shorter, last := ids[..n], ids[..n - 1], ids[n - 1];
    assert longer == shorter + [last];
    ItocIdsJoin(shorter, [last]);
    if ItocIds(longer) {
      assert longer[n - 1] == last;
      forall j | 0 <= j < n - 1 ensures ids[j] != last {
        assert longer[j] == ids[j];
      }
    }
  }

  /** In ITOC modes the writer's range and duplicate checks pass exactly when the retained IDs are
      unique 16-bit numbers: IDs of new files never make them fail. */
  lemma {:induction false} WriterAcceptsIds(m: M.Manifest, t: Tree, reuse: bool)
    requires m.hasItoc && |t.disk| == |m.entries| && Inputs(m, t, reuse).Some?
    ensures var retained := RetainedInputs(m.entries, t.disk, reuse, t.archive, |m.entries|);
      && retained.Some?
      && var order := W.PhysicalOrder(Inputs(m, t, reuse).value, M.WriterProfile(m));
         order.Ok? <==> ItocIds(IdsOf(retained.value))
  {
    hide RetainedInputs, NewInputs, NewIds, W.CheckIds;
    var retained := RetainedInputs(m.entries, t.disk, reuse, t.archive, |m.entries|).value;
    var ids := NewIds(m.hasItoc, IdsOf(retained), |t.newFiles|).value;
    NewIdsFresh(m.hasItoc, IdsOf(retained), |t.newFiles|);
    var files := Inputs(m, t, reuse).value;
    assert IdsOf(files) == IdsOf(retained) + ids;
    IdsPass(files, |files|);
    assert IdsOf(files)[..|files|] == IdsOf(files);
    ItocIdsJoin(IdsOf(retained), ids);
  }

  lemma {:induction false} ItocIdsJoin(a: seq<u32>, b: seq<u32>)
    ensures ItocIds(b) && (forall i :: 0 <= i < |b| ==> b[i] !in a) ==> (ItocIds(a + b) <==> ItocIds(a))
    ensures ItocIds(a + b) ==> ItocIds(a)
  {
    var c := a + b;
    if ItocIds(c) {
      forall i, j | 0 <= i < j < |a| ensures a[i] != a[j] {
        assert c[i] == a[i] && c[j] == a[j];
      }
      forall i | 0 <= i < |a| ensures a[i] <= U16_MAX {
        assert c[i] == a[i];
      }
    }
  }

  /** The packed bytes are taken from the source archive exactly when reuse was asked for and neither
      size nor hash has changed; any other file is packed from disk as it is now. */
  ghost predicate Retains(f: W.InputFile, e: M.Entry, d: DiskFile, reuse: bool, archive: bytes) {
    var same := |d.content| == e.extractedSize && d.hash == e.extractedHash;
    && f.id == e.id && f.directory == e.directory && f.fileName == e.fileName && f.userString == e.userString
    && f.extractSize == |d.content|
    && (reuse && same ==> f.source == W.FromArchive(archive, e.packedOffset, e.packedSize) && f.size == e.packedSize)
    && (!(reuse && same) ==> f.source == W.FromFile(d.content) && f.size == |d.content|)
  }

  /** A file that can be packed keeps its entry's ID and names, its extract size is its size on disk,
      and its payload is refused only when the packed range lies outside the archive. */
  lemma {:induction false} RetainedInputFacts(e: M.Entry, d: DiskFile, reuse: bool, archive: bytes, p5r: bool,
        target: P5R.Target)
    ensures RetainedInput(e, d, reuse, archive).Some? <==> |d.content| <= U32_MAX
    ensures |d.content| <= U32_MAX ==>
      var f := RetainedInput(e, d, reuse, archive).value;
      && Retains(f, e, d, reuse, archive)
      && (Emission.Payload(f, p5r, target).Ok? <==>
            (f.source.FromArchive? ==> e.packedSize == 0 || e.packedOffset + e.packedSize <= |archive|))
  {
  }

  /** The entries whose file is present, in order. */
  function Present(disk: seq<Option<DiskFile>>, n: nat): (r: seq<nat>)
    requires n <= |disk|
    ensures forall k :: 0 <= k < |r| ==> r[k] < n && disk[r[k]].Some?
    ensures forall i :: 0 <= i < n && disk[i].Some? ==> i in r
    ensures forall j, k :: 0 <= j < k < |r| ==> r[j] < r[k]
  {
    if n == 0 then [] else Present(disk, n - 1) + (if disk[n - 1].Some? then [n - 1] else [])
  }

  lemma {:induction false} RetainedAre(entries: seq<M.Entry>, disk: seq<Option<DiskFile>>, reuse: bool, archive: bytes,
        n: nat)
    requires n <= |entries| == |disk| && RetainedInputs(entries, disk, reuse, archive, n).Some?
    ensures var files, present := RetainedInputs(entries, disk, reuse, archive, n).value, Present(disk, n);
      && |files| == |present|
      && forall k :: 0 <= k < |files| ==>
           Retains(files[k], entries[present[k]], disk[present[k]].value, reuse, archive)
  {
    hide Retains, RetainedInput;
    if n > 0 {
      RetainedAre(entries, disk, reuse, archive, n - 1);
      if disk[n - 1].Some? {
        RetainedInputFacts(entries[n - 1], disk[n - 1].value, reuse, archive, false, P5R.Avx2);
      }
    }
  }

  /** A new file is packed from disk under its own names, without a user string. */
  ghost predicate Adds(f: W.InputFile, file: NewFile, id: u32) {
    && f.directory == file.directory && f.fileName == file.fileName && f.source == W.FromFile(file.content)
    && f.size == |file.content| && f.extractSize == |file.content| && f.id == id && f.userString == []
  }

  lemma {:induction false} NewAre(files: seq<NewFile>, ids: seq<u32>, n: nat)
    requires n <= |files| && n <= |ids| && NewInputs(files, ids, n).Some?
    ensures forall k :: 0 <= k < n ==> Adds(NewInputs(files, ids, n).value[k], files[k], ids[k])
  {
    if n > 0 {
      NewAre(files, ids, n - 1);
    }
  }

  /** What the writer is given: first one input for each entry whose file is present, in manifest
      order, then one for each new file, in the given order and with the next new ID; raw reuse is
      refused when the source archive has changed. */
  lemma {:induction false} InputsAre(m: M.Manifest, t: Tree, reuse: bool)
    requires |t.disk| == |m.entries| && Inputs(m, t, reuse).Some?
    ensures reuse ==> t.original
    ensures var files, present := Inputs(m, t, reuse).value, Present(t.disk, |m.entries|);
      && |files| == |present| + |t.newFiles|
      && (forall k :: 0 <= k < |present| ==>
            Retains(files[k], m.entries[present[k]], t.disk[present[k]].value, reuse, t.archive))
      && var ids := NewIds(m.hasItoc, IdsOf(files[..|present|]), |t.newFiles|);
         && ids.Some? && |ids.value| == |t.newFiles|
         && forall k :: 0 <= k < |t.newFiles| ==> Adds(files[|present| + k], t.newFiles[k], ids.value[k])
  {
    hide RetainedInputs, NewInputs, NewIds, Retains, Adds, Present;
    var retained := RetainedInputs(m.entries, t.disk, reuse, t.archive, |m.entries|).value;
    var ids := NewIds(m.hasItoc, IdsOf(retained), |t.newFiles|).value;
    NewIdsFresh(m.hasItoc, IdsOf(retained), |t.newFiles|);
    var more := NewInputs(t.newFiles, ids, |t.newFiles|).value;
    RetainedAre(m.entries, t.disk, reuse, t.archive, |m.entries|);
    NewAre(t.newFiles, ids, |t.newFiles|);
    assert Inputs(m, t, reuse).value == retained + more;
    assert (retained + more)[..|retained|] == retained;
  }

  // ----- the loops -----

  method CollectFreeIds(used: set<u32>) returns (free: seq<u32>)
    ensures free == FreeIds(used, ITOC_IDS)
  {
    free := [];
    for id := 0 to ITOC_IDS
      invariant free == FreeIds(used, id)
    {
      if id !in used {
        free := free + [id];
      }
    }
  }

  /** The first unused ID from the given one on, if there is any. */
  method SkipUsed(used: set<u32>, start: u32) returns (r: Option<u32>)
    ensures r.Some? ==> start <= r.value && r.value !in used && forall id: u32 :: start <= id < r.value ==> id in used
    ensures r.None? ==> forall id: u32 :: start <= id ==> id in used
  {
    var next: u32 := start;
    while next in used
      invariant start <= next && forall id: u32 :: start <= id < next ==> id in used
      decreases U32_MAX - next
    {
      if next == U32_MAX { return None; }
      next := next + 1;
    }
    r := Some(next);
  }

  /** IDs one new file at a time: from the front of the free queue, or counting up. */
  method AssignIds(hasItoc: bool, retained: seq<u32>, count: nat) returns (r: Option<seq<u32>>)
    ensures r == NewIds(hasItoc, retained, count)
  {
    var usedIds := Used(retained);
    if hasItoc {
      var freeIds := CollectFreeIds(usedIds);
      ghost var all := freeIds;
      var ids: seq<u32> := [];
      for i := 0 to count
        invariant i <= |all| && ids == all[..i] && freeIds == all[i..]
      {
        if freeIds == [] { return None; }
        ids, freeIds := ids + [freeIds[0]], freeIds[1..];
      }
      return Some(ids);
    }
    r := CountUp(retained, count);
  }

  method CountUp(retained: seq<u32>, count: nat) returns (r: Option<seq<u32>>)
    ensures r == NewIds(false, retained, count)
  {
    var usedIds := Used(retained);
    var next: u32 := if retained == [] then 0 else MaxId(retained);
    if retained != [] {
      if next == U32_MAX { return None; }
      next := next + 1;
    }
    ghost var first := next;
    var ids: seq<u32> := [];
    for i := 0 to count
      invariant first + i <= TOC_IDS && ids == Consecutive(first, i)
      invariant next == if first + i < TOC_IDS then first + i else U32_MAX
      invariant forall id :: id in usedIds <==> id in retained || id in ids
    {
      UsedUp(retained, first, ids, usedIds, next);
      var skipped := SkipUsed(usedIds, next);
      if skipped.None? { return None; }
      ids := ids + [skipped.value];
      usedIds := usedIds + {skipped.value};
      next := if skipped.value != U32_MAX then skipped.value + 1 else U32_MAX;
    }
    r := Some(ids);
  }

  /** Counting up, the next ID is taken exactly when the range is used up. */
  lemma {:induction false} UsedUp(retained: seq<u32>, first: u32, ids: seq<u32>, used: set<u32>, next: u32)
    requires first + |ids| <= TOC_IDS && ids == Consecutive(first, |ids|)
    requires forall id :: id in retained ==> id < first
    requires forall id :: id in used <==> id in retained || id in ids
    requires next == if first + |ids| < TOC_IDS then first + |ids| else U32_MAX
    ensures next in used <==> first + |ids| == TOC_IDS
  {
    assert forall id :: id in ids ==> id < first + |ids|;
    if first + |ids| == TOC_IDS {
      assert ids[|ids| - 1] == next;
    }
  }

  /** The inputs the writer is given. */
  method CollectInputs(m: M.Manifest, t: Tree, reuse: bool) returns (r: Option<seq<W.InputFile>>)
    requires |t.disk| == |m.entries|
    ensures r == Inputs(m, t, reuse)
  {
    hide RetainedInput, NewInput, NewIds;
    if reuse && !t.original { return None; }
    var files: seq<W.InputFile> := [];
    for i := 0 to |m.entries|
      invariant RetainedInputs(m.entries, t.disk, reuse, t.archive, i) == Some(files)
    {
      if t.disk[i].Some? {
        var f := RetainedInput(m.entries[i], t.disk[i].value, reuse, t.archive);
        if f.None? {
          RetainedStop(m.entries, t.disk, reuse, t.archive, i + 1, |m.entries|);
          return None;
        }
        files := files + [f.value];
      }
    }
    ghost var retained := files;
    var ids :- AssignIds(m.hasItoc, IdsOf(files), |t.newFiles|);
    NewIdsFresh(m.hasItoc, IdsOf(files), |t.newFiles|);
    for i := 0 to |t.newFiles|
      invariant NewInputs(t.newFiles, ids, i).Some? && files == retained + NewInputs(t.newFiles, ids, i).value
    {
      var f := NewInput(t.newFiles[i], ids[i]);
      if f.None? {
        NewStop(t.newFiles, ids, i + 1, |t.newFiles|);
        return None;
      }
      files := files + [f.value];
    }
    r := Some(files);
  }

  lemma {:induction false} RetainedStop(entries: seq<M.Entry>, disk: seq<Option<DiskFile>>, reuse: bool,
        archive: bytes, m: nat, n: nat)
    requires m <= n <= |entries| == |disk| && RetainedInputs(entries, disk, reuse, archive, m).None?
    ensures RetainedInputs(entries, disk, reuse, archive, n).None?
  {
    if m < n {
      RetainedStop(entries, disk, reuse, archive, m, n - 1);
    }
  }

  lemma {:induction false} NewStop(files: seq<NewFile>, ids: seq<u32>, m: nat, n: nat)
    requires m <= n <= |files| && n <= |ids| && NewInputs(files, ids, m).None?
    ensures NewInputs(files, ids, n).None?
  {
    if m < n {
      NewStop(files, ids, m, n - 1);
    }
  }
}
