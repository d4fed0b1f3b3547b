/** The slab allocator on sets of block numbers: first-fit search, allocation runs, and what every
    run keeps. */
module FreeListSpec {
  import opened Wrappers

  /** Blocks are handed out only while the window ends at or below this number. */
  const LAST_BLOCK := 255

  /** The search looks at no more than this many blocks of a window. */
  const SEARCH_WIDTH := 64

  datatype Range = Range(start: nat, blocks: nat) {
    predicate Has(k: nat) {
      start <= k < start + blocks
    }
  }

  function Min(a: nat, b: nat): nat {
    if a <= b then a else b
  }

  function Window(start: nat, len: nat): set<nat> {
    set k: nat | start <= k < start + len && Range(start, len).Has(k)
  }

  /** What the search can see of a window. */
  predicate LooksFree(used: set<nat>, start: nat, blocks: nat) {
    forall k :: start <= k < start + Min(blocks, SEARCH_WIDTH) ==> k !in used
  }

  /** The first start reached in steps of the request whose visible part is free. */
  function FirstFit(used: set<nat>, blocks: nat, start: nat): Option<nat>
    decreases 256 - start
  {
    if start + blocks > LAST_BLOCK then None
    else if blocks == 0 || LooksFree(used, start, blocks) then Some(start)
    else FirstFit(used, blocks, start + blocks)
  }

  datatype State = State(used: set<nat>, live: seq<Range>)

  const EMPTY := State({}, [])

  datatype Op = Allocate(blocks: nat) | Release(index: nat)

  predicate Enabled(s: State, op: Op) {
    op.Release? ==> op.index < |s.live|
  }

  function Without<T>(s: seq<T>, i: nat): seq<T>
    requires i < |s|
  {
    s[..i] + s[i + 1..]
  }

  /** A request that finds no window is served from outside the slab and leaves the map alone. */
  function Step(s: State, op: Op): State
    requires Enabled(s, op)
  {
    match op
    case Allocate(blocks) =>
      (match FirstFit(s.used, blocks, 0)
       case None => s
       case Some(start) => State(s.used + Window(start, blocks), s.live + [Range(start, blocks)]))
    case Release(i) =>
      State(s.used - Window(s.live[i].start, s.live[i].blocks), Without(s.live, i))
  }

  predicate Runnable(s: State, ops: seq<Op>)
    decreases ops
  {
    ops != [] ==> Enabled(s, ops[0]) && Runnable(Step(s, ops[0]), ops[1..])
  }

  function Run(s: State, ops: seq<Op>): State
    requires Runnable(s, ops)
    decreases ops
  {
    if ops == [] then s else Run(Step(s, ops[0]), ops[1..])
  }

  // ----- the search -----

  /** The multiple of the request that the search stops at. */
  ghost predicate IsFirstFit(used: set<nat>, blocks: nat, r: Option<nat>) {
    match r
    case Some(start) =>
      && start + blocks <= 255 && LooksFree(used, start, blocks)
      && (exists n: nat :: start == n * blocks)
      && (forall n: nat :: n * blocks < start ==> !LooksFree(used, n * blocks, blocks))
    case None =>
      forall n: nat :: n * blocks + blocks <= 255 ==> !LooksFree(used, n * blocks, blocks)
  }

  lemma {:induction false} MulBelow(m: nat, n: nat, d: nat)
    requires m * d < n * d
    ensures m < n
  {
  }

  lemma {:induction false} SearchFrom(used: set<nat>, blocks: nat, n: nat)
    requires blocks >= 1
    requires forall m: nat :: m < n ==> !LooksFree(used, m * blocks, blocks)
    ensures IsFirstFit(used, blocks, FirstFit(used, blocks, n * blocks))
    decreases 256 - n * blocks
  {
    var start := n * blocks;
    forall m: nat | m * blocks < start ensures !LooksFree(used, m * blocks, blocks) {
      MulBelow(m, n, blocks);
    }
    if start + blocks > LAST_BLOCK {
      forall m: nat | m * blocks + blocks <= LAST_BLOCK ensures !LooksFree(used, m * blocks, blocks) {
        MulBelow(m, n, blocks);
      }
    } else if !LooksFree(used, start, blocks) {
      assert (n + 1) * blocks == start + blocks;
      SearchFrom(used, blocks, n + 1);
    }
  }

  /** The search returns the smallest multiple of the request that looks free, and reports none
      exactly when there is none inside the slab. */
  lemma {:induction false} SearchIsFirstFit(used: set<nat>, blocks: nat)
    requires blocks >= 1
    ensures IsFirstFit(used, blocks, FirstFit(used, blocks, 0))
    ensures blocks <= 64 ==> forall start :: LooksFree(used, start, blocks) <==> Window(start, blocks) !! used
  {
    SearchFrom(used, blocks, 0);
    if blocks <= SEARCH_WIDTH {
      forall start: nat ensures LooksFree(used, start, blocks) <==> Window(start, blocks) !! used {
        assert forall k :: k in Window(start, blocks) <==> start <= k < start + blocks;
      }
    }
  }

  lemma {:induction false} FitInside(used: set<nat>, blocks: nat, start: nat)
    ensures FirstFit(used, blocks, start).Some? ==>
              var s := FirstFit(used, blocks, start).value;
              s + blocks <= LAST_BLOCK && (blocks >= 1 ==> LooksFree(used, s, blocks))
    decreases 256 - start
  {
    if start + blocks <= LAST_BLOCK && blocks != 0 && !LooksFree(used, start, blocks) {
      FitInside(used, blocks, start + blocks);
    }
  }

  // ----- what every run keeps -----

  ghost predicate Apart(live: seq<Range>) {
    forall i, j, k :: 0 <= i < j < |live| && live[i].Has(k) ==> !live[j].Has(k)
  }

  /** The map holds exactly the blocks of the live ranges, no block twice, all inside the slab. */
  ghost predicate Consistent(s: State) {
    && (forall i :: 0 <= i < |s.live| ==> s.live[i].start + s.live[i].blocks <= 255)
    && (forall i, k :: 0 <= i < |s.live| && s.live[i].Has(k) ==> k in s.used)
    && (forall k :: k in s.used ==> exists i :: 0 <= i < |s.live| && s.live[i].Has(k))
    && Apart(s.live)
  }

  /** Requests the search judges by their whole window, or that cannot fit at all. */
  predicate Judged(blocks: nat) {
    blocks <= 64 || blocks > 255
  }

  lemma {:induction false} AllocateKeeps(s: State, blocks: nat)
    requires Consistent(s) && Judged(blocks)
    ensures Consistent(Step(s, Allocate(blocks)))
  {
    FitInside(s.used, blocks, 0);
    var r := FirstFit(s.used, blocks, 0);
    if r.Some? {
      var s' := Step(s, Allocate(blocks));
      var n := |s.live|;
      assert s'.live[n] == Range(r.value, blocks);
      forall k | k in s'.used ensures exists i :: 0 <= i < |s'.live| && s'.live[i].Has(k) {
        if k in s.used {
          var i :| 0 <= i < |s.live| && s.live[i].Has(k);
          assert s'.live[i].Has(k);
        } else {
          assert s'.live[n].Has(k);
        }
      }
      forall i, j, k | 0 <= i < j < |s'.live| && s'.live[i].Has(k) ensures !s'.live[j].Has(k) {
        if j == n {
          assert s.live[i].Has(k) && k in s.used;
          assert Min(blocks, SEARCH_WIDTH) == blocks;
          assert s'.live[n].Has(k) ==> k !in s.used;
        } else {
          assert s.live[i].Has(k) && s'.live[j] == s.live[j];
        }
      }
    }
  }

  lemma {:induction false} ReleaseKeeps(s: State, i: nat)
    requires Consistent(s) && i < |s.live|
    ensures Consistent(Step(s, Release(i)))
  {
    var s' := Step(s, Release(i));
    forall j | 0 <= j < |s'.live| ensures s'.live[j] == s.live[if j < i then j else j + 1] {
    }
    forall k | k in s'.used ensures exists j :: 0 <= j < |s'.live| && s'.live[j].Has(k) {
      var j :| 0 <= j < |s.live| && s.live[j].Has(k);
      assert s'.live[if j < i then j else j - 1].Has(k);
    }
    forall j, k | 0 <= j < |s'.live| && s'.live[j].Has(k) ensures k in s'.used {
      assert s.live[if j < i then j else j + 1].Has(k);
    }
  }

  /** After any run of requests the search can judge, the occupied blocks are exactly the
      disjoint union of the live ranges. */
  lemma {:induction false} EveryRun(s: State, ops: seq<Op>)
    requires Consistent(s) && Runnable(s, ops)
    requires forall op :: op in ops && op.Allocate? ==> Judged(op.blocks)
    ensures Consistent(Run(s, ops))
    decreases ops
  {
    if ops != [] {
      assert ops[0] in ops;
      if ops[0].Allocate? {
        AllocateKeeps(s, ops[0].blocks);
      } else {
        ReleaseKeeps(s, ops[0].index);
      }
      EveryRun(Step(s, ops[0]), ops[1..]);
    }
  }

  /** Once every range has been given back, the map is empty again. */
  lemma {:induction false} AllReleased(ops: seq<Op>)
    requires Runnable(EMPTY, ops)
    requires forall op :: op in ops && op.Allocate? ==> Judged(op.blocks)
    requires Run(EMPTY, ops).live == []
    ensures Run(EMPTY, ops).used == {}
  {
    EveryRun(EMPTY, ops);
  }

  lemma {:induction false} RunFirst(s: State, op: Op, ops: seq<Op>)
    requires Enabled(s, op) && Runnable(Step(s, op), ops)
    ensures Runnable(s, [op] + ops) && Run(s, [op] + ops) == Run(Step(s, op), ops)
  {
    assert ([op] + ops)[1..] == ops;
  }

  /** Three requests after which a request of 65 to 255 blocks is handed block 64, which is
      still live: the search saw only the 64 blocks before it. */
  lemma {:induction false} LongRequestOverlaps(blocks: nat)
    requires !Judged(blocks)
    ensures var ops := [Allocate(64)] + ([Allocate(1)] + ([Release(0)] + ([Allocate(blocks)] + [])));
      Runnable(EMPTY, ops) && !Apart(Run(EMPTY, ops).live)
  {
    var s1 := Step(EMPTY, Allocate(64));
    assert s1 == State(Window(0, 64), [Range(0, 64)]);
    var s2 := Step(s1, Allocate(1));
    SkipUsed(s1.used, 0);
    assert s2.live == [Range(0, 64), Range(64, 1)];
    var s3 := Step(s2, Release(0));
    assert s3 == State({64}, [Range(64, 1)]);
    var s4 := Step(s3, Allocate(blocks));
    assert LooksFree(s3.used, 0, blocks);
    assert s4.live[0] == Range(64, 1) && s4.live[1] == Range(0, blocks);
    assert s4.live[0].Has(64) && s4.live[1].Has(64);
    RunFirst(s3, Allocate(blocks), []);
    RunFirst(s2, Release(0), [Allocate(blocks)] + []);
    RunFirst(s1, Allocate(1), [Release(0)] + ([Allocate(blocks)] + []));
    RunFirst(EMPTY, Allocate(64), [Allocate(1)] + ([Release(0)] + ([Allocate(blocks)] + [])));
  }

  lemma {:induction false} SkipUsed(used: set<nat>, start: nat)
    requires used == Window(0, 64) && start <= 64
    ensures FirstFit(used, 1, start) == Some(64)
    decreases 64 - start
  {
    if start < 64 {
      assert start in used;
      SkipUsed(used, start + 1);
    }
  }

  /** A request size keeps every consistent map consistent exactly when the search judges it. */
  lemma {:induction false} AllocationSafeIff(blocks: nat)
    ensures (forall s: State :: Consistent(s) ==> Consistent(Step(s, Allocate(blocks)))) <==> Judged(blocks)
  {
    if Judged(blocks) {
      forall s: State | Consistent(s) ensures Consistent(Step(s, Allocate(blocks))) {
        AllocateKeeps(s, blocks);
      }
    } else {
      var s := State({64}, [Range(64, 1)]);
      assert s.live[0].Has(64);
      assert Consistent(s);
      var s' := Step(s, Allocate(blocks));
      assert LooksFree(s.used, 0, blocks);
      assert s'.live[0].Has(64) && s'.live[1].Has(64);
      assert !Apart(s'.live);
    }
  }
}
