/** What a successful plan guarantees: the two passes agree, chunks and payloads are aligned, ordered
    and disjoint. */
module WriterPlan {
  import opened BitOps
  import opened Bytes
  import opened Wrappers
  import opened Layout
  import opened WriterSpec
  import B = UtfBuild

  // ----- probe and final TOC agree in size -----

  /** Rows that differ only in 64-bit numbers. */
  ghost predicate SameShape(a: seq<B.UtfValue>, b: seq<B.UtfValue>) {
    |a| == |b| && forall j :: 0 <= j < |a| ==> a[j] == b[j] || (a[j].CellU64? && b[j].CellU64?)
  }

  lemma {:induction false} ShapeTexts(a: seq<B.UtfValue>, b: seq<B.UtfValue>)
    requires SameShape(a, b)
    ensures B.RowTexts(a) == B.RowTexts(b) && B.RowPayloads(a) == B.RowPayloads(b)
  {
    if a != [] {
      ShapeTexts(a[..|a| - 1], b[..|b| - 1]);
    }
  }

  lemma {:induction false} ShapesTexts(a: seq<seq<B.UtfValue>>, b: seq<seq<B.UtfValue>>)
    requires |a| == |b| && forall i :: 0 <= i < |a| ==> SameShape(a[i], b[i])
    ensures B.RowsTexts(a) == B.RowsTexts(b) && B.RowsPayloads(a) == B.RowsPayloads(b)
  {
    if a != [] {
      ShapesTexts(a[..|a| - 1], b[..|b| - 1]);
      ShapeTexts(a[|a| - 1], b[|b| - 1]);
      forall i | 0 <= i < |a| ensures B.RowsPayloads(a)[i] == B.RowsPayloads(b)[i] {
        ShapeTexts(a[i], b[i]);
      }
    }
  }

  lemma {:induction false} ShapeTyped(a: seq<B.UtfValue>, b: seq<B.UtfValue>, columns: seq<B.UtfColumn>)
    requires SameShape(a, b)
    ensures B.Typed(a, columns) == B.Typed(b, columns)
  {
    forall j | 0 <= j < |a| ensures B.TypeOf(a[j]) == B.TypeOf(b[j]) {
    }
  }

  /** Two tables of one shape are accepted together and are equally long. */
  lemma {:induction false} SameSize(s: B.Table, t: B.Table)
    requires s.name == t.name && s.columns == t.columns && |s.rows| == |t.rows|
    requires forall i :: 0 <= i < |s.rows| ==> SameShape(s.rows[i], t.rows[i])
    ensures B.Accepts(s) == B.Accepts(t)
    ensures B.Accepts(s) ==> |B.TableBytes(s)| == |B.TableBytes(t)|
  {
    hide *;
    SameTotal(s, t);
    SameAcceptance(s, t);
    if B.Accepts(s) {
      B.TableLength(s);
      B.TableLength(t);
    }
  }

  lemma {:induction false} SameAcceptance(s: B.Table, t: B.Table)
    requires s.name == t.name && s.columns == t.columns && |s.rows| == |t.rows|
    requires forall i :: 0 <= i < |s.rows| ==> SameShape(s.rows[i], t.rows[i])
    requires B.TotalSize(s) == B.TotalSize(t) && B.RowsStart(s) == B.RowsStart(t)
    ensures B.Accepts(s) == B.Accepts(t)
  {
    hide B.Typed, B.TotalSize, B.Width, SameShape, B.RowsStart;
    forall i | 0 <= i < |s.rows| ensures B.Typed(s.rows[i], s.columns) == B.Typed(t.rows[i], t.columns) {
      ShapeTyped(s.rows[i], t.rows[i], s.columns);
    }
  }

  lemma {:induction false} SameTotal(s: B.Table, t: B.Table)
    requires s.name == t.name && s.columns == t.columns && |s.rows| == |t.rows|
    requires forall i :: 0 <= i < |s.rows| ==> SameShape(s.rows[i], t.rows[i])
    ensures B.TotalSize(s) == B.TotalSize(t) && B.RowsStart(s) == B.RowsStart(t)
  {
    hide B.PoolOf, B.Width, Times, SameShape, B.RowsTexts;
    ShapesTexts(s.rows, t.rows);
    SamePool(s, t);
  }

  lemma {:induction false} SamePool(s: B.Table, t: B.Table)
    requires s.name == t.name && s.columns == t.columns && B.RowsTexts(s.rows) == B.RowsTexts(t.rows)
    ensures B.PoolOf(s) == B.PoolOf(t)
  {
  }

  /** Filling in the offsets neither fails nor changes the length of a TOC that was probed with
      zeros. */
  lemma {:induction false} ProbeAgrees(files: seq<InputFile>, offsets: seq<u64>, mode: Mode)
    requires |offsets| == |files|
    ensures var probe, final := TocPart(files, ZeroOffsets(|files|), mode), TocPart(files, offsets, mode);
      && probe.Ok? == final.Ok?
      && (probe.Ok? ==>
            ChunkLength(probe.value) == ChunkLength(final.value) && (probe.value.Some? <==> final.value.Some?))
  {
    if mode.HasToc() {
      var s, t := TocTable(files, ZeroOffsets(|files|)), TocTable(files, offsets);
      forall i | 0 <= i < |files| ensures SameShape(s.rows[i], t.rows[i]) {
        assert s.rows[i] == TocRow(files[i], ZeroOffsets(|files|)[i]);
      }
      SameSize(s, t);
    }
  }

  // ----- the finished plan -----

  function Sizes(files: seq<InputFile>, p: Plan): (r: seq<nat>)
    requires forall k :: 0 <= k < |p.order| ==> p.order[k] < |files|
    ensures |r| == |p.order|
  {
    SizesInOrder(files, p.order)
  }

  /** Everything emission and reading rely on. */
  ghost predicate PlanOk(files: seq<InputFile>, opts: Options, profile: Profile, p: Plan) {
    var a := opts.alignment as nat;
    && a > 0 && 0 < |files| <= U32_MAX && IsOrder(p.order, |files|)
    && (p.tocTable.Some? <==> profile.mode.HasToc()) && (p.itocTable.Some? <==> profile.mode.HasItoc())
    && p.tocOffset == TocOffsetOf(profile.mode) && (!profile.mode.HasItoc() ==> p.itocOffset == 0)
    && CHUNK_HEADER_SIZE + |p.headerTable| <= COPYRIGHT_MARKER_OFFSET
    && (profile.mode.HasItoc() ==> ENGINE_INDEX_BASE <= p.itocOffset && p.contentOffset <= U32_MAX)
    && (profile.mode.HasToc() && profile.mode.HasItoc() ==> ENGINE_INDEX_BASE + ChunkLength(p.tocTable) <= p.itocOffset)
    && ENGINE_INDEX_BASE + ChunkLength(p.tocTable) <= p.contentOffset
    && p.itocOffset + ChunkLength(p.itocTable) <= p.contentOffset
    && Aligned(p.contentOffset, a)
    && p.archiveSize == Start(Sizes(files, p), p.contentOffset, a, |files|) <= U64_MAX
    && |p.offsets| == |files|
    && forall k :: 0 <= k < |files| ==> p.offsets[p.order[k]] == Start(Sizes(files, p), p.contentOffset, a, k)
  }

  lemma {:induction false} OffsetAt(files: seq<InputFile>, order: seq<nat>, base: nat, a: nat, k: nat)
    requires IsOrder(order, |files|) && Aligned(base, a) && CursorFits(SizesInOrder(files, order), base, a)
    requires k < |files|
    ensures Offsets(files, order, base, a)[order[k]] == Start(SizesInOrder(files, order), base, a, k)
  {
    OrderDistinct(order, |files|);
    PositionOf(order, k);
  }

  /** The tables of a plan are those of its own offsets. */
  ghost predicate TablesOk(files: seq<InputFile>, opts: Options, profile: Profile, p: Plan) {
    && 0 < |files| == |p.offsets| && InfoFits(files, p)
    && (forall i :: 0 <= i < |files| ==> p.offsets[i] >= ENGINE_INDEX_BASE)
    && TocPart(files, Relative(p.offsets), profile.mode) == Ok(p.tocTable)
    && (profile.mode.HasItoc() ==> OrderOk(files, p.order))
    && ItocPart(files, p.order, profile) == Ok(p.itocTable)
    && Some(p.headerTable) == B.Build(HeaderTable(InfoOf(files, opts, p), profile))
  }

  lemma {:induction false} FinishSteps(files: seq<InputFile>, opts: Options, profile: Profile, p: Plan)
    requires InfoFits(files, p) && FinishPlan(files, opts, profile, p).Ok?
    ensures var q := FinishPlan(files, opts, profile, p).value;
      && q == p.(headerTable := q.headerTable) && InfoFits(files, q)
      && CHUNK_HEADER_SIZE + |q.headerTable| <= COPYRIGHT_MARKER_OFFSET
      && Some(q.headerTable) == B.Build(HeaderTable(InfoOf(files, opts, q), profile))
  {
    hide B.Build, HeaderTable;
  }

  /** The plan before its header, as placing payloads makes it. */
  ghost predicate Placed(files: seq<InputFile>, opts: Options, profile: Profile, x: Index, p: Plan) {
    var a := opts.alignment as nat;
    && |files| > 0 && a > 0 && IsOrder(x.order, |files|) && Aligned(x.contentOffset, a)
    && CursorFits(SizesInOrder(files, x.order), x.contentOffset, a)
    && p.order == x.order && p.itocTable == x.itocTable && p.itocOffset == x.itocOffset
    && p.contentOffset == x.contentOffset
    && p.tocOffset == TocOffsetOf(profile.mode)
    && p.archiveSize == Start(SizesInOrder(files, x.order), x.contentOffset, a, |files|)
    && p.offsets == Offsets(files, x.order, x.contentOffset, a)
    && (forall i :: 0 <= i < |files| ==> p.offsets[i] >= ENGINE_INDEX_BASE)
    && TocPart(files, Relative(p.offsets), profile.mode) == Ok(p.tocTable)
    && InfoFits(files, p)
  }

  /** Placing payloads is finishing the plan made from the placed offsets. */
  lemma {:induction false} PlacingIs(files: seq<InputFile>, opts: Options, profile: Profile, x: Index,
        offsets: seq<u64>, tocTable: Option<bytes>)
    requires |files| <= U32_MAX && IsOrder(x.order, |files|) && Aligned(x.contentOffset, opts.alignment)
    requires CursorFits(SizesInOrder(files, x.order), x.contentOffset, opts.alignment)
    requires x.contentOffset >= ENGINE_INDEX_BASE && x.itocOffset <= x.contentOffset
    requires ChunkLength(x.itocTable) <= U64_MAX
    requires offsets == Offsets(files, x.order, x.contentOffset, opts.alignment)
    requires forall i :: 0 <= i < |files| ==> offsets[i] >= ENGINE_INDEX_BASE
    requires TocPart(files, Relative(offsets), profile.mode) == Ok(tocTable)
    ensures var p := BeforeHeader(files, opts.alignment, profile.mode, x, offsets, tocTable);
      InfoFits(files, p) && PlacePayloads(files, opts, profile, x) == FinishPlan(files, opts, profile, p)
  {
    hide TocPart, IsOrder, CursorFits, SizesInOrder, Aligned, Offsets, Relative, BeforeHeader, ChunkLength, InfoFits,
      FinishPlan;
    TocPartSize(files, Relative(offsets), profile.mode);
    BeforeHeaderFits(files, opts.alignment, profile.mode, x, offsets, tocTable);
  }

  /** Without an acceptable TOC nothing is placed. */
  lemma {:induction false} PlacingNeedsToc(files: seq<InputFile>, opts: Options, profile: Profile, x: Index,
        offsets: seq<u64>)
    requires |files| <= U32_MAX && IsOrder(x.order, |files|) && Aligned(x.contentOffset, opts.alignment)
    requires CursorFits(SizesInOrder(files, x.order), x.contentOffset, opts.alignment)
    requires x.contentOffset >= ENGINE_INDEX_BASE && x.itocOffset <= x.contentOffset
    requires ChunkLength(x.itocTable) <= U64_MAX
    requires offsets == Offsets(files, x.order, x.contentOffset, opts.alignment)
    requires forall i :: 0 <= i < |files| ==> offsets[i] >= ENGINE_INDEX_BASE
    requires PlacePayloads(files, opts, profile, x).Ok?
    ensures TocPart(files, Relative(offsets), profile.mode).Ok?
  {
    hide TocPart, IsOrder, CursorFits, SizesInOrder, Aligned, Offsets, Relative, BeforeHeader, ChunkLength, InfoFits,
      FinishPlan;
  }

  lemma {:induction false} PlacedSteps(files: seq<InputFile>, opts: Options, profile: Profile, x: Index)
        returns (p: Plan)
    requires 0 < |files| <= U32_MAX && IsOrder(x.order, |files|) && opts.alignment > 0
    requires IndexLaidOut(x, opts.alignment, profile.mode)
    requires CursorFits(SizesInOrder(files, x.order), x.contentOffset, opts.alignment)
    requires PlacePayloads(files, opts, profile, x).Ok?
    ensures Placed(files, opts, profile, x, p)
    ensures PlacePayloads(files, opts, profile, x) == FinishPlan(files, opts, profile, p)
  {
    hide *;
    OrderLength(x.order, |files|);
    LaidOut(x, opts.alignment, profile.mode);
    LowOffsets(files, x.order, x.contentOffset, opts.alignment);
    var offsets := Offsets(files, x.order, x.contentOffset, opts.alignment);
    PlacingNeedsToc(files, opts, profile, x, offsets);
    var tocTable := TocPart(files, Relative(offsets), profile.mode).value;
    PlacingIs(files, opts, profile, x, offsets, tocTable);
    p := BeforeHeader(files, opts.alignment, profile.mode, x, offsets, tocTable);
    PlacedIs(files, opts, profile, x, offsets, tocTable);
  }

  lemma {:induction false} LowOffsets(files: seq<InputFile>, order: seq<nat>, base: nat, a: nat)
    requires IsOrder(order, |files|) && Aligned(base, a) && CursorFits(SizesInOrder(files, order), base, a)
    requires base >= ENGINE_INDEX_BASE
    ensures |Offsets(files, order, base, a)| == |files|
    ensures forall i :: 0 <= i < |files| ==> Offsets(files, order, base, a)[i] >= ENGINE_INDEX_BASE
  {
    hide Offsets, IsOrder, CursorFits, SizesInOrder, Aligned;
    OffsetsAboveBase(files, order, base, a);
  }

  lemma {:induction false} PlacedIs(files: seq<InputFile>, opts: Options, profile: Profile, x: Index,
        offsets: seq<u64>, tocTable: Option<bytes>)
    requires 0 < |files| && |x.order| == |files| && opts.alignment > 0 && IsOrder(x.order, |files|)
    requires Aligned(x.contentOffset, opts.alignment)
    requires CursorFits(SizesInOrder(files, x.order), x.contentOffset, opts.alignment)
    requires offsets == Offsets(files, x.order, x.contentOffset, opts.alignment)
    requires forall i :: 0 <= i < |files| ==> offsets[i] >= ENGINE_INDEX_BASE
    requires TocPart(files, Relative(offsets), profile.mode) == Ok(tocTable)
    requires InfoFits(files, BeforeHeader(files, opts.alignment, profile.mode, x, offsets, tocTable))
    ensures Placed(files, opts, profile, x, BeforeHeader(files, opts.alignment, profile.mode, x, offsets, tocTable))
  {
    hide TocPart, IsOrder, CursorFits, SizesInOrder, Aligned, Offsets, Relative, InfoFits, Start, TocOffsetOf;
  }

  lemma {:induction false} OrderLength(order: seq<nat>, n: nat)
    requires IsOrder(order, n)
    ensures |order| == n && forall k :: 0 <= k < n ==> order[k] < n
  {
  }

  lemma {:induction false} LaidOut(x: Index, a: nat, mode: Mode)
    requires IndexLaidOut(x, a, mode)
    ensures Aligned(x.contentOffset, a) && ENGINE_INDEX_BASE <= x.contentOffset <= U64_MAX
    ensures x.itocOffset <= x.contentOffset && ChunkLength(x.itocTable) <= U64_MAX
  {
  }

  lemma {:induction false} PlacedOk(files: seq<InputFile>, opts: Options, profile: Profile, x: Index)
    requires 0 < |files| <= U32_MAX && IsOrder(x.order, |files|) && opts.alignment > 0
    requires IndexLaidOut(x, opts.alignment, profile.mode)
    requires CursorFits(SizesInOrder(files, x.order), x.contentOffset, opts.alignment)
    requires TocPart(files, ZeroOffsets(|files|), profile.mode) == Ok(x.tocProbe)
    requires profile.mode.HasItoc() ==> OrderOk(files, x.order)
    requires ItocPart(files, x.order, profile) == Ok(x.itocTable)
    requires PlacePayloads(files, opts, profile, x).Ok?
    ensures var p := PlacePayloads(files, opts, profile, x).value;
      PlanOk(files, opts, profile, p) && TablesOk(files, opts, profile, p) && p.order == x.order
  {
    hide FinishPlan, PlacePayloads;
    var p := PlacedSteps(files, opts, profile, x);
    FinishSteps(files, opts, profile, p);
    var q := PlacePayloads(files, opts, profile, x).value;
    PlacedTables(files, opts, profile, x, p, q);
    PlacedLayout(files, opts, profile, x, p, q);
  }

  lemma {:induction false} PlacedTables(files: seq<InputFile>, opts: Options, profile: Profile, x: Index, p: Plan,
        q: Plan)
    requires Placed(files, opts, profile, x, p) && q == p.(headerTable := q.headerTable) && InfoFits(files, q)
    requires profile.mode.HasItoc() ==> OrderOk(files, x.order)
    requires ItocPart(files, x.order, profile) == Ok(x.itocTable)
    requires Some(q.headerTable) == B.Build(HeaderTable(InfoOf(files, opts, q), profile))
    ensures TablesOk(files, opts, profile, q)
  {
    hide B.Build, TocPart, ItocPart, HeaderTable, Start, Offsets, Relative, IsOrder, Aligned, OrderOk, InfoOf;
  }

  lemma {:induction false} PlacedLayout(files: seq<InputFile>, opts: Options, profile: Profile, x: Index, p: Plan,
        q: Plan)
    requires Placed(files, opts, profile, x, p) && q == p.(headerTable := q.headerTable)
    requires IndexLaidOut(x, opts.alignment, profile.mode)
    requires TocPart(files, ZeroOffsets(|files|), profile.mode) == Ok(x.tocProbe)
    requires CHUNK_HEADER_SIZE + |q.headerTable| <= COPYRIGHT_MARKER_OFFSET
    ensures PlanOk(files, opts, profile, q)
  {
    hide TocPart, Start, Relative, IsOrder, Aligned;
    OrderLength(x.order, |files|);
    var a := opts.alignment as nat;
    var sizes := SizesInOrder(files, x.order);
    ProbeAgrees(files, Relative(p.offsets), profile.mode);
    forall k | 0 <= k < |files| ensures q.offsets[q.order[k]] == Start(sizes, q.contentOffset, a, k) {
      OffsetAt(files, x.order, x.contentOffset, a, k);
    }
  }

  /** A successful plan is laid out as it should be, and its tables are built from its own
      offsets. */
  lemma {:induction false} PlanFacts(files: seq<InputFile>, opts: Options, profile: Profile)
    requires MakePlan(files, opts, profile).Ok?
    ensures var p := MakePlan(files, opts, profile).value;
      && PlanOk(files, opts, profile, p) && TablesOk(files, opts, profile, p)
      && Ok(p.order) == PhysicalOrder(files, profile) && ValidAlignment(opts.alignment)
  {
    hide MakeIndex, PlacePayloads, PlanOk, TablesOk, PhysicalOrder, TocPart, ItocPart, IndexLaidOut, IsOrder,
      CursorFits;
    var a := opts.alignment as nat;
    IndexFacts(files, a, profile);
    var _, _ := IndexSteps(files, a, profile);
    PlacedOk(files, opts, profile, MakeIndex(files, a, profile).value);
  }
}
