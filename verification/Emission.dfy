/** The bytes of an archive: header, index chunks and payloads at their planned places. */
module Emission {
  import opened BitOps
  import opened Bytes
  import opened Wrappers
  import opened Layout
  import opened WriterSpec
  import opened WriterPlan
  import P5R

  // ----- payloads -----

  /** The packed bytes an input produces, before its length is checked. */
  function SourceBytes(f: InputFile, p5r: bool, target: P5R.Target): Result<bytes, WriterError> {
    match f.source
    case FromArchive(archive, offset, size) =>
      if size != f.size then Err(InvalidRawPayload)
      else if size == 0 then Ok([])
      else if offset + size <= |archive| then Ok(archive[offset..offset + size])
      else Err(InvalidRawPayload)
    case FromFile(content) =>
      if p5r && f.userString == ENCRYPT_MARK then Ok(P5R.TransformOn(target, content)) else Ok(content)
  }

  function Payload(f: InputFile, p5r: bool, target: P5R.Target): (r: Result<bytes, WriterError>)
    ensures r.Ok? ==> |r.value| == f.size
  {
    var data :- SourceBytes(f, p5r, target);
    if |data| != f.size then Err(SizeChanged) else Ok(data)
  }

  /** The payloads in physical order, up to the first that fails. */
  function Payloads(files: seq<InputFile>, order: seq<nat>, p5r: bool, target: P5R.Target,
        n: nat): (r: Result<seq<bytes>, WriterError>)
    requires n <= |order| && forall k :: 0 <= k < |order| ==> order[k] < |files|
    ensures r.Ok? ==> |r.value| == n && forall k :: 0 <= k < n ==>
            Ok(r.value[k]) == Payload(files[order[k]], p5r, target)
  {
    if n == 0 then Ok([])
    else
      var front :- Payloads(files, order, p5r, target, n - 1);
      var last :- Payload(files[order[n - 1]], p5r, target);
      Ok(front + [last])
  }

  // ----- emission -----

  function PutChunk(s: bytes, offset: nat, kind: ChunkKind, table: Option<bytes>): (r: bytes)
    ensures s <= r
  {
    match table
    case None => s
    case Some(t) => PadTo(s, offset) + Chunk(kind, t)
  }

  /** The header chunk and, just before 0x800, the marker. */
  function HeaderArea(p: Plan): bytes {
    PadTo(Chunk(CpkChunk, p.headerTable), COPYRIGHT_MARKER_OFFSET) + COPYRIGHT_MARKER
  }

  /** Everything before the content. */
  function HeadBytes(p: Plan): bytes {
    var s1 := PutChunk(HeaderArea(p), p.tocOffset, TocChunk, p.tocTable);
    var s2 := PutChunk(s1, p.itocOffset, ItocChunk, p.itocTable);
    PadTo(s2, p.contentOffset)
  }

  /** The first n payloads, each after zero padding up to its offset. */
  function PutPayloads(s: bytes, p: Plan, payloads: seq<bytes>, n: nat): (r: bytes)
    requires n <= |payloads| <= |p.order| && forall k :: 0 <= k < |p.order| ==> p.order[k] < |p.offsets|
    ensures s <= r
  {
    if n == 0 then s
    else PadTo(PutPayloads(s, p, payloads, n - 1), p.offsets[p.order[n - 1]]) + payloads[n - 1]
  }

  function ArchiveBytes(p: Plan, payloads: seq<bytes>): bytes
    requires |payloads| == |p.order| && forall k :: 0 <= k < |p.order| ==> p.order[k] < |p.offsets|
  {
    PadTo(PutPayloads(HeadBytes(p), p, payloads, |payloads|), p.archiveSize)
  }

  /** The archive the writer emits, or the error it reports. */
  function Archive(files: seq<InputFile>, opts: Options, profile: Profile,
        target: P5R.Target): Result<bytes, WriterError> {
    var p :- MakePlan(files, opts, profile);
    PlanFacts(files, opts, profile);
    var payloads :- Payloads(files, p.order, opts.p5rEncryption, target, |p.order|);
    Ok(ArchiveBytes(p, payloads))
  }

  // ----- where everything lies -----

  lemma {:induction false} PutChunkFacts(s: bytes, offset: nat, kind: ChunkKind, table: Option<bytes>)
    requires table.Some? ==> |s| <= offset
    ensures table.Some? ==> At(PutChunk(s, offset, kind, table), offset, Chunk(kind, table.value))
    ensures |PutChunk(s, offset, kind, table)| == if table.Some? then offset + ChunkLength(table) else |s|
  {
    if table.Some? {
      AtEnd(PadTo(s, offset), Chunk(kind, table.value));
    }
  }

  lemma {:induction false} HeadStart(p: Plan)
    requires CHUNK_HEADER_SIZE + |p.headerTable| <= COPYRIGHT_MARKER_OFFSET
    ensures var s0 := HeaderArea(p);
      |s0| == ENGINE_INDEX_BASE && At(s0, 0, Chunk(CpkChunk, p.headerTable)) &&
          At(s0, COPYRIGHT_MARKER_OFFSET, COPYRIGHT_MARKER)
  {
    hide Chunk, At;
    var c := Chunk(CpkChunk, p.headerTable);
    AtEnd([], c);
    assert [] + c == c;
    AtPrefix(c, PadTo(c, COPYRIGHT_MARKER_OFFSET), 0, c);
    AtLeft(PadTo(c, COPYRIGHT_MARKER_OFFSET), COPYRIGHT_MARKER, 0, c);
    AtEnd(PadTo(c, COPYRIGHT_MARKER_OFFSET), COPYRIGHT_MARKER);
  }

  /** The head ends exactly where the content starts, with the header at zero, the marker before
      0x800 and each index chunk at its offset. */
  lemma {:induction false} HeadFacts(files: seq<InputFile>, opts: Options, profile: Profile, p: Plan)
    requires PlanOk(files, opts, profile, p)
    ensures var s := HeadBytes(p);
      && |s| == p.contentOffset
      && At(s, 0, Chunk(CpkChunk, p.headerTable)) && At(s, COPYRIGHT_MARKER_OFFSET, COPYRIGHT_MARKER)
      && (p.tocTable.Some? ==> At(s, p.tocOffset, Chunk(TocChunk, p.tocTable.value)))
      && (p.itocTable.Some? ==> At(s, p.itocOffset, Chunk(ItocChunk, p.itocTable.value)))
  {
    hide Chunk, At, Start, IsOrder, Aligned, PutChunk;
    var s0 := HeaderArea(p);
    HeadStart(p);
    var s1 := PutChunk(s0, p.tocOffset, TocChunk, p.tocTable);
    PutChunkFacts(s0, p.tocOffset, TocChunk, p.tocTable);
    var s2 := PutChunk(s1, p.itocOffset, ItocChunk, p.itocTable);
    PutChunkFacts(s1, p.itocOffset, ItocChunk, p.itocTable);
    var s := PadTo(s2, p.contentOffset);
    assert s0 <= s && s1 <= s && s2 <= s;
    AtPrefix(s0, s, 0, Chunk(CpkChunk, p.headerTable));
    AtPrefix(s0, s, COPYRIGHT_MARKER_OFFSET, COPYRIGHT_MARKER);
    if p.tocTable.Some? {
      AtPrefix(s1, s, p.tocOffset, Chunk(TocChunk, p.tocTable.value));
    }
    if p.itocTable.Some? {
      AtPrefix(s2, s, p.itocOffset, Chunk(ItocChunk, p.itocTable.value));
    }
  }

  /** The payloads emitted so far have their files' sizes. */
  ghost predicate SizesFit(files: seq<InputFile>, p: Plan, payloads: seq<bytes>) {
    && |payloads| <= |p.order| == |files| == |p.offsets|
    && (forall k :: 0 <= k < |files| ==> p.order[k] < |files|)
    && forall k :: 0 <= k < |payloads| ==> |payloads[k]| == files[p.order[k]].size
  }

  ghost predicate PayloadsFit(files: seq<InputFile>, p: Plan, payloads: seq<bytes>) {
    |payloads| == |files| && SizesFit(files, p, payloads)
  }

  /** Before payload n is written the output never passes its offset; afterwards it ends with
      that payload. */
  lemma {:induction false} EmittedLength(files: seq<InputFile>, opts: Options, profile: Profile, p: Plan,
        payloads: seq<bytes>, n: nat)
    requires PlanOk(files, opts, profile, p) && SizesFit(files, p, payloads) && n <= |payloads|
    ensures var s := PutPayloads(HeadBytes(p), p, payloads, n);
      && |s| <= Start(Sizes(files, p), p.contentOffset, opts.alignment, n)
      && (n == 0 ==> |s| == p.contentOffset)
      && (n > 0 ==> |s| == p.offsets[p.order[n - 1]] + files[p.order[n - 1]].size)
  {
    hide PlanOk, HeadBytes, Sizes, Start, PutPayloads;
    PlanParts(files, opts, profile, p);
    var a, sizes := opts.alignment as nat, Sizes(files, p);
    if n == 0 {
      HeadFacts(files, opts, profile, p);
      NothingPut(HeadBytes(p), p, payloads);
      StartAtBase(sizes, p.contentOffset, a);
    } else {
      EmittedLength(files, opts, profile, p, payloads, n - 1);
      SizeAt(files, p, n - 1);
      StartsOrdered(sizes, p.contentOffset, a, n - 1, n);
      PutLength(HeadBytes(p), p, payloads, n);
    }
  }

  lemma {:induction false} PlanParts(files: seq<InputFile>, opts: Options, profile: Profile, p: Plan)
    requires PlanOk(files, opts, profile, p)
    ensures opts.alignment > 0 && |p.order| == |files| == |p.offsets|
    ensures forall k :: 0 <= k < |files| ==> p.order[k] < |files|
    ensures forall k :: 0 <= k < |files| ==>
            p.offsets[p.order[k]] == Start(Sizes(files, p), p.contentOffset, opts.alignment, k)
    ensures p.archiveSize == Start(Sizes(files, p), p.contentOffset, opts.alignment, |files|) <= U64_MAX
  {
    OrderLength(p.order, |files|);
  }

  lemma {:induction false} NothingPut(s: bytes, p: Plan, payloads: seq<bytes>)
    requires |payloads| <= |p.order| && forall k :: 0 <= k < |p.order| ==> p.order[k] < |p.offsets|
    ensures PutPayloads(s, p, payloads, 0) == s
  {
  }

  lemma {:induction false} PutLength(s: bytes, p: Plan, payloads: seq<bytes>, n: nat)
    requires 0 < n <= |payloads| <= |p.order| && forall j :: 0 <= j < |p.order| ==> p.order[j] < |p.offsets|
    requires |PutPayloads(s, p, payloads, n - 1)| <= p.offsets[p.order[n - 1]]
    ensures |PutPayloads(s, p, payloads, n)| == p.offsets[p.order[n - 1]] + |payloads[n - 1]|
  {
    hide *;
    PutStep(s, p, payloads, n - 1);
  }

  lemma {:induction false} StartAtBase(sizes: seq<nat>, base: nat, a: nat)
    requires a > 0
    ensures Start(sizes, base, a, 0) == base
  {
  }

  lemma {:induction false} PayloadKept(s: bytes, p: Plan, payloads: seq<bytes>, k: nat, n: nat)
    requires k < n <= |payloads| == |p.order| && forall j :: 0 <= j < |p.order| ==> p.order[j] < |p.offsets|
    ensures PutPayloads(s, p, payloads, k + 1) <= PutPayloads(s, p, payloads, n)
  {
    hide PutPayloads, PadTo;
    if k + 1 < n {
      PayloadKept(s, p, payloads, k, n - 1);
      var shorter, longer := PutPayloads(s, p, payloads, n - 1), PutPayloads(s, p, payloads, n);
      PutOneMore(s, p, payloads, n);
      PrefixTransitive(PutPayloads(s, p, payloads, k + 1), shorter, longer);
    }
  }

  lemma {:induction false} PutOneMore(s: bytes, p: Plan, payloads: seq<bytes>, n: nat)
    requires 0 < n <= |payloads| == |p.order| && forall j :: 0 <= j < |p.order| ==> p.order[j] < |p.offsets|
    ensures PutPayloads(s, p, payloads, n - 1) <= PutPayloads(s, p, payloads, n)
  {
    var shorter := PutPayloads(s, p, payloads, n - 1);
    var padded := PadTo(shorter, p.offsets[p.order[n - 1]]);
    PrefixTransitive(shorter, padded, padded + payloads[n - 1]);
  }

  /** Every payload lies at its planned offset. */
  lemma {:induction false} PayloadPlaced(files: seq<InputFile>, opts: Options, profile: Profile, p: Plan,
        payloads: seq<bytes>, k: nat)
    requires PlanOk(files, opts, profile, p) && PayloadsFit(files, p, payloads) && k < |files|
    ensures At(ArchiveBytes(p, payloads), p.offsets[p.order[k]], payloads[k])
  {
    var head, o := HeadBytes(p), p.offsets[p.order[k]];
    EmittedLength(files, opts, profile, p, payloads, k);
    LastPut(head, p, payloads, k);
    hide At, HeadBytes, IsOrder, Aligned, Start, PutPayloads, PadTo;
    var after, all := PutPayloads(head, p, payloads, k + 1), PutPayloads(head, p, payloads, |payloads|);
    PayloadKept(head, p, payloads, k, |payloads|);
    PrefixTransitive(after, all, PadTo(all, p.archiveSize));
    AtPrefix(after, ArchiveBytes(p, payloads), o, payloads[k]);
  }

  lemma {:induction false} LastPut(s: bytes, p: Plan, payloads: seq<bytes>, k: nat)
    requires k < |payloads| == |p.order| && forall j :: 0 <= j < |p.order| ==> p.order[j] < |p.offsets|
    requires |PutPayloads(s, p, payloads, k)| <= p.offsets[p.order[k]]
    ensures At(PutPayloads(s, p, payloads, k + 1), p.offsets[p.order[k]], payloads[k])
  {
    hide *;
    PutStep(s, p, payloads, k);
    AtEnd(PadTo(PutPayloads(s, p, payloads, k), p.offsets[p.order[k]]), payloads[k]);
  }

  lemma {:induction false} PutStep(s: bytes, p: Plan, payloads: seq<bytes>, k: nat)
    requires k < |payloads| <= |p.order| && forall j :: 0 <= j < |p.order| ==> p.order[j] < |p.offsets|
    ensures PutPayloads(s, p, payloads, k + 1) ==
            PadTo(PutPayloads(s, p, payloads, k), p.offsets[p.order[k]]) + payloads[k]
  {
  }

  /** The archive is exactly as long as planned, and starts with the head. */
  lemma {:induction false} ArchiveShape(files: seq<InputFile>, opts: Options, profile: Profile, p: Plan,
        payloads: seq<bytes>)
    requires PlanOk(files, opts, profile, p) && PayloadsFit(files, p, payloads)
    ensures |ArchiveBytes(p, payloads)| == p.archiveSize
    ensures HeadBytes(p) <= ArchiveBytes(p, payloads)
  {
    hide HeadBytes, IsOrder, Aligned, Start;
    EmittedLength(files, opts, profile, p, payloads, |files|);
  }

  /** Every payload range is aligned, after all index chunks and inside the archive. */
  lemma {:induction false} PayloadRange(files: seq<InputFile>, opts: Options, profile: Profile, p: Plan, k: nat)
    requires PlanOk(files, opts, profile, p) && k < |files|
    ensures var o := p.offsets[p.order[k]];
      && Aligned(o, opts.alignment) && p.contentOffset <= o && o + files[p.order[k]].size <= p.archiveSize
      && p.itocOffset + ChunkLength(p.itocTable) <= o && ENGINE_INDEX_BASE + ChunkLength(p.tocTable) <= o
  {
    OrderLength(p.order, |files|);
    hide IsOrder, Aligned, Start, Sizes;
    var sizes, a := Sizes(files, p), opts.alignment as nat;
    StartAligned(sizes, p.contentOffset, a, k);
    StartsOrdered(sizes, p.contentOffset, a, k, |files|);
    SizeAt(files, p, k);
  }

  /** Payload ranges are pairwise disjoint, in plan order. */
  lemma {:induction false} PayloadRanges(files: seq<InputFile>, opts: Options, profile: Profile, p: Plan, i: nat,
        j: nat)
    requires PlanOk(files, opts, profile, p) && i < j < |files|
    ensures p.offsets[p.order[i]] + files[p.order[i]].size <= p.offsets[p.order[j]]
  {
    hide PlanOk, Start, Sizes;
    PlanParts(files, opts, profile, p);
    StartsOrdered(Sizes(files, p), p.contentOffset, opts.alignment, i, j);
    SizeAt(files, p, i);
  }

  lemma {:induction false} SizeAt(files: seq<InputFile>, p: Plan, k: nat)
    requires |p.order| == |files| && (forall j :: 0 <= j < |files| ==> p.order[j] < |files|) && k < |files|
    ensures Sizes(files, p)[k] == files[p.order[k]].size
  {
  }
}
