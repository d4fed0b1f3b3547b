/** The whole-archive round trip: `get_files` and `read_packed_file` on what the writer emitted. */
module WholeArchive {
  import opened BitOps
  import opened Bytes
  import opened Wrappers
  import opened Layout
  import opened WriterSpec
  import opened WriterPlan
  import opened Emission
  import opened UtfRoundTrip
  import opened HeaderLookup
  import opened IndexRoundTrip
  import opened ItocRoundTrip
  import opened ArchiveRoundTrip
  import R = ReaderSpec
  import B = UtfBuild
  import P = UtfParse
  import P5R

  // ----- what a plan gives the reader -----

  /** The header's view of a plan: numbers the reader will start from. */
  ghost predicate Recorded(m: R.Metadata, opts: Options, profile: Profile, p: Plan) {
    && m.tocOffset == p.tocOffset && m.itocOffset == p.itocOffset && m.contentOffset == p.contentOffset
    && m.align == opts.alignment && m.eid == (if profile.mode.HasItoc() && profile.directItoc then 1 else 0)
  }

  lemma {:induction false} TablesParts(files: seq<InputFile>, opts: Options, profile: Profile, p: Plan)
    requires TablesOk(files, opts, profile, p)
    ensures InfoFits(files, p) && Some(p.headerTable) == B.Build(HeaderTable(InfoOf(files, opts, p), profile))
    ensures |p.offsets| == |files| && forall i :: 0 <= i < |files| ==> p.offsets[i] >= ENGINE_INDEX_BASE
    ensures profile.mode.HasToc() ==>
            p.tocTable.Some? && B.Build(TocTable(files, Relative(p.offsets))) == Some(p.tocTable.value)
    ensures profile.mode.HasItoc() ==> OrderOk(files, p.order)
    ensures profile.mode.HasItoc() ==>
            p.itocTable.Some? && ItocBytes(files, p.order, profile.directItoc) == Some(p.itocTable.value)
  {
    hide B.Build, HeaderTable, InfoOf, Relative, OrderOk, TocTable, InfoFits, ItocBytes;
  }

  lemma {:induction false} PlanBounds(files: seq<InputFile>, opts: Options, profile: Profile, p: Plan)
    requires PlanOk(files, opts, profile, p)
    ensures CHUNK_HEADER_SIZE + |p.headerTable| <= COPYRIGHT_MARKER_OFFSET
    ensures ENGINE_INDEX_BASE <= p.contentOffset <= p.archiveSize && p.itocOffset <= p.contentOffset
    ensures p.tocOffset == TocOffsetOf(profile.mode) <= p.contentOffset
    ensures profile.mode.HasItoc() ==> ENGINE_INDEX_BASE <= p.itocOffset && p.contentOffset <= U32_MAX
    ensures p.tocTable.Some? ==> |p.tocTable.value| <= p.contentOffset
    ensures p.itocTable.Some? ==> |p.itocTable.value| <= p.contentOffset
  {
    hide Start, Sizes, IsOrder, Aligned;
  }

  // ----- where the chunks and payloads are in the stream -----

  lemma {:induction false} HeaderLies(stream: bytes, start: nat, files: seq<InputFile>, opts: Options,
        profile: Profile, p: Plan, payloads: seq<bytes>)
    requires PayloadsFit(files, p, payloads) && At(stream, start, ArchiveBytes(p, payloads))
    requires PlanOk(files, opts, profile, p)
    ensures At(stream, start, Chunk(CpkChunk, p.headerTable)) && start + p.archiveSize <= |stream|
  {
    hide *;
    HeadLies(stream, start, files, opts, profile, p, payloads);
    HeadFacts(files, opts, profile, p);
    AtInside(stream, start, HeadBytes(p), 0, Chunk(CpkChunk, p.headerTable));
  }

  lemma {:induction false} HeadLies(stream: bytes, start: nat, files: seq<InputFile>, opts: Options,
        profile: Profile, p: Plan, payloads: seq<bytes>)
    requires PayloadsFit(files, p, payloads) && At(stream, start, ArchiveBytes(p, payloads))
    requires PlanOk(files, opts, profile, p)
    ensures At(stream, start, HeadBytes(p)) && start + p.archiveSize <= |stream|
  {
    hide *;
    PayloadCounts(files, p, payloads);
    ArchiveShape(files, opts, profile, p, payloads);
    var archive, head := ArchiveBytes(p, payloads), HeadBytes(p);
    AtFits(stream, start, archive);
    FrontAt(head, archive);
    AtInside(stream, start, archive, 0, head);
  }

  lemma {:induction false} PayloadCounts(files: seq<InputFile>, p: Plan, payloads: seq<bytes>)
    requires PayloadsFit(files, p, payloads)
    ensures |payloads| == |p.order| && forall k :: 0 <= k < |p.order| ==> p.order[k] < |p.offsets|
  {
  }

  lemma {:induction false} FrontAt(s: bytes, r: bytes)
    requires s <= r
    ensures At(r, 0, s)
  {
  }

  lemma {:induction false} IndexLies(stream: bytes, start: nat, files: seq<InputFile>, opts: Options,
        profile: Profile, p: Plan, payloads: seq<bytes>)
    requires PayloadsFit(files, p, payloads) && At(stream, start, ArchiveBytes(p, payloads))
    requires PlanOk(files, opts, profile, p)
    ensures p.tocTable.Some? ==> At(stream, start + p.tocOffset, Chunk(TocChunk, p.tocTable.value))
    ensures p.itocTable.Some? ==> At(stream, start + p.itocOffset, Chunk(ItocChunk, p.itocTable.value))
  {
    hide *;
    HeadLies(stream, start, files, opts, profile, p, payloads);
    HeadFacts(files, opts, profile, p);
    if p.tocTable.Some? {
      AtInside(stream, start, HeadBytes(p), p.tocOffset, Chunk(TocChunk, p.tocTable.value));
    }
    if p.itocTable.Some? {
      AtInside(stream, start, HeadBytes(p), p.itocOffset, Chunk(ItocChunk, p.itocTable.value));
    }
  }

  /** Reading the planned range returns the payload. */
  lemma {:induction false} PayloadReads(stream: bytes, start: nat, files: seq<InputFile>, opts: Options,
        profile: Profile, p: Plan, payloads: seq<bytes>, k: nat, e: R.CpkFile)
    requires PayloadsFit(files, p, payloads) && At(stream, start, ArchiveBytes(p, payloads)) && |stream| <= U64_MAX
    requires k < |files| && e.absoluteOffset == p.offsets[p.order[k]] && e.fileSize == files[p.order[k]].size
    requires PlanOk(files, opts, profile, p)
    ensures R.ReadPacked(stream, start, e) == Ok(payloads[k])
  {
    hide PlanOk, At, ArchiveBytes, R.ReadPacked;
    PayloadPlaced(files, opts, profile, p, payloads, k);
    var o, x := p.offsets[p.order[k]], payloads[k];
    assert |x| == files[p.order[k]].size;
    hide *;
    AtInside(stream, start, ArchiveBytes(p, payloads), o, x);
    RangeReads(stream, start, e, x);
  }

  lemma {:induction false} RangeReads(stream: bytes, start: nat, e: R.CpkFile, x: bytes)
    requires |stream| <= U64_MAX && e.fileSize == |x| && At(stream, start + e.absoluteOffset, x)
    ensures R.ReadPacked(stream, start, e) == Ok(x)
  {
    AtFits(stream, start + e.absoluteOffset, x);
  }

  // ----- what is reported -----

  /** The entry `get_files` must report for an input: sizes, ID and place always, names only where
      a TOC stores them. */
  ghost predicate Reports(e: R.CpkFile, f: InputFile, offset: u64, named: bool) {
    && e.absoluteOffset == offset && e.fileSize == f.size && e.id == Some(f.id) && e.fileCrc == None
    && e.extractSize == R.EffectiveExtractSize(f.size, f.extractSize)
    && (named ==>
          && e.directory == P.UpToNul(f.directory) && e.fileName == P.UpToNul(f.fileName)
          && e.userString == P.UpToNul(f.userString))
    && (!named ==> e.directory == [] && e.fileName == R.ItocFileName(f.id) && e.userString == [])
  }

  /** Names survive exactly when they hold no NUL, the extract size exactly when it is not a zero
      that stands for the packed size. */
  lemma {:induction false} ReportsExactly(e: R.CpkFile, f: InputFile, offset: u64)
    requires Reports(e, f, offset, true)
    ensures e.directory == f.directory <==> 0 !in f.directory
    ensures e.fileName == f.fileName <==> 0 !in f.fileName
    ensures e.userString == f.userString <==> 0 !in f.userString
    ensures e.extractSize == f.extractSize <==> f.extractSize != 0 || f.size == 0
    ensures f.extractSize == 0 ==> e.extractSize == f.size
  {
    WholeIffNulFree(f.directory);
    WholeIffNulFree(f.fileName);
    WholeIffNulFree(f.userString);
  }

  /** Which input each reported entry belongs to: input order from a TOC, ID order from an ITOC. */
  function Listing(files: seq<InputFile>, profile: Profile): (r: seq<nat>) {
    if profile.mode.HasToc() then Indices(|files|)
    else
      var order := PhysicalOrder(files, profile);
      if order.Ok? then order.value else []
  }

  /** The TOC table's own 32-bit limit; an ITOC beside it already keeps it smaller. */
  predicate TocFits(files: seq<InputFile>) {
    B.TotalSize(TocTable(files, ZeroOffsets(|files|))) <= U32_MAX
  }

  lemma {:induction false} TocLength(files: seq<InputFile>, offsets: seq<u64>, table: bytes)
    requires |offsets| == |files| && B.Build(TocTable(files, offsets)) == Some(table) && TocFits(files)
    ensures |table| <= U32_MAX
  {
    hide B.TableBytes, TocTable, B.TotalSize, B.Accepts;
    ProbeAgrees(files, offsets, Toc);
    var probe := B.Build(TocTable(files, ZeroOffsets(|files|)));
    BuiltIs(TocTable(files, ZeroOffsets(|files|)), probe.value);
  }

  /** The files and the bytes of one reading: every input is reported once, and each entry's
      payload is the one written for its input. */
  ghost predicate AllRead(stream: bytes, start: nat, entries: seq<R.CpkFile>, files: seq<InputFile>, opts: Options,
        profile: Profile, target: P5R.Target, p: Plan) {
    var listing := Listing(files, profile);
    && |entries| == |listing| == |files| == |p.offsets| && IsOrder(listing, |files|)
    && forall k :: 0 <= k < |files| ==>
        EntryRead(stream, start, entries[k], files[listing[k]], p.offsets[listing[k]], opts, profile, target)
  }

  ghost predicate EntryRead(stream: bytes, start: nat, e: R.CpkFile, f: InputFile, offset: u64, opts: Options,
        profile: Profile, target: P5R.Target) {
    && Reports(e, f, offset, profile.mode.HasToc())
    && var payload := Payload(f, opts.p5rEncryption, target);
       payload.Ok? && R.ReadPacked(stream, start, e) == Ok(payload.value)
  }

  /** A written archive anywhere in a stream. */
  ghost predicate Written(stream: bytes, start: nat, files: seq<InputFile>, opts: Options, profile: Profile,
        target: P5R.Target, p: Plan) {
    && MakePlan(files, opts, profile) == Ok(p) && |stream| <= U64_MAX
    && var archive := Archive(files, opts, profile, target);
       archive.Ok? && At(stream, start, archive.value)
  }

  lemma {:induction false} WrittenParts(stream: bytes, start: nat, files: seq<InputFile>, opts: Options,
        profile: Profile, target: P5R.Target, p: Plan) returns (payloads: seq<bytes>)
    requires Written(stream, start, files, opts, profile, target, p)
    ensures |stream| <= U64_MAX
    ensures PlanOk(files, opts, profile, p) && TablesOk(files, opts, profile, p)
    ensures Ok(p.order) == PhysicalOrder(files, profile)
    ensures PayloadsFit(files, p, payloads) && At(stream, start, ArchiveBytes(p, payloads))
    ensures forall k :: 0 <= k < |files| ==> Payload(files[p.order[k]], opts.p5rEncryption, target) == Ok(payloads[k])
  {
    hide MakePlan, PlanOk, TablesOk, PhysicalOrder, ArchiveBytes, At, Payload;
    PlanFacts(files, opts, profile);
    PlanParts(files, opts, profile, p);
    payloads := Payloads(files, p.order, opts.p5rEncryption, target, |p.order|).value;
  }

  // ----- both index forms -----

  lemma {:induction false} Recording(files: seq<InputFile>, opts: Options, profile: Profile, p: Plan)
    requires InfoFits(files, p)
    ensures Recorded(MetadataOf(InfoOf(files, opts, p), profile), opts, profile, p)
  {
  }

  /** The header leads the reader to the planned index. */
  lemma {:induction false} MetadataReads(stream: bytes, start: nat, files: seq<InputFile>, opts: Options,
        profile: Profile, p: Plan, payloads: seq<bytes>) returns (m: R.Metadata)
    requires PayloadsFit(files, p, payloads) && At(stream, start, ArchiveBytes(p, payloads))
    requires PlanOk(files, opts, profile, p) && TablesOk(files, opts, profile, p)
    ensures R.ReadHeader(stream, start) == Ok(m) && Recorded(m, opts, profile, p)
  {
    hide *;
    TablesParts(files, opts, profile, p);
    PlanBounds(files, opts, profile, p);
    HeaderLies(stream, start, files, opts, profile, p, payloads);
    m := MetadataOf(InfoOf(files, opts, p), profile);
    HeaderReads(stream, start, InfoOf(files, opts, p), profile, p.headerTable);
    Recording(files, opts, profile, p);
  }

  lemma {:induction false} RelativeOffsets(offsets: seq<u64>)
    requires forall i :: 0 <= i < |offsets| ==> offsets[i] >= ENGINE_INDEX_BASE
    ensures forall i :: 0 <= i < |offsets| ==> R.ENGINE_TOC_FILE_BASE + Relative(offsets)[i] == offsets[i] <= U64_MAX
  {
  }

  lemma {:induction false} ModeKinds(mode: Mode)
    ensures !mode.Toc? ==> mode.HasItoc()
    ensures mode.HasToc() ==> TocOffsetOf(mode) == ENGINE_INDEX_BASE
    ensures !mode.HasToc() ==> TocOffsetOf(mode) == 0 && mode.HasItoc()
    ensures ENGINE_INDEX_BASE == 0x800
  {
  }

  lemma {:induction false} TocSmall(files: seq<InputFile>, opts: Options, profile: Profile, p: Plan)
    requires profile.mode.HasToc() && (profile.mode.Toc? ==> TocFits(files))
    requires PlanOk(files, opts, profile, p) && TablesOk(files, opts, profile, p)
    ensures p.tocTable.Some? && |p.tocTable.value| <= U32_MAX
  {
    hide *;
    TablesParts(files, opts, profile, p);
    PlanBounds(files, opts, profile, p);
    ModeKinds(profile.mode);
    if profile.mode.Toc? {
      TocLength(files, Relative(p.offsets), p.tocTable.value);
    }
  }

  lemma {:induction false} GetFromToc(stream: bytes, start: nat, m: R.Metadata)
    requires R.ReadHeader(stream, start) == Ok(m) && m.tocOffset != 0
    ensures R.GetFiles(stream, start) == R.ReadToc(stream, start, m)
  {
    hide R.ReadHeader, R.ReadToc;
  }

  lemma {:induction false} GetFromItoc(stream: bytes, start: nat, m: R.Metadata)
    requires R.ReadHeader(stream, start) == Ok(m) && m.tocOffset == 0 && m.itocOffset != 0
    ensures R.GetFiles(stream, start) == R.ReadItoc(stream, start, m)
  {
    hide R.ReadHeader, R.ReadItoc;
  }

  /** The result lists inputs by the given indices, each at its offset. */
  ghost predicate Lists(r: Result<seq<R.CpkFile>, R.ReaderError>, files: seq<InputFile>, indices: seq<nat>,
        offsets: seq<u64>, named: bool) {
    && r.Ok? && |r.value| == |indices| == |files| == |offsets|
    && forall k :: 0 <= k < |files| ==>
        indices[k] < |files| && Reports(r.value[k], files[indices[k]], offsets[indices[k]], named)
  }

  /** In TOC modes `get_files` succeeds exactly when every input has a name, and then lists them
      in input order. */
  lemma {:induction false} TocListing(stream: bytes, start: nat, files: seq<InputFile>, opts: Options,
        profile: Profile, p: Plan, payloads: seq<bytes>)
    requires PayloadsFit(files, p, payloads) && At(stream, start, ArchiveBytes(p, payloads)) && |stream| <= U64_MAX
    requires profile.mode.HasToc() && (profile.mode.Toc? ==> TocFits(files))
    requires PlanOk(files, opts, profile, p) && TablesOk(files, opts, profile, p)
    ensures AllNamed(files) ==> Lists(R.GetFiles(stream, start), files, Indices(|files|), p.offsets, true)
    ensures !AllNamed(files) ==> R.GetFiles(stream, start) == Err(R.MissingFileName)
  {
    hide *;
    TablesParts(files, opts, profile, p);
    PlanBounds(files, opts, profile, p);
    TocSmall(files, opts, profile, p);
    ModeKinds(profile.mode);
    HeaderLies(stream, start, files, opts, profile, p, payloads);
    IndexLies(stream, start, files, opts, profile, p, payloads);
    var m := MetadataReads(stream, start, files, opts, profile, p, payloads);
    RecordedOffsets(m, opts, profile, p);
    RelativeOffsets(p.offsets);
    TocReads(stream, start, m, files, Relative(p.offsets), p.tocTable.value);
    GetFromToc(stream, start, m);
    TocEntriesReport(files, Relative(p.offsets), p.offsets);
  }

  lemma {:induction false} TocEntriesReport(files: seq<InputFile>, relative: seq<u64>, offsets: seq<u64>)
    requires |relative| == |files| == |offsets|
    requires forall i :: 0 <= i < |files| ==> R.ENGINE_TOC_FILE_BASE + relative[i] == offsets[i]
    ensures Lists(Ok(TocEntries(files, relative)), files, Indices(|files|), offsets, true)
  {
    hide P.UpToNul;
  }

  lemma {:induction false} RecordedOffsets(m: R.Metadata, opts: Options, profile: Profile, p: Plan)
    requires Recorded(m, opts, profile, p)
    ensures m.tocOffset == p.tocOffset && m.itocOffset == p.itocOffset && m.contentOffset == p.contentOffset
    ensures m.align == opts.alignment && (profile.mode.HasItoc() ==> m.eid == (if profile.directItoc then 1 else 0))
  {
  }

  /** The ITOC's cumulative offsets are the plan's. */
  lemma {:induction false} StartsArePlanned(files: seq<InputFile>, opts: Options, profile: Profile, p: Plan, k: nat)
    requires PlanOk(files, opts, profile, p) && k <= |files|
    ensures opts.alignment > 0 && |p.order| == |files| == |p.offsets|
    ensures forall j :: 0 <= j < |files| ==> p.order[j] < |files|
    ensures p.contentOffset + Starts(files, p.order, opts.alignment)[k] <= U64_MAX
    ensures k < |files| ==> p.contentOffset + Starts(files, p.order, opts.alignment)[k] == p.offsets[p.order[k]]
  {
    hide PlanOk;
    PlanParts(files, opts, profile, p);
    var sizes, a := Sizes(files, p), opts.alignment as nat;
    assert sizes == SizesInOrder(files, p.order);
    assert Starts(files, p.order, a)[k] == Start(sizes, 0, a, k);
    hide *;
    StartShift(sizes, p.contentOffset, a, k);
    if k < |files| {
      StartsOrdered(sizes, p.contentOffset, a, k, |files|);
    }
  }

  /** The reader's view of an ITOC, in any mode that has one. */
  lemma {:induction false} ItocListing(stream: bytes, start: nat, files: seq<InputFile>, opts: Options,
        profile: Profile, p: Plan, payloads: seq<bytes>) returns (m: R.Metadata)
    requires PayloadsFit(files, p, payloads) && At(stream, start, ArchiveBytes(p, payloads)) && |stream| <= U64_MAX
    requires profile.mode.HasItoc() && Ok(p.order) == PhysicalOrder(files, profile)
    requires PlanOk(files, opts, profile, p) && TablesOk(files, opts, profile, p)
    ensures R.ReadHeader(stream, start) == Ok(m) && m.tocOffset == p.tocOffset && m.itocOffset == p.itocOffset
    ensures Lists(R.ReadItoc(stream, start, m), files, p.order, p.offsets, false)
  {
    hide *;
    forall k | 0 <= k <= |files| ensures opts.alignment > 0 && |p.order| == |files| == |p.offsets| &&
        (forall j :: 0 <= j < |files| ==> p.order[j] < |files|)
      && p.contentOffset + Starts(files, p.order, opts.alignment)[k] <= U64_MAX
      && (k < |files| ==> p.contentOffset + Starts(files, p.order, opts.alignment)[k] == p.offsets[p.order[k]])
    {
      StartsArePlanned(files, opts, profile, p, k);
    }
    StartsArePlanned(files, opts, profile, p, 0);
    TablesParts(files, opts, profile, p);
    PlanBounds(files, opts, profile, p);
    ModeKinds(profile.mode);
    OrderFacts(files, profile);
    HeaderLies(stream, start, files, opts, profile, p, payloads);
    IndexLies(stream, start, files, opts, profile, p, payloads);
    m := MetadataReads(stream, start, files, opts, profile, p, payloads);
    RecordedOffsets(m, opts, profile, p);
    ItocReads(stream, start, m, files, p.order, profile.directItoc, p.itocTable.value);
    ItocEntriesReport(files, p.order, p.contentOffset, Starts(files, p.order, opts.alignment), p.offsets);
  }

  lemma {:induction false} ItocEntriesReport(files: seq<InputFile>, order: seq<nat>, base: u64, starts: seq<nat>,
        offsets: seq<u64>)
    requires |order| == |files| == |offsets| && |starts| == |order| + 1
    requires forall k :: 0 <= k < |order| ==> order[k] < |files|
    requires forall k :: 0 <= k <= |order| ==> base + starts[k] <= U64_MAX
    requires forall k :: 0 <= k < |order| ==> base + starts[k] == offsets[order[k]]
    ensures Lists(Ok(ItocEntries(files, order, base, starts)), files, order, offsets, false)
  {
    hide R.ItocFileName;
  }

  // ----- the main results -----

  /** Every entry of a listing reads back the payload written for its input. */
  lemma {:induction false} ListedPayloads(stream: bytes, start: nat, files: seq<InputFile>, opts: Options,
        profile: Profile, target: P5R.Target, p: Plan, payloads: seq<bytes>)
    requires PayloadsFit(files, p, payloads) && At(stream, start, ArchiveBytes(p, payloads)) && |stream| <= U64_MAX
    requires forall k :: 0 <= k < |files| ==> Payload(files[p.order[k]], opts.p5rEncryption, target) == Ok(payloads[k])
    requires Lists(R.GetFiles(stream, start), files, Listing(files, profile), p.offsets, profile.mode.HasToc())
    requires IsOrder(Listing(files, profile), |files|) && IsOrder(p.order, |files|)
    requires PlanOk(files, opts, profile, p)
    ensures AllRead(stream, start, R.GetFiles(stream, start).value, files, opts, profile, target, p)
  {
    var entries, listing := R.GetFiles(stream, start).value, Listing(files, profile);
    hide PlanOk, R.GetFiles, At, ArchiveBytes, Listing, Payload, R.ReadPacked;
    forall k | 0 <= k < |files|
      ensures EntryRead(stream, start, entries[k], files[listing[k]], p.offsets[listing[k]], opts, profile, target)
    {
      assert listing[k] in p.order;
      var j :| 0 <= j < |p.order| && p.order[j] == listing[k];
      PayloadReads(stream, start, files, opts, profile, p, payloads, j, entries[k]);
    }
  }

  lemma {:induction false} ListingIsOrder(files: seq<InputFile>, profile: Profile)
    requires PhysicalOrder(files, profile).Ok?
    ensures IsOrder(Listing(files, profile), |files|) && IsOrder(PhysicalOrder(files, profile).value, |files|)
    ensures profile.mode.HasToc() ==> Listing(files, profile) == Indices(|files|)
    ensures !profile.mode.HasToc() ==> Listing(files, profile) == PhysicalOrder(files, profile).value
  {
    hide PhysicalOrder, IsOrder;
    OrderFacts(files, profile);
    IsOrderFromPermutation(Indices(|files|), |files|);
  }

  /** Whole-archive round trip. Whatever precedes or follows the archive in the stream, in every
      index mode, `get_files` reports every input exactly once with its ID, sizes and offset
      (with its directory, name and user string where there is a TOC), and reading an entry
      returns exactly the payload written. TOC modes fail precisely when some input has no
      name. */
  lemma {:induction false} ArchiveReadsBack(stream: bytes, start: nat, files: seq<InputFile>, opts: Options,
        profile: Profile, target: P5R.Target, p: Plan)
    requires profile.mode.Toc? ==> TocFits(files)
    requires Written(stream, start, files, opts, profile, target, p)
    ensures R.GetFiles(stream, start).Ok? <==> (profile.mode.HasToc() ==> AllNamed(files))
    ensures R.GetFiles(stream, start).Err? ==> R.GetFiles(stream, start) == Err(R.MissingFileName)
    ensures R.GetFiles(stream, start).Ok? ==>
            AllRead(stream, start, R.GetFiles(stream, start).value, files, opts, profile, target, p)
  {
    hide *;
    var payloads := WrittenParts(stream, start, files, opts, profile, target, p);
    ListingIsOrder(files, profile);
    ModeKinds(profile.mode);
    if profile.mode.HasToc() {
      TocListing(stream, start, files, opts, profile, p, payloads);
    } else {
      PlanBounds(files, opts, profile, p);
      var m := ItocListing(stream, start, files, opts, profile, p, payloads);
      GetFromItoc(stream, start, m);
    }
    ListsOk(R.GetFiles(stream, start), files, Listing(files, profile), p.offsets, profile.mode.HasToc());
    if R.GetFiles(stream, start).Ok? {
      ListedPayloads(stream, start, files, opts, profile, target, p, payloads);
    }
  }

  lemma {:induction false} ListsOk(r: Result<seq<R.CpkFile>, R.ReaderError>, files: seq<InputFile>,
        indices: seq<nat>, offsets: seq<u64>, named: bool)
    ensures Lists(r, files, indices, offsets, named) ==> r.Ok?
  {
  }

  /** With both indexes, the TOC row and the ITOC row of one input name the same byte. */
  lemma {:induction false} IndexesAgree(stream: bytes, start: nat, files: seq<InputFile>, opts: Options,
        profile: Profile, target: P5R.Target, p: Plan)
    requires profile.mode.TocAndItoc? && AllNamed(files)
    requires Written(stream, start, files, opts, profile, target, p)
    ensures R.ReadHeader(stream, start).Ok?
    ensures var m := R.ReadHeader(stream, start).value;
      var toc, itoc := R.ReadToc(stream, start, m), R.ReadItoc(stream, start, m);
      && toc.Ok? && itoc.Ok? && |toc.value| == |itoc.value| == |p.order| == |files|
      && forall k :: 0 <= k < |files| ==>
           && p.order[k] < |files|
           && toc.value[p.order[k]].absoluteOffset == itoc.value[k].absoluteOffset
           && toc.value[p.order[k]].id == itoc.value[k].id
           && toc.value[p.order[k]].fileSize == itoc.value[k].fileSize
  {
    ModeKinds(profile.mode);
    assert profile.mode.HasToc() && profile.mode.HasItoc();
    hide *;
    var payloads := WrittenParts(stream, start, files, opts, profile, target, p);
    TocListing(stream, start, files, opts, profile, p, payloads);
    PlanBounds(files, opts, profile, p);
    var m := ItocListing(stream, start, files, opts, profile, p, payloads);
    GetFromToc(stream, start, m);
    SameByte(R.ReadToc(stream, start, m), R.ReadItoc(stream, start, m), files, p.order, p.offsets);
  }

  lemma {:induction false} SameByte(toc: Result<seq<R.CpkFile>, R.ReaderError>, itoc: Result<seq<R.CpkFile>,
        R.ReaderError>, files: seq<InputFile>, order: seq<nat>, offsets: seq<u64>)
    requires Lists(toc, files, Indices(|files|), offsets, true) && Lists(itoc, files, order, offsets, false)
    ensures toc.Ok? && itoc.Ok? && |toc.value| == |itoc.value| == |order| == |files|
    ensures forall k :: 0 <= k < |files| ==>
      && order[k] < |files| && toc.value[order[k]].absoluteOffset == itoc.value[k].absoluteOffset
      && toc.value[order[k]].id == itoc.value[k].id && toc.value[order[k]].fileSize == itoc.value[k].fileSize
  {
    hide P.UpToNul, R.ItocFileName;
    forall k | 0 <= k < |files| ensures order[k] < |files| &&
        toc.value[order[k]].absoluteOffset == itoc.value[k].absoluteOffset
      && toc.value[order[k]].id == itoc.value[k].id && toc.value[order[k]].fileSize == itoc.value[k].fileSize
    {
      assert Reports(itoc.value[k], files[order[k]], offsets[order[k]], false);
      assert Indices(|files|)[order[k]] == order[k];
      assert Reports(toc.value[order[k]], files[Indices(|files|)[order[k]]], offsets[Indices(|files|)[order[k]]], true);
    }
  }

  /** The engine's own lookup agrees with the plan: the content offset plus the aligned sizes of
      the DataL rows and of the DataH rows below an ID is that file's payload offset. */
  lemma {:induction false} TwoTableOffsets(files: seq<InputFile>, opts: Options, profile: Profile, p: Plan, k: nat)
    requires k < |files| && profile.mode.HasItoc() && MakePlan(files, opts, profile) == Ok(p)
    ensures opts.alignment > 0 && |p.order| == |files| == |p.offsets|
    ensures forall j :: 0 <= j < |files| ==> p.order[j] < |files|
    ensures p.offsets[p.order[k]] == p.contentOffset
              + SumBelow(files, Group(files, p.order, true), files[p.order[k]].id, opts.alignment)
              + SumBelow(files, Group(files, p.order, false), files[p.order[k]].id, opts.alignment)
  {
    hide MakePlan, PlanOk, TablesOk, PhysicalOrder, SumBelow, Group, Start, OrderOk;
    PlanFacts(files, opts, profile);
    PlanParts(files, opts, profile, p);
    OrderFacts(files, profile);
    TwoTableLookup(files, p.order, p.contentOffset, opts.alignment, k);
  }

  lemma {:induction false} NoDataCells(rows: seq<seq<B.UtfValue>>)
    requires forall i, j :: 0 <= i < |rows| && 0 <= j < |rows[i]| ==> !rows[i][j].CellData?
    ensures B.RowsData(rows) == []
  {
    forall i | 0 <= i < |rows| ensures B.RowData(rows[i]) == [] {
      EmptyParts(B.RowPayloads(rows[i]));
    }
    EmptyParts(B.RowsPayloads(rows));
  }

  lemma {:induction false} EmptyParts(chunks: seq<bytes>)
    requires forall i :: 0 <= i < |chunks| ==> chunks[i] == []
    ensures Concat(chunks) == []
  {
    if chunks != [] {
      EmptyParts(chunks[..|chunks| - 1]);
    }
  }
}
