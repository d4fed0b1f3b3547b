/** The writer itself: index tables row by row, the layout plan step by step, and emission to a
    seekable output. */
module Writer {
  import opened BitOps
  import opened Bytes
  import opened Wrappers
  import opened Layout
  import opened Sorting
  import opened WriterSpec
  import opened WriterPlan
  import opened Emission
  import B = UtfBuild
  import UtfBuilder
  import P5R

  // ----- physical order -----

  method BuildPhysicalOrder(files: seq<InputFile>, profile: Profile) returns (r: Result<seq<nat>, WriterError>)
    ensures r == PhysicalOrder(files, profile)
  {
    if !profile.mode.HasItoc() { return Ok(Indices(|files|)); }
    var usedIds: set<u32> := {};
    for i := 0 to |files|
      invariant forall id :: id in usedIds <==> exists j :: 0 <= j < i && files[j].id == id
      invariant CheckIds(files, i).None?
    {
      if files[i].id > U16_MAX {
        CheckIdsStops(files, i + 1, |files|);
        return Err(ItocIdTooLarge(files[i].id));
      }
      if files[i].id in usedIds {
        CheckIdsStops(files, i + 1, |files|);
        return Err(DuplicateItocId(files[i].id));
      }
      usedIds := usedIds + {files[i].id};
    }
    r := Ok(SortBy(Indices(|files|), IdOf(files)));
  }

  /** The first failure is the one reported. */
  lemma {:induction false} CheckIdsStops(files: seq<InputFile>, m: nat, n: nat)
    requires m <= n <= |files| && CheckIds(files, m).Some?
    ensures CheckIds(files, n) == CheckIds(files, m)
  {
    if m < n {
      CheckIdsStops(files, m, n - 1);
    }
  }

  // ----- index tables -----

  method BuildTocTable(files: seq<InputFile>, offsets: seq<u64>) returns (r: Option<bytes>)
    requires |offsets| == |files|
    ensures r == B.Build(TocTable(files, offsets))
  {
    hide B.Build;
    var rows: seq<seq<B.UtfValue>> := [];
    for i := 0 to |files|
      invariant |rows| == i && forall k :: 0 <= k < i ==> rows[k] == TocRow(files[k], offsets[k])
    {
      rows := rows + [TocRow(files[i], offsets[i])];
    }
    assert B.Table(Ascii("CpkTocInfo"), TOC_COLUMNS, rows) == TocTable(files, offsets);
    r := UtfBuilder.BuildTable(B.Table(Ascii("CpkTocInfo"), TOC_COLUMNS, rows));
  }

  /** Rows of one ITOC table; an ID or size too wide for its column is refused. */
  method BuildItocRows(files: seq<InputFile>, indices: seq<nat>, low: bool, name: bytes)
        returns (r: Result<bytes, WriterError>)
    requires forall k :: 0 <= k < |indices| ==> indices[k] < |files|
    ensures AllInTable(files, indices, low) ==> r == FromOption(B.Build(ItocRowsTable(files, indices, low, name)))
    ensures !AllInTable(files, indices, low) ==> r.Err?
  {
    hide B.Build;
    var rows: seq<seq<B.UtfValue>> := [];
    for k := 0 to |indices|
      invariant |rows| == k
      invariant forall j :: 0 <= j < k ==> InTable(files[indices[j]], low) && rows[j] == ItocRow(files[indices[j]], low)
    {
      var file := files[indices[k]];
      if file.id > U16_MAX { return Err(ItocIdTooLarge(file.id)); }
      if low && (file.size > U16_MAX || file.extractSize > U16_MAX) { return Err(ArithmeticOverflow); }
      rows := rows + [ItocRow(file, low)];
    }
    assert B.Table(name, ItocColumns(low), rows) == ItocRowsTable(files, indices, low, name);
    var table := UtfBuilder.BuildTable(B.Table(name, ItocColumns(low), rows));
    r := FromOption(table);
  }

  method SplitByWidth(files: seq<InputFile>, order: seq<nat>) returns (low: seq<nat>, high: seq<nat>)
    requires forall k :: 0 <= k < |order| ==> order[k] < |files|
    ensures low == Group(files, order, true) && high == Group(files, order, false)
  {
    low, high := [], [];
    for k := 0 to |order|
      invariant low == Group(files, order[..k], true) && high == Group(files, order[..k], false)
    {
      assert order[..k + 1][..k] == order[..k];
      if IsLow(files[order[k]]) {
        low := low + [order[k]];
      } else {
        high := high + [order[k]];
      }
    }
    assert order[..|order|] == order;
  }

  method BuildItocTable(files: seq<InputFile>, order: seq<nat>, direct: bool) returns (r: Result<bytes, WriterError>)
    requires OrderOk(files, order)
    ensures r == FromOption(ItocBytes(files, order, direct))
  {
    OrderInTable(files, order);
    hide B.Build, ItocRowsTable, AllInTable, Group;
    if direct {
      r := BuildItocRows(files, order, false, Ascii("CpkExtendId"));
      return;
    }
    var low, high := SplitByWidth(files, order);
    var dataL := BuildItocRows(files, low, true, Ascii("CpkItocL"));
    if dataL.Err? { return dataL; }
    var dataH := BuildItocRows(files, high, false, Ascii("CpkItocH"));
    if dataH.Err? { return dataH; }
    var table := UtfBuilder.BuildTable(ItocInfoTable(dataL.value, dataH.value));
    r := FromOption(table);
  }

  // ----- the plan -----

  method ProbeToc(files: seq<InputFile>, offsets: seq<u64>, mode: Mode) returns (r: Result<Option<bytes>, WriterError>)
    requires |offsets| == |files|
    ensures r == TocPart(files, offsets, mode)
  {
    hide B.Build, TocTable;
    if !mode.HasToc() { return Ok(None); }
    var table := BuildTocTable(files, offsets);
    if table.None? { return Err(ArithmeticOverflow); }
    r := Ok(table);
  }

  method ProbeItoc(files: seq<InputFile>, order: seq<nat>, profile: Profile)
        returns (r: Result<Option<bytes>, WriterError>)
    requires profile.mode.HasItoc() ==> OrderOk(files, order)
    ensures r == ItocPart(files, order, profile)
  {
    hide ItocBytes, OrderOk;
    if !profile.mode.HasItoc() { return Ok(None); }
    var table := BuildItocTable(files, order, profile.directItoc);
    if table.Err? { return Err(table.error); }
    r := Ok(Some(table.value));
  }

  /** Everything settled before payloads are placed. */
  method PlanIndex(files: seq<InputFile>, a: nat, profile: Profile) returns (r: Result<Index, WriterError>)
    requires a >= 1
    ensures r == MakeIndex(files, a, profile)
  {
    hide PhysicalOrder, TocPart, ItocPart, CheckedAlignUp, ZeroOffsets, IsOrder, OrderOk;
    var order :- BuildPhysicalOrder(files, profile);
    OrderFacts(files, profile);
    var tocProbe :- ProbeToc(files, ZeroOffsets(|files|), profile.mode);
    var itocProbe :- ProbeItoc(files, order, profile);
    var cursor := ENGINE_INDEX_BASE as nat;
    if tocProbe.Some? {
      cursor :- CheckedAlignUp(cursor + CHUNK_HEADER_SIZE + |tocProbe.value|, a);
    }
    var itocOffset := 0;
    if itocProbe.Some? {
      itocOffset := cursor;
      cursor :- CheckedAlignUp(cursor + CHUNK_HEADER_SIZE + |itocProbe.value|, a);
    }
    var contentOffset :- CheckedAlignUp(cursor, a);
    if profile.mode.HasItoc() && contentOffset > U32_MAX { return Err(ItocContentOffsetTooLarge); }
    PartsPresent(files, profile, Index(order, tocProbe, itocProbe, itocOffset, contentOffset));
    r := Ok(Index(order, tocProbe, itocProbe, itocOffset, contentOffset));
  }

  /** The payload cursor: each file gets the cursor, which then moves past it and up to the next
      aligned offset. */
  method PlaceFiles(files: seq<InputFile>, order: seq<nat>, base: u64, a: nat)
        returns (r: Result<(seq<u64>, nat), WriterError>)
    requires IsOrder(order, |files|) && Aligned(base, a) && IsPowerOfTwo(a) && a <= U16_MAX
    ensures !CursorFits(SizesInOrder(files, order), base, a) ==> r == Err(ArithmeticOverflow)
    ensures CursorFits(SizesInOrder(files, order), base, a) ==>
              r == Ok((Offsets(files, order, base, a), Start(SizesInOrder(files, order), base, a, |order|)))
  {
    hide IsOrder, Aligned, IsPowerOfTwo, SizesInOrder, CheckedAlignUp, Offsets, Start, CursorFits, PlacedUpTo,
      ZeroOffsets;
    OrderLength(order, |files|);
    OrderDistinct(order, |files|);
    AlignedFacts(base, a);
    ghost var sizes := SizesInOrder(files, order);
    var offsets: seq<u64> := ZeroOffsets(|files|);
    var cursor: nat := base;
    PlacedNone(offsets, order, sizes, base, a);
    for k := 0 to |order|
      invariant |offsets| == |files| && cursor == Start(sizes, base, a, k) <= U64_MAX
      invariant PlacedUpTo(offsets, order, sizes, base, a, k)
    {
      SizeOf(files, order, k);
      CursorMoves(sizes, base, a, k);
      var here: u64 := cursor;
      PlaceOne(offsets, order, sizes, base, a, k, here);
      offsets := offsets[order[k] := here];
      var next := CheckedAlignUp(cursor + files[order[k]].size, a);
      if next.Err? { return Err(ArithmeticOverflow); }
      cursor := next.value;
    }
    OffsetsBy(files, order, base, a, offsets);
    r := Ok((offsets, cursor));
  }

  /** The first k payloads have their offsets, and no step so far overflowed. */
  ghost predicate PlacedUpTo(offsets: seq<u64>, order: seq<nat>, sizes: seq<nat>, base: nat, a: nat, k: nat) {
    && a > 0 && k <= |order| == |sizes|
    && (forall j :: 0 <= j < |order| ==> order[j] < |offsets|)
    && (forall j :: 0 <= j < k ==> offsets[order[j]] == Start(sizes, base, a, j))
    && (forall j :: 0 <= j < k ==> Start(sizes, base, a, j) + sizes[j] + (a - 1) <= U64_MAX)
  }

  lemma {:induction false} PlacedNone(offsets: seq<u64>, order: seq<nat>, sizes: seq<nat>, base: nat, a: nat)
    requires a > 0 && |order| == |sizes| && forall j :: 0 <= j < |order| ==> order[j] < |offsets|
    ensures PlacedUpTo(offsets, order, sizes, base, a, 0) && Start(sizes, base, a, 0) == base
  {
  }

  lemma {:induction false} AlignedFacts(v: nat, a: nat)
    requires Aligned(v, a)
    ensures a > 0
  {
  }

  lemma {:induction false} SizeOf(files: seq<InputFile>, order: seq<nat>, k: nat)
    requires k < |order| && forall j :: 0 <= j < |order| ==> order[j] < |files|
    ensures SizesInOrder(files, order)[k] == files[order[k]].size
  {
  }

  /** Adding and rounding with the overflow check is one step of the layout, and fails exactly
      when the layout overflows there. */
  lemma {:induction false} CursorMoves(sizes: seq<nat>, base: u64, a: nat, k: nat)
    requires IsPowerOfTwo(a) && a <= U16_MAX && Aligned(base, a) && k < |sizes|
    ensures var end := Start(sizes, base, a, k) + sizes[k];
      && (end + (a - 1) <= U64_MAX ==>
            CheckedAlignUp(end, a) == Ok(Start(sizes, base, a, k + 1)) && Start(sizes, base, a, k + 1) <= U64_MAX)
      && (end + (a - 1) > U64_MAX ==> CheckedAlignUp(end, a) == Err(ArithmeticOverflow) && !CursorFits(sizes, base, a))
  {
    hide WriterAlignUp, Start, Up, Aligned;
    MaskRoundsUp(Start(sizes, base, a, k) + sizes[k], a);
    CursorStep(sizes, base, a, k);
    RoundedFits(Start(sizes, base, a, k) + sizes[k], a);
  }

  lemma {:induction false} RoundedFits(v: nat, a: nat)
    requires a > 0
    ensures Up(v, a) <= v + (a - 1)
  {
  }

  lemma {:induction false} PlaceOne(offsets: seq<u64>, order: seq<nat>, sizes: seq<nat>, base: nat, a: nat, k: nat,
        cursor: u64)
    requires PlacedUpTo(offsets, order, sizes, base, a, k) && k < |order| && cursor == Start(sizes, base, a, k)
    requires forall i, j :: 0 <= i < j < |order| ==> order[i] != order[j]
    ensures order[k] < |offsets|
    ensures cursor + sizes[k] + (a - 1) <= U64_MAX ==>
            PlacedUpTo(offsets[order[k] := cursor], order, sizes, base, a, k + 1)
  {
    hide Start;
  }

  lemma {:induction false} OffsetsBy(files: seq<InputFile>, order: seq<nat>, base: u64, a: nat, offsets: seq<u64>)
    requires IsOrder(order, |files|) && Aligned(base, a)
    requires |offsets| == |files| && PlacedUpTo(offsets, order, SizesInOrder(files, order), base, a, |order|)
    ensures CursorFits(SizesInOrder(files, order), base, a) && offsets == Offsets(files, order, base, a)
  {
    forall i | 0 <= i < |files| ensures offsets[i] == Offsets(files, order, base, a)[i] {
      var k := PositionIn(order, i);
      assert i in order;
      assert order[k] == i;
    }
  }

  function TableLength(table: Option<bytes>): Option<nat> {
    match table
    case None => None
    case Some(t) => Some(|t|)
  }

  lemma {:induction false} SameLength(s: Option<bytes>, t: Option<bytes>)
    requires (s.Some? <==> t.Some?) && ChunkLength(s) == ChunkLength(t)
    ensures TableLength(s) == TableLength(t)
  {
  }

  /** The second pass: final tables from the placed offsets, and the header. The sizes probed in
      the first pass cannot have changed. */
  method FinishTables(files: seq<InputFile>, opts: Options, profile: Profile, x: Index, offsets: seq<u64>)
        returns (r: Result<Plan, WriterError>)
    requires |files| <= U32_MAX && IsOrder(x.order, |files|)
    requires opts.alignment > 0 && IndexLaidOut(x, opts.alignment, profile.mode)
    requires CursorFits(SizesInOrder(files, x.order), x.contentOffset, opts.alignment)
    requires offsets == Offsets(files, x.order, x.contentOffset, opts.alignment)
    requires TocPart(files, ZeroOffsets(|files|), profile.mode) == Ok(x.tocProbe)
    requires profile.mode.HasItoc() ==> OrderOk(files, x.order)
    requires ItocPart(files, x.order, profile) == Ok(x.itocTable)
    ensures r == PlacePayloads(files, opts, profile, x)
  {
    LaidOut(x, opts.alignment, profile.mode);
    OffsetsAboveBase(files, x.order, x.contentOffset, opts.alignment);
    hide B.Build, TocPart, ItocPart, HeaderTable, Start, CursorFits, Offsets, Relative, SizesInOrder, IsOrder,
      IndexLaidOut, Aligned,
      OrderOk, InfoFits, ZeroOffsets, BeforeHeader, FinishPlan, ChunkLength, TableLength;
    var tocTable :- ProbeToc(files, Relative(offsets), profile.mode);
    var again := ProbeItoc(files, x.order, profile);
    if again.Err? { assert false; }
    ProbeAgrees(files, Relative(offsets), profile.mode);
    SameLength(x.tocProbe, tocTable);
    if TableLength(x.tocProbe) != TableLength(tocTable) || TableLength(x.itocTable) != TableLength(again.value) {
      assert false;
    }
    TocPartSize(files, Relative(offsets), profile.mode);
    BeforeHeaderFits(files, opts.alignment, profile.mode, x, offsets, tocTable);
    r := AddHeader(files, opts, profile, BeforeHeader(files, opts.alignment, profile.mode, x, offsets, tocTable));
  }

  method AddHeader(files: seq<InputFile>, opts: Options, profile: Profile, p: Plan)
        returns (r: Result<Plan, WriterError>)
    requires InfoFits(files, p)
    ensures r == FinishPlan(files, opts, profile, p)
  {
    hide B.Build, HeaderTable, InfoOf;
    var headerTable := UtfBuilder.BuildTable(HeaderTable(InfoOf(files, opts, p), profile));
    if headerTable.None? { return Err(ArithmeticOverflow); }
    if CHUNK_HEADER_SIZE + |headerTable.value| > COPYRIGHT_MARKER_OFFSET { return Err(HeaderTooLarge); }
    r := Ok(p.(headerTable := headerTable.value));
  }

  /** The whole plan. */
  method PlanArchive(files: seq<InputFile>, opts: Options, profile: Profile) returns (r: Result<Plan, WriterError>)
    ensures r == MakePlan(files, opts, profile)
  {
    if !ValidAlignment(opts.alignment) { return Err(InvalidAlignment(opts.alignment)); }
    if files == [] { return Err(EmptyInput); }
    if |files| > U32_MAX { return Err(TooManyFiles); }
    hide MakeIndex, PlacePayloads, TocPart, ItocPart, IndexLaidOut, IsOrder, CursorFits, Offsets, Aligned,
      SizesInOrder, Start, IsPowerOfTwo, PhysicalOrder, ZeroOffsets;
    var a: nat := opts.alignment;
    var x :- PlanIndex(files, a, profile);
    IndexFacts(files, a, profile);
    ghost var _, _ := IndexSteps(files, a, profile);
    LaidOut(x, a, profile.mode);
    var placed := PlaceFiles(files, x.order, x.contentOffset, a);
    if placed.Err? { return Err(placed.error); }
    r := FinishTables(files, opts, profile, x, placed.value.0);
  }

  // ----- emission -----

  function Beyond(s: bytes, n: nat): bytes {
    if n <= |s| then s[n..] else []
  }

  lemma {:induction false} NoZeros(s: bytes)
    ensures s + Zeros(0) == s
  {
  }

  lemma {:induction false} ZerosJoin(s: bytes, m: nat, n: nat)
    ensures s + Zeros(m) + Zeros(n) == s + Zeros(m + n)
  {
  }

  /** A seekable output: bytes written so far and a position among them. */
  class OutStream {
    var data: bytes
    var pos: nat

    /** The output starts with `front`, is positioned after it, and beyond it is still what was
        there before. */
    ghost predicate Holds(front: bytes, before: bytes)
      reads this
    {
      pos == |front| && data == front + Beyond(before, |front|)
    }

    method SeekTo(offset: nat)
      modifies `pos
      ensures pos == offset
    {
      pos := offset;
    }

    method Position(ghost front: bytes, ghost before: bytes) returns (current: nat)
      requires Holds(front, before)
      ensures current == |front|
    {
      current := pos;
    }

    method WriteAll(b: bytes)
      requires pos <= |data|
      modifies this
      ensures pos == old(pos) + |b| <= |data|
      ensures data == old(data[..pos]) + b + Beyond(old(data), pos)
    {
      data := data[..pos] + b + Beyond(data, pos + |b|);
      pos := pos + |b|;
    }

    method Append(b: bytes, ghost front: bytes, ghost before: bytes)
      requires Holds(front, before)
      modifies this
      ensures Holds(front + b, before)
    {
      assert data[..pos] == front;
      WriteAll(b);
      assert Beyond(old(data), pos) == Beyond(before, pos);
    }

    /** Zeros in blocks of 0x2000. */
    method WriteZeros(count: nat, ghost front: bytes, ghost before: bytes)
      requires Holds(front, before)
      modifies this
      ensures Holds(front + Zeros(count), before)
    {
      hide *;
      var left: nat := count;
      ghost var done: nat, sofar := 0, front;
      NoZeros(front);
      while left != 0
        invariant done + left == count && sofar == front + Zeros(done)
        invariant Holds(sofar, before)
      {
        var n: nat := if left < 0x2000 then left else 0x2000;
        ZerosJoin(front, done, n);
        Append(Zeros(n), sofar, before);
        left, done, sofar := left - n, done + n, sofar + Zeros(n);
      }
    }

    /** Zeros up to the offset, or nothing when the output is already there. */
    method FillTo(offset: nat, ghost front: bytes, ghost before: bytes)
      requires Holds(front, before)
      modifies this
      ensures Holds(PadTo(front, offset), before)
    {
      if pos < offset {
        WriteZeros(offset - pos, front, before);
      }
    }

    /** Bytes at an offset: after zero padding when it lies ahead, over what is there when it lies
        behind. */
    method WriteAt(offset: nat, b: bytes, ghost front: bytes, ghost before: bytes)
      requires Holds(front, before)
      modifies this
      ensures |front| <= offset ==> Holds(PadTo(front, offset) + b, before)
      ensures |front| > offset ==>
                pos == offset + |b| && data == old(data)[..offset] + b + Beyond(old(data), offset + |b|)
    {
      if pos < offset {
        WriteZeros(offset - pos, front, before);
      } else if pos > offset {
        SeekTo(offset);
        WriteAll(b);
        return;
      }
      Append(b, PadTo(front, offset), before);
    }
  }

  /** Each chunk ends before the next one's offset. */
  lemma {:induction false} HeadRoom(files: seq<InputFile>, opts: Options, profile: Profile, p: Plan)
    requires PlanOk(files, opts, profile, p)
    ensures CHUNK_HEADER_SIZE + |p.headerTable| <= COPYRIGHT_MARKER_OFFSET
    ensures p.tocTable.Some? ==> p.tocOffset == ENGINE_INDEX_BASE
    ensures p.itocTable.Some? ==>
      && ENGINE_INDEX_BASE <= p.itocOffset
      && (p.tocTable.Some? ==> p.tocOffset + CHUNK_HEADER_SIZE + |p.tocTable.value| <= p.itocOffset)
  {
    hide Start, IsOrder, Aligned, Sizes;
  }

  lemma {:induction false} PadIs(s: bytes, n: nat)
    requires |s| <= n
    ensures s + Zeros(n - |s|) == PadTo(s, n) && |PadTo(s, n)| == n
  {
  }

  method EmitHeader(out: OutStream, p: Plan)
    requires CHUNK_HEADER_SIZE + |p.headerTable| <= COPYRIGHT_MARKER_OFFSET
    modifies out
    ensures out.Holds(HeaderArea(p), old(out.data))
  {
    ghost var before, s := out.data, Chunk(CpkChunk, p.headerTable);
    out.SeekTo(0);
    assert out.Holds([], before) && [] + s == s;
    hide Chunk, OutStream.Holds, PadTo;
    out.Append(Chunk(CpkChunk, p.headerTable), [], before);
    out.WriteZeros(COPYRIGHT_MARKER_OFFSET - (CHUNK_HEADER_SIZE + |p.headerTable|), s, before);
    PadIs(s, COPYRIGHT_MARKER_OFFSET);
    out.Append(COPYRIGHT_MARKER, PadTo(s, COPYRIGHT_MARKER_OFFSET), before);
  }

  method EmitChunk(out: OutStream, offset: nat, kind: ChunkKind, table: Option<bytes>, ghost front: bytes,
        ghost before: bytes)
    requires out.Holds(front, before) && (table.Some? ==> |front| <= offset)
    modifies out
    ensures out.Holds(PutChunk(front, offset, kind, table), before)
  {
    hide Chunk, OutStream.Holds, PadTo;
    if table.Some? {
      out.WriteAt(offset, Chunk(kind, table.value), front, before);
    }
  }

  /** Header, marker and index chunks, then zeros up to the content; no chunk is ever written over
      another. */
  method EmitHead(out: OutStream, files: seq<InputFile>, opts: Options, profile: Profile, p: Plan)
    requires PlanOk(files, opts, profile, p)
    modifies out
    ensures out.Holds(HeadBytes(p), old(out.data))
  {
    hide PlanOk, OutStream.Holds, PutChunk, HeaderArea, PadTo;
    HeadRoom(files, opts, profile, p);
    HeadStart(p);
    ghost var before, s0 := out.data, HeaderArea(p);
    EmitHeader(out, p);
    PutChunkFacts(s0, p.tocOffset, TocChunk, p.tocTable);
    EmitChunk(out, p.tocOffset, TocChunk, p.tocTable, s0, before);
    ghost var s1 := PutChunk(s0, p.tocOffset, TocChunk, p.tocTable);
    EmitChunk(out, p.itocOffset, ItocChunk, p.itocTable, s1, before);
    out.FillTo(p.contentOffset, PutChunk(s1, p.itocOffset, ItocChunk, p.itocTable), before);
  }

  /** One payload: copied from its source, transformed if marked. */
  method ReadPayload(f: InputFile, p5r: bool, target: P5R.Target) returns (r: Result<bytes, WriterError>)
    ensures r == SourceBytes(f, p5r, target)
  {
    match f.source
    case FromArchive(archive, offset, size) =>
      if size != f.size { return Err(InvalidRawPayload); }
      var available := if offset <= |archive| then |archive| - offset else 0;
      var copied := if size < available then size else available;
      if copied != size { return Err(InvalidRawPayload); }
      r := Ok(if copied == 0 then [] else archive[offset..offset + copied]);
    case FromFile(content) =>
      if p5r && f.userString == ENCRYPT_MARK {
        var data := new byte[|content|](i requires 0 <= i < |content| => content[i]);
        assert data[..] == content;
        P5R.DecryptInPlace(data, target);
        r := Ok(data[..]);
      } else {
        r := Ok(content);
      }
  }

  /** Payloads in physical order, each at its planned offset; the output never runs past one. */
  method EmitPayloads(out: OutStream, files: seq<InputFile>, opts: Options, profile: Profile, target: P5R.Target,
        p: Plan, ghost before: bytes)
      returns (e: Option<WriterError>)
    requires |p.order| == |p.offsets| == |files| && forall k :: 0 <= k < |files| ==> p.order[k] < |files|
    requires PlanOk(files, opts, profile, p) && out.Holds(HeadBytes(p), before)
    modifies out
    ensures var payloads := Payloads(files, p.order, opts.p5rEncryption, target, |p.order|);
      && (payloads.Err? ==> e == Some(payloads.error))
      && (payloads.Ok? ==> e.None? && out.Holds(ArchiveBytes(p, payloads.value), before))
  {
    hide PlanOk, HeadBytes, IsOrder, SourceBytes, PutPayloads, ArchiveBytes, PadTo, OutStream.Holds, Payloads;
    ghost var payloads: seq<bytes> := [];
    ghost var s := HeadBytes(p);
    NoPayloads(files, p.order, opts.p5rEncryption, target);
    NothingPut(HeadBytes(p), p, payloads);
    for k := 0 to |p.order|
      invariant |payloads| == k && Payloads(files, p.order, opts.p5rEncryption, target, k) == Ok(payloads)
      invariant SizesFit(files, p, payloads)
      invariant s == PutPayloads(HeadBytes(p), p, payloads, k)
      invariant out.Holds(s, before)
    {
      var file, offset := files[p.order[k]], p.offsets[p.order[k]];
      NeverPast(files, opts, profile, p, payloads);
      var current := out.Position(s, before);
      if current > offset { assert false; }
      out.FillTo(offset, s, before);
      var data := ReadPayload(file, opts.p5rEncryption, target);
      NextPayload(files, p.order, opts.p5rEncryption, target, payloads, data);
      if data.Err? || |data.value| != file.size {
        PayloadFails(files, p.order, opts.p5rEncryption, target, k + 1, |p.order|);
        return Some(if data.Err? then data.error else SizeChanged);
      }
      out.Append(data.value, PadTo(s, offset), before);
      PutOne(HeadBytes(p), p, payloads, data.value);
      s := PadTo(s, offset) + data.value;
      payloads := payloads + [data.value];
    }
    out.FillTo(p.archiveSize, s, before);
    ArchiveIs(p, payloads);
    e := None;
  }

  lemma {:induction false} NoPayloads(files: seq<InputFile>, order: seq<nat>, p5r: bool, target: P5R.Target)
    requires forall k :: 0 <= k < |order| ==> order[k] < |files|
    ensures Payloads(files, order, p5r, target, 0) == Ok([])
  {
  }

  lemma {:induction false} NextPayload(files: seq<InputFile>, order: seq<nat>, p5r: bool, target: P5R.Target,
        payloads: seq<bytes>, data: Result<bytes, WriterError>)
    requires |payloads| < |order| && forall k :: 0 <= k < |order| ==> order[k] < |files|
    requires Payloads(files, order, p5r, target, |payloads|) == Ok(payloads)
    requires data == SourceBytes(files[order[|payloads|]], p5r, target)
    ensures Payloads(files, order, p5r, target, |payloads| + 1) ==
            if data.Err? then Err(data.error)
            else if |data.value| != files[order[|payloads|]].size then Err(SizeChanged)
            else Ok(payloads + [data.value])
  {
    hide SourceBytes;
  }

  /** Before each payload the output has not passed its offset. */
  lemma {:induction false} NeverPast(files: seq<InputFile>, opts: Options, profile: Profile, p: Plan,
        payloads: seq<bytes>)
    requires SizesFit(files, p, payloads) && |payloads| < |files| && PlanOk(files, opts, profile, p)
    ensures |PutPayloads(HeadBytes(p), p, payloads, |payloads|)| <= p.offsets[p.order[|payloads|]]
  {
    hide PlanOk, HeadBytes, PutPayloads;
    PlanParts(files, opts, profile, p);
    EmittedLength(files, opts, profile, p, payloads, |payloads|);
  }

  lemma {:induction false} PayloadFails(files: seq<InputFile>, order: seq<nat>, p5r: bool, target: P5R.Target,
        m: nat, n: nat)
    requires m <= n <= |order| && forall k :: 0 <= k < |order| ==> order[k] < |files|
    requires Payloads(files, order, p5r, target, m).Err?
    ensures Payloads(files, order, p5r, target, n) == Err(Payloads(files, order, p5r, target, m).error)
  {
    if m < n {
      PayloadFails(files, order, p5r, target, m, n - 1);
    }
  }

  /** What is already emitted does not depend on the payloads still to come. */
  lemma {:induction false} PutPrefix(s: bytes, p: Plan, payloads: seq<bytes>, x: bytes, n: nat)
    requires n <= |payloads| < |p.order| && forall k :: 0 <= k < |p.order| ==> p.order[k] < |p.offsets|
    ensures PutPayloads(s, p, payloads + [x], n) == PutPayloads(s, p, payloads, n)
  {
    hide PadTo;
    if n > 0 {
      PutPrefix(s, p, payloads, x, n - 1);
      var more := payloads + [x];
      assert more[n - 1] == payloads[n - 1];
    }
  }

  lemma {:induction false} PutOne(s: bytes, p: Plan, payloads: seq<bytes>, x: bytes)
    requires |payloads| < |p.order| && forall k :: 0 <= k < |p.order| ==> p.order[k] < |p.offsets|
    ensures var n := |payloads|;
      PutPayloads(s, p, payloads + [x], n + 1) == PadTo(PutPayloads(s, p, payloads, n), p.offsets[p.order[n]]) + x
  {
    PutPrefix(s, p, payloads, x, |payloads|);
  }

  lemma {:induction false} ArchiveIs(p: Plan, payloads: seq<bytes>)
    requires |payloads| == |p.order| && forall k :: 0 <= k < |p.order| ==> p.order[k] < |p.offsets|
    ensures ArchiveBytes(p, payloads) == PadTo(PutPayloads(HeadBytes(p), p, payloads, |payloads|), p.archiveSize)
  {
  }

  lemma {:induction false} HeldAtZero(archive: bytes, rest: bytes)
    ensures At(archive + rest, 0, archive)
  {
  }

  datatype Report = Report(files: nat, tocOffset: nat, itocOffset: nat, contentOffset: nat, archiveSize: nat)

  /** `write_with_profile`: on success the output holds exactly the archive from position zero,
      followed by whatever it held beyond, and the position is the archive's size; otherwise the
      error is the one the specification gives. */
  method WriteWithProfile(out: OutStream, files: seq<InputFile>, opts: Options, profile: Profile, target: P5R.Target)
      returns (r: Result<Report, WriterError>)
    modifies out
    ensures var archive := Archive(files, opts, profile, target);
      && (archive.Err? ==> r == Err(archive.error))
      && (archive.Ok? ==> r.Ok? && out.Holds(archive.value, old(out.data)) && At(out.data, 0, archive.value))
    ensures r.Ok? ==>
      && MakePlan(files, opts, profile).Ok?
      && var p := MakePlan(files, opts, profile).value;
         r.value == Report(|files|, p.tocOffset, p.itocOffset, p.contentOffset, p.archiveSize) &&
             out.pos == p.archiveSize
  {
    hide MakePlan, PlanOk, TablesOk, PhysicalOrder, HeadBytes, ArchiveBytes, Payload;
    var p :- PlanArchive(files, opts, profile);
    PlanFacts(files, opts, profile);
    PlanParts(files, opts, profile, p);
    EmitHead(out, files, opts, profile, p);
    var e := EmitPayloads(out, files, opts, profile, target, p, old(out.data));
    if e.Some? { return Err(e.value); }
    ghost var payloads := Payloads(files, p.order, opts.p5rEncryption, target, |p.order|).value;
    ArchiveShape(files, opts, profile, p, payloads);
    HeldAtZero(ArchiveBytes(p, payloads), Beyond(old(out.data), p.archiveSize));
    r := Ok(Report(|files|, p.tocOffset, p.itocOffset, p.contentOffset, p.archiveSize));
  }
}
