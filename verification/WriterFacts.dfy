/** What the writer accepts, refuses and lays out, in the format's own numbers. */
module WriterFacts {
  import opened BitOps
  import opened Bytes
  import opened Wrappers
  import opened Layout
  import opened WriterSpec
  import opened WriterPlan
  import opened Emission
  import B = UtfBuild
  import U = UtfRoundTrip
  import P5R

  // ----- refusals -----

  /** The alignments the writer takes. */
  const ALIGNMENTS: set<nat> :=
    {1, 2, 4, 8, 0x10, 0x20, 0x40, 0x80, 0x100, 0x200, 0x400, 0x800, 0x1000, 0x2000, 0x4000, 0x8000}

  lemma {:induction false} PowersListed(a: nat)
    requires a < 0x1_0000 && IsPowerOfTwo(a)
    ensures a in ALIGNMENTS
  {
    if a > 1 {
      PowersListed(a / 2);
    }
  }

  lemma {:induction false} ListedPowers()
    ensures forall a :: a in ALIGNMENTS ==> IsPowerOfTwo(a)
  {
    assert IsPowerOfTwo(1);
    assert IsPowerOfTwo(2);
    assert IsPowerOfTwo(4);
    assert IsPowerOfTwo(8);
    assert IsPowerOfTwo(0x10);
    assert IsPowerOfTwo(0x20);
    assert IsPowerOfTwo(0x40);
    assert IsPowerOfTwo(0x80);
    assert IsPowerOfTwo(0x100);
    assert IsPowerOfTwo(0x200);
    assert IsPowerOfTwo(0x400);
    assert IsPowerOfTwo(0x800);
    assert IsPowerOfTwo(0x1000);
    assert IsPowerOfTwo(0x2000);
    assert IsPowerOfTwo(0x4000);
    assert IsPowerOfTwo(0x8000);
  }

  lemma {:induction false} AlignmentIff(a: u16)
    ensures ValidAlignment(a) <==> a in ALIGNMENTS
  {
    ListedPowers();
    if ValidAlignment(a) {
      PowersListed(a);
    }
  }

  /** An input whose ID an ITOC cannot hold: too wide, or taken by an earlier input. */
  ghost predicate Offends(files: seq<InputFile>, i: nat)
    requires i < |files|
  {
    files[i].id > 0xffff || exists j :: 0 <= j < i && files[j].id == files[i].id
  }

  /** The check names the first offender, and passes exactly when there is none. */
  lemma {:induction false} FirstOffender(files: seq<InputFile>, n: nat)
    requires n <= |files|
    ensures CheckIds(files, n).None? <==> forall i :: 0 <= i < n ==> !Offends(files, i)
    ensures CheckIds(files, n).Some? ==>
              exists i :: 0 <= i < n && Offends(files, i) && (forall k :: 0 <= k < i ==> !Offends(files, k))
                && CheckIds(files, n).value == Offence(files[i].id)
  {
    if n > 0 {
      FirstOffender(files, n - 1);
      if CheckIds(files, n - 1).None? && Offends(files, n - 1) {
        assert CheckIds(files, n).value == Offence(files[n - 1].id);
      }
    }
  }

  function Offence(id: u32): WriterError {
    if id > 0xffff then ItocIdTooLarge(id) else DuplicateItocId(id)
  }

  /** The checks made before anything is laid out, in their order. */
  lemma {:induction false} Refusals(files: seq<InputFile>, opts: Options, profile: Profile)
    ensures var r := MakePlan(files, opts, profile);
      && (opts.alignment !in ALIGNMENTS ==> r == Err(InvalidAlignment(opts.alignment)))
      && (opts.alignment in ALIGNMENTS ==>
            && (files == [] ==> r == Err(EmptyInput))
            && (|files| > 0xffff_ffff ==> r == Err(TooManyFiles))
            && (0 < |files| <= 0xffff_ffff && profile.mode != Toc && CheckIds(files, |files|).Some? ==>
                  r == Err(CheckIds(files, |files|).value)))
  {
    AlignmentIff(opts.alignment);
    hide ValidAlignment, CheckIds, TocPart, ItocPart, AfterChunk, CheckedAlignUp, PlacePayloads, ALIGNMENTS, IsOrder,
      CursorFits;
    if opts.alignment in ALIGNMENTS && profile.mode != Toc && CheckIds(files, |files|).Some? {
      assert PhysicalOrder(files, profile) == Err(CheckIds(files, |files|).value);
    }
  }

  // ----- layout -----

  /** Chunks follow one another from 0x800, each on the next multiple of the alignment, and the content
      on the next after the last. */
  ghost predicate Packed(itocOffset: nat, contentOffset: nat, toc: nat, itoc: nat, a: nat, mode: Mode)
    requires a > 0
  {
    match mode
    case Toc => itocOffset == 0 && contentOffset == Up(0x810 + toc, a)
    case Itoc => itocOffset == 0x800 && contentOffset == Up(0x810 + itoc, a)
    case TocAndItoc => itocOffset == Up(0x810 + toc, a) && contentOffset == Up(itocOffset + 0x10 + itoc, a)
  }

  function Length(table: Option<bytes>): nat {
    if table.None? then 0 else |table.value|
  }

  lemma {:induction false} AfterChunkIs(cursor: nat, table: Option<bytes>, a: nat)
    requires IsPowerOfTwo(a) && a <= U16_MAX && a > 0 && AfterChunk(cursor, table, a).Ok?
    ensures AfterChunk(cursor, table, a).value == if table.None? then cursor else Up(cursor + 0x10 + Length(table), a)
    ensures table.Some? ==> Aligned(AfterChunk(cursor, table, a).value, a)
  {
    hide Up, WriterAlignUp, IsPowerOfTwo, Aligned;
    if table.Some? {
      ContentAligned(cursor + 0x10 + |table.value|, a);
    }
  }

  lemma {:induction false} UpOfAligned(v: nat, a: nat)
    requires Aligned(v, a)
    ensures Up(v, a) == v
  {
  }

  /** The index as it is made. */
  lemma {:induction false} IndexPacked(files: seq<InputFile>, a: nat, profile: Profile)
    requires IsPowerOfTwo(a) && 0 < a <= U16_MAX && MakeIndex(files, a, profile).Ok?
    ensures var x := MakeIndex(files, a, profile).value;
      Packed(x.itocOffset, x.contentOffset, Length(x.tocProbe), Length(x.itocTable), a, profile.mode)
  {
    hide TocPart, ItocPart, PhysicalOrder, IsOrder, Aligned, Up, IsPowerOfTwo, AfterChunk, CheckedAlignUp, OrderOk,
      MakeIndex;
    var x := MakeIndex(files, a, profile).value;
    var cursor, end := IndexSteps(files, a, profile);
    PartsPresent(files, profile, x);
    AfterChunkIs(0x800, x.tocProbe, a);
    AfterChunkIs(cursor, x.itocTable, a);
    ContentAligned(end, a);
    UpOfAligned(end, a);
  }

  /** Every plan is packed like that, around the tables it ends up with. */
  lemma {:induction false} PlanPacked(files: seq<InputFile>, opts: Options, profile: Profile)
    requires MakePlan(files, opts, profile).Ok?
    ensures opts.alignment > 0
    ensures var p := MakePlan(files, opts, profile).value;
      && p.tocOffset == (if profile.mode == Itoc then 0 else 0x800)
      && Packed(p.itocOffset, p.contentOffset, Length(p.tocTable), Length(p.itocTable), opts.alignment, profile.mode)
  {
    hide MakeIndex, PlacePayloads, PhysicalOrder, TocPart, ItocPart, IsOrder, CursorFits, Packed, FinishPlan, Placed,
      IndexLaidOut;
    var a := opts.alignment as nat;
    var x := MakeIndex(files, a, profile).value;
    IndexFacts(files, a, profile);
    var _, _ := IndexSteps(files, a, profile);
    var p := PlacedSteps(files, opts, profile, x);
    IndexPacked(files, a, profile);
    FinalChunks(files, opts, profile, x, p);
  }

  lemma {:induction false} FinalChunks(files: seq<InputFile>, opts: Options, profile: Profile, x: Index, p: Plan)
    requires Placed(files, opts, profile, x, p) && FinishPlan(files, opts, profile, p).Ok?
    requires TocPart(files, ZeroOffsets(|files|), profile.mode) == Ok(x.tocProbe)
    ensures var q := FinishPlan(files, opts, profile, p).value;
      && q.itocOffset == x.itocOffset && q.contentOffset == x.contentOffset && q.itocTable == x.itocTable
      && Length(q.tocTable) == Length(x.tocProbe) && q.tocOffset == (if profile.mode == Itoc then 0 else 0x800)
  {
    hide TocPart, IsOrder, CursorFits, FinishPlan, Offsets, Relative, InfoFits, Aligned, Start, SizesInOrder;
    FinishSteps(files, opts, profile, p);
    ProbeAgrees(files, Relative(p.offsets), profile.mode);
  }

  // ----- tables -----

  /** The encoding mark of UTF-8, and a name that lies NUL-terminated in the pool, at the offset stored
      at 0x14. */
  ghost predicate Titled(b: bytes, name: string) {
    && |b| >= 0x20 && At(b, 8, [0, 1])
    && exists o: u32 :: At(b, 0x14, Be(o, 4)) && At(b, FromBe(b[0xc..0x10]) + 8 + o, Ascii(name) + [0])
  }

  lemma {:induction false} TitleFields(t: B.Table)
    ensures At(B.HeaderBytes(t), 8, [0, 1]) && At(B.HeaderBytes(t), 0x14, Be(B.OffsetOf(B.PoolOf(t), t.name), 4))
  {
    hide At, Be, B.OffsetOf, B.PoolOf, B.Width, Times, B.RowsData;
    TitleParts(B.MAGIC + Be(B.TotalSize(t) - 8, 4),
      Be(B.RowsStart(t) - 8, 2) + Be(B.StringStart(t) - 8, 4) + Be(B.DataStart(t) - 8, 4),
      Be(B.OffsetOf(B.PoolOf(t), t.name), 4), Be(|t.columns|, 2) + Be(B.Width(t.columns), 2) + Be(|t.rows|, 4));
    assert B.HeaderBytes(t) == B.MAGIC + Be(B.TotalSize(t) - 8, 4) + [0, 1]
      + (Be(B.RowsStart(t) - 8, 2) + Be(B.StringStart(t) - 8, 4) + Be(B.DataStart(t) - 8, 4))
      + Be(B.OffsetOf(B.PoolOf(t), t.name), 4)
      + (Be(|t.columns|, 2) + Be(B.Width(t.columns), 2) + Be(|t.rows|, 4));
  }

  lemma {:induction false} TitleParts(a: bytes, b: bytes, name: bytes, c: bytes)
    requires |a| == 8 && |b| == 10
    ensures var s := a + [0, 1] + b + name + c; At(s, 8, [0, 1]) && At(s, 0x14, name)
  {
  }

  lemma {:induction false} HeldAt(data: bytes, s: bytes, o: nat)
    requires B.Holds(data, s, o)
    ensures At(data, o, s + [0])
  {
    assert data[o..o + |s|] == s;
  }

  lemma {:induction false} TableTitled(t: B.Table, name: string)
    requires B.Accepts(t) && t.name == Ascii(name)
    ensures Titled(B.TableBytes(t), name)
  {
    hide *;
    var b, h, pool := B.TableBytes(t), B.HeaderBytes(t), B.PoolOf(t);
    U.Sections(t);
    U.Bounds(t);
    TitleFields(t);
    U.FieldsAt(b, t);
    B.PoolCovers(t);
    U.OffsetsFit(t);
    var o := B.OffsetOf(pool, t.name);
    NameHeld(pool, t.name);
    AtInside(b, 0, h, 8, [0, 1]);
    AtInside(b, 0, h, 0x14, Be(o, 4));
    AtInside(b, B.StringStart(t), pool.data, o, t.name + [0]);
    TitledBy(b, name, o, B.StringStart(t));
  }

  lemma {:induction false} NameHeld(pool: B.Pool, s: bytes)
    requires B.WellPooled(pool) && s in pool.offsets
    ensures At(pool.data, B.OffsetOf(pool, s), s + [0])
  {
    HeldAt(pool.data, s, pool.offsets[s]);
  }

  lemma {:induction false} TitledBy(b: bytes, name: string, o: u32, strings: nat)
    requires |b| >= 0x20 && At(b, 8, [0, 1]) && At(b, 0x14, Be(o, 4)) && 8 <= strings <= U32_MAX + 8
    requires At(b, 0xc, Be(strings - 8, 4)) && At(b, strings + o, Ascii(name) + [0])
    ensures Titled(b, name)
  {
    hide At, Be, FromBe, Ascii;
    U.Word32(b, 0xc, strings - 8);
  }

  /** The tables of a plan under their names. */
  lemma {:induction false} TablesTitled(files: seq<InputFile>, opts: Options, profile: Profile, p: Plan)
    requires TablesOk(files, opts, profile, p)
    ensures Titled(p.headerTable, "CpkHeader")
    ensures profile.mode != Itoc ==> p.tocTable.Some? && Titled(p.tocTable.value, "CpkTocInfo")
    ensures profile.mode != Toc ==>
              && p.itocTable.Some?
              && Titled(p.itocTable.value, if profile.directItoc then "CpkExtendId" else "CpkItocInfo")
  {
    TablesBuilt(files, opts, profile, p);
    hide TablesOk, Titled, B.Accepts, B.TableBytes;
    TableTitled(HeaderTable(InfoOf(files, opts, p), profile), "CpkHeader");
    if profile.mode != Itoc {
      TableTitled(TocTable(files, Relative(p.offsets)), "CpkTocInfo");
    }
    if profile.mode != Toc {
      ItocTitled(files, p.order, profile.directItoc);
    }
  }

  lemma {:induction false} TablesBuilt(files: seq<InputFile>, opts: Options, profile: Profile, p: Plan)
    requires TablesOk(files, opts, profile, p)
    ensures var t := HeaderTable(InfoOf(files, opts, p), profile);
      B.Accepts(t) && p.headerTable == B.TableBytes(t)
    ensures profile.mode != Itoc ==>
      var t := TocTable(files, Relative(p.offsets));
      B.Accepts(t) && p.tocTable == Some(B.TableBytes(t))
    ensures profile.mode != Toc ==>
      OrderOk(files, p.order) && p.itocTable.Some? && ItocBytes(files, p.order, profile.directItoc) == p.itocTable
  {
    hide B.Accepts, B.TableBytes, HeaderTable, InfoOf, Relative, OrderOk, TocTable, InfoFits, ItocBytes;
  }

  lemma {:induction false} ItocTitled(files: seq<InputFile>, order: seq<nat>, direct: bool)
    requires OrderOk(files, order) && ItocBytes(files, order, direct).Some?
    ensures Titled(ItocBytes(files, order, direct).value, if direct then "CpkExtendId" else "CpkItocInfo")
    ensures !direct ==> exists low: bytes, high: bytes ::
              && Titled(low, "CpkItocL") && Titled(high, "CpkItocH")
              && B.Build(ItocInfoTable(low, high)) == ItocBytes(files, order, direct)
  {
    hide Titled, B.Accepts, B.TableBytes, OrderOk, AllInTable;
    OrderInTable(files, order);
    if direct {
      TableTitled(ItocRowsTable(files, order, false, Ascii("CpkExtendId")), "CpkExtendId");
    } else {
      var low := ItocRowsTable(files, Group(files, order, true), true, Ascii("CpkItocL"));
      var high := ItocRowsTable(files, Group(files, order, false), false, Ascii("CpkItocH"));
      TableTitled(low, "CpkItocL");
      TableTitled(high, "CpkItocH");
      TableTitled(ItocInfoTable(B.TableBytes(low), B.TableBytes(high)), "CpkItocInfo");
    }
  }

  /** DataL takes the files whose sizes both fit 16 bits, DataH the others, each in the given order. */
  lemma {:induction false} GroupMembers(files: seq<InputFile>, order: seq<nat>, low: bool, i: nat)
    requires (forall k :: 0 <= k < |order| ==> order[k] < |files|) && i < |files|
    ensures i in Group(files, order, low) <==>
              i in order && low == (files[i].size <= 0xffff && files[i].extractSize <= 0xffff)
    ensures |Group(files, order, true)| + |Group(files, order, false)| == |order|
  {
    if order != [] {
      var n := |order| - 1;
      GroupMembers(files, order[..n], low, i);
      assert order == order[..n] + [order[n]];
    }
  }

  // ----- payloads -----

  /** A file's bytes go in as they are, or transformed when it is marked and the option is set; a range of
      an archive goes in unchanged. Nothing goes in whose length is not the declared one. */
  lemma {:induction false} PayloadIs(f: InputFile, p5r: bool, target: P5R.Target)
    ensures f.source.FromFile? ==>
      var content := f.source.content;
      var marked := p5r && f.userString == Ascii("CRI_CFATTR:ENCRYPT") && !target.ScalarElsewhere?;
      Payload(f, p5r, target) ==
        if |content| != f.size then Err(SizeChanged) else Ok(if marked then P5R.Transform(content) else content)
    ensures f.source.FromArchive? ==>
      var FromArchive(archive, offset, size) := f.source;
      Payload(f, p5r, target) ==
        if size == f.size && (size == 0 || offset + size <= |archive|)
        then Ok(if size == 0 then [] else archive[offset..offset + size]) else Err(InvalidRawPayload)
  {
    hide P5R.Transform, Ascii;
  }

  // ----- what lies between -----

  /** A byte of the header chunk, of the marker or of an index chunk. */
  predicate InHead(p: Plan, i: nat) {
    || i < 0x10 + |p.headerTable| || 0x7fa <= i < 0x800
    || (p.tocTable.Some? && p.tocOffset <= i < p.tocOffset + 0x10 + |p.tocTable.value|)
    || (p.itocTable.Some? && p.itocOffset <= i < p.itocOffset + 0x10 + |p.itocTable.value|)
  }

  lemma {:induction false} PutChunkByte(s: bytes, offset: nat, kind: ChunkKind, table: Option<bytes>, i: nat)
    requires table.Some? ==> |s| <= offset
    requires i < |PutChunk(s, offset, kind, table)|
    ensures i < |s| ==> PutChunk(s, offset, kind, table)[i] == s[i]
    ensures |s| <= i ==> table.Some? && i < offset + 0x10 + |table.value|
    ensures |s| <= i < offset ==> PutChunk(s, offset, kind, table)[i] == 0
  {
  }

  lemma {:induction false} HeaderAreaByte(p: Plan, i: nat)
    requires 0x10 + |p.headerTable| <= i < 0x7fa
    ensures |HeaderArea(p)| == 0x800 && HeaderArea(p)[i] == 0
  {
    hide Chunk;
  }

  lemma {:induction false} HeadPadding(files: seq<InputFile>, opts: Options, profile: Profile, p: Plan, i: nat)
    requires PlanOk(files, opts, profile, p) && i < |HeadBytes(p)| && !InHead(p, i)
    ensures HeadBytes(p)[i] == 0
  {
    hide Chunk, At, Start, IsOrder, Aligned, PutChunk, HeaderArea;
    var s0 := HeaderArea(p);
    HeadStart(p);
    var s1 := PutChunk(s0, p.tocOffset, TocChunk, p.tocTable);
    PutChunkFacts(s0, p.tocOffset, TocChunk, p.tocTable);
    var s2 := PutChunk(s1, p.itocOffset, ItocChunk, p.itocTable);
    PutChunkFacts(s1, p.itocOffset, ItocChunk, p.itocTable);
    if i < |s2| {
      PutChunkByte(s1, p.itocOffset, ItocChunk, p.itocTable, i);
      if i < |s1| {
        PutChunkByte(s0, p.tocOffset, TocChunk, p.tocTable, i);
        if i < 0x7fa {
          HeaderAreaByte(p, i);
        }
      }
    }
  }

  /** A byte of one of the first n payloads. */
  ghost predicate InPayloads(files: seq<InputFile>, p: Plan, n: nat, i: nat)
    requires n <= |p.order| && |p.offsets| == |files| && forall k :: 0 <= k < |p.order| ==> p.order[k] < |files|
  {
    exists k :: 0 <= k < n && p.offsets[p.order[k]] <= i < p.offsets[p.order[k]] + files[p.order[k]].size
  }

  lemma {:induction false} PayloadPadding(files: seq<InputFile>, opts: Options, profile: Profile, p: Plan,
        payloads: seq<bytes>, n: nat, i: nat)
    requires PlanOk(files, opts, profile, p) && PayloadsFit(files, p, payloads) && n <= |files|
    requires |HeadBytes(p)| <= i < |PutPayloads(HeadBytes(p), p, payloads, n)| && !InPayloads(files, p, n, i)
    ensures PutPayloads(HeadBytes(p), p, payloads, n)[i] == 0
  {
    hide PlanOk, HeadBytes, PutPayloads, Start, InPayloads, PadTo, Sizes;
    var head := HeadBytes(p);
    if n == 0 {
      NothingPut(head, p, payloads);
    } else {
      EmittedLength(files, opts, profile, p, payloads, n - 1);
      PlanParts(files, opts, profile, p);
      var o := p.offsets[p.order[n - 1]];
      var before, after := PutPayloads(head, p, payloads, n - 1), PutPayloads(head, p, payloads, n);
      PutStep(head, p, payloads, n - 1);
      PaddedByte(before, o, payloads[n - 1], i);
      NotInPayloads(files, p, n, i);
      if i < |before| {
        PayloadPadding(files, opts, profile, p, payloads, n - 1, i);
      }
    }
  }

  lemma {:induction false} NotInPayloads(files: seq<InputFile>, p: Plan, n: nat, i: nat)
    requires 0 < n <= |p.order| && |p.offsets| == |files| && forall k :: 0 <= k < |p.order| ==> p.order[k] < |files|
    requires !InPayloads(files, p, n, i)
    ensures !InPayloads(files, p, n - 1, i)
    ensures var o := p.offsets[p.order[n - 1]]; i < o || o + files[p.order[n - 1]].size <= i
  {
  }

  lemma {:induction false} PaddedByte(s: bytes, o: nat, x: bytes, i: nat)
    requires |s| <= o && i < |PadTo(s, o) + x|
    ensures i < |s| ==> (PadTo(s, o) + x)[i] == s[i]
    ensures |s| <= i < o ==> (PadTo(s, o) + x)[i] == 0
    ensures i < o + |x|
  {
  }

  /** Every other byte of an archive is zero. */
  lemma {:induction false} PaddingIsZero(files: seq<InputFile>, opts: Options, profile: Profile, p: Plan,
        payloads: seq<bytes>, i: nat)
    requires PlanOk(files, opts, profile, p) && PayloadsFit(files, p, payloads)
    requires i < |ArchiveBytes(p, payloads)| && !InHead(p, i) && !InPayloads(files, p, |files|, i)
    ensures ArchiveBytes(p, payloads)[i] == 0
  {
    hide PlanOk, PutPayloads, HeadBytes, InHead, InPayloads;
    var head, all := HeadBytes(p), PutPayloads(HeadBytes(p), p, payloads, |payloads|);
    if i < |head| {
      HeadPadding(files, opts, profile, p, i);
    } else if i < |all| {
      PayloadPadding(files, opts, profile, p, payloads, |files|, i);
    }
  }
}
