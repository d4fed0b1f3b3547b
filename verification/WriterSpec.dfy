/** The archive `write_with_profile` emits: its index tables, its layout plan and its bytes. */
module WriterSpec {
  import opened BitOps
  import opened Bytes
  import opened Wrappers
  import opened Layout
  import opened Sorting
  import B = UtfBuild

  // ----- inputs -----

  datatype Mode = Toc | Itoc | TocAndItoc {
    predicate HasToc() { Toc? || TocAndItoc? }
    predicate HasItoc() { Itoc? || TocAndItoc? }
    function CpkMode(): u32 {
      match this
      case Itoc => 0
      case Toc => 1
      case TocAndItoc => 2
    }
  }

  datatype Profile = Profile(
    mode: Mode, directItoc: bool, version: u16, revision: u16, updateDateTime: u64, tvers: bytes, comment: bytes)

  datatype Options = Options(alignment: u16, p5rEncryption: bool)

  /** Where an entry's packed bytes come from: an extracted file, or a range of an archive. */
  datatype Source = FromFile(content: bytes) | FromArchive(archive: bytes, offset: u64, size: u32)

  datatype InputFile = InputFile(
    directory: bytes, fileName: bytes, source: Source, size: u32, extractSize: u32, id: u32, userString: bytes)

  datatype WriterError =
    | InvalidAlignment(alignment: u16) | EmptyInput | TooManyFiles | HeaderTooLarge
    | ArithmeticOverflow | DuplicateItocId(id: u32) | ItocIdTooLarge(id: u32)
    | ItocContentOffsetTooLarge | InvalidRawPayload | SizeChanged

  const ENGINE_INDEX_BASE := 0x800
  const COPYRIGHT_MARKER_OFFSET := 0x7fa
  const CHUNK_HEADER_SIZE := 0x10

  const ENCRYPT_MARK: bytes := Ascii("CRI_CFATTR:ENCRYPT")
  const COPYRIGHT_MARKER: bytes := Ascii("(c)CRI")

  predicate ValidAlignment(a: u16) {
    a != 0 && IsPowerOfTwo(a)
  }

  // ----- physical order -----

  /** The first input, in order, whose ID is out of range or already taken. */
  function CheckIds(files: seq<InputFile>, n: nat): (r: Option<WriterError>)
    requires n <= |files|
  {
    if n == 0 then None
    else
      var earlier := CheckIds(files, n - 1);
      if earlier.Some? then earlier
      else if files[n - 1].id > U16_MAX then Some(ItocIdTooLarge(files[n - 1].id))
      else if exists j :: 0 <= j < n - 1 && files[j].id == files[n - 1].id then Some(DuplicateItocId(files[n - 1].id))
      else None
  }

  function Indices(n: nat): (r: seq<nat>)
    ensures |r| == n && forall i :: 0 <= i < n ==> r[i] == i
  {
    seq(n, i requires 0 <= i < n => i)
  }

  function IdOf(files: seq<InputFile>): nat -> int {
    (i: nat) => if i < |files| then files[i].id else -1
  }

  /** Input order without an ITOC, ascending IDs with one. */
  function PhysicalOrder(files: seq<InputFile>, profile: Profile): Result<seq<nat>, WriterError> {
    if !profile.mode.HasItoc() then Ok(Indices(|files|))
    else
      match CheckIds(files, |files|)
      case Some(e) => Err(e)
      case None => Ok(SortBy(Indices(|files|), IdOf(files)))
  }

  // ----- index tables -----

  function Column(name: string, t: B.UtfType): B.UtfColumn {
    B.UtfColumn(Ascii(name), t)
  }

  const TOC_COLUMNS: seq<B.UtfColumn> :=
    [Column("DirName", B.TypeString), Column("FileName", B.TypeString), Column("FileSize", B.TypeU32),
     Column("ExtractSize", B.TypeU32), Column("FileOffset", B.TypeU64), Column("ID", B.TypeU32),
     Column("UserString", B.TypeString)]

  function TocRow(f: InputFile, offset: u64): seq<B.UtfValue> {
    [B.CellString(f.directory), B.CellString(f.fileName), B.CellU32(f.size), B.CellU32(f.extractSize),
     B.CellU64(offset), B.CellU32(f.id), B.CellString(f.userString)]
  }

  function TocTable(files: seq<InputFile>, offsets: seq<u64>): B.Table
    requires |offsets| == |files|
  {
    B.Table(Ascii("CpkTocInfo"), TOC_COLUMNS,
      seq(|files|, i requires 0 <= i < |files| => TocRow(files[i], offsets[i])))
  }

  /** Both sizes fit 16 bits: the row belongs to DataL. */
  predicate IsLow(f: InputFile) {
    f.size <= U16_MAX && f.extractSize <= U16_MAX
  }

  function ItocColumns(low: bool): seq<B.UtfColumn> {
    var t := if low then B.TypeU16 else B.TypeU32;
    [Column("ID", B.TypeU16), Column("FileSize", t), Column("ExtractSize", t)]
  }

  predicate InTable(f: InputFile, low: bool) {
    f.id <= U16_MAX && (low ==> IsLow(f))
  }

  function ItocRow(f: InputFile, low: bool): seq<B.UtfValue>
    requires InTable(f, low)
  {
    if low then [B.CellU16(f.id), B.CellU16(f.size), B.CellU16(f.extractSize)]
    else [B.CellU16(f.id), B.CellU32(f.size), B.CellU32(f.extractSize)]
  }

  predicate AllInTable(files: seq<InputFile>, indices: seq<nat>, low: bool) {
    forall k :: 0 <= k < |indices| ==> indices[k] < |files| && InTable(files[indices[k]], low)
  }

  function ItocRowsTable(files: seq<InputFile>, indices: seq<nat>, low: bool, name: bytes): B.Table
    requires AllInTable(files, indices, low)
  {
    B.Table(name, ItocColumns(low), seq(|indices|, k requires 0 <= k < |indices| => ItocRow(files[indices[k]], low)))
  }

  /** The members of one width group, in the given order. */
  function Group(files: seq<InputFile>, order: seq<nat>, low: bool): (r: seq<nat>)
    requires forall k :: 0 <= k < |order| ==> order[k] < |files|
    ensures forall k :: 0 <= k < |r| ==> r[k] in order && r[k] < |files| && IsLow(files[r[k]]) == low
  {
    if order == [] then []
    else
      var front := Group(files, order[..|order| - 1], low);
      var last := order[|order| - 1];
      if IsLow(files[last]) == low then front + [last] else front
  }

  const ITOC_INFO_COLUMNS: seq<B.UtfColumn> := [Column("DataL", B.TypeData), Column("DataH", B.TypeData)]

  predicate OrderOk(files: seq<InputFile>, order: seq<nat>) {
    forall k :: 0 <= k < |order| ==> order[k] < |files| && files[order[k]].id <= U16_MAX
  }

  function ItocInfoTable(low: bytes, high: bytes): B.Table {
    B.Table(Ascii("CpkItocInfo"), ITOC_INFO_COLUMNS, [[B.CellData(low), B.CellData(high)]])
  }

  function ItocBytes(files: seq<InputFile>, order: seq<nat>, direct: bool): Option<bytes>
    requires OrderOk(files, order)
  {
    if direct then B.Build(ItocRowsTable(files, order, false, Ascii("CpkExtendId")))
    else
      var low :- B.Build(ItocRowsTable(files, Group(files, order, true), true, Ascii("CpkItocL")));
      var high :- B.Build(ItocRowsTable(files, Group(files, order, false), false, Ascii("CpkItocH")));
      B.Build(ItocInfoTable(low, high))
  }

  /** Every index of an order of 16-bit IDs fits the table its width sends it to. */
  lemma {:induction false} OrderInTable(files: seq<InputFile>, order: seq<nat>)
    requires OrderOk(files, order)
    ensures AllInTable(files, order, false)
    ensures AllInTable(files, Group(files, order, true), true) && AllInTable(files, Group(files, order, false), false)
  {
    forall low: bool, k | 0 <= k < |Group(files, order, low)|
      ensures InTable(files[Group(files, order, low)[k]], low)
    {
      assert Group(files, order, low)[k] in order;
    }
  }

  const HEADER_COLUMNS: seq<B.UtfColumn> :=
    [Column("UpdateDateTime", B.TypeU64), Column("FileSize", B.TypeU64), Column("ContentOffset", B.TypeU64),
     Column("ContentSize", B.TypeU64), Column("TocOffset", B.TypeU64), Column("TocSize", B.TypeU64),
     Column("EtocOffset", B.TypeU64), Column("EtocSize", B.TypeU64), Column("ItocOffset", B.TypeU64),
     Column("ItocSize", B.TypeU64), Column("GtocOffset", B.TypeU64), Column("GtocSize", B.TypeU64),
     Column("Files", B.TypeU32), Column("Version", B.TypeU16), Column("Revision", B.TypeU16),
     Column("Align", B.TypeU16), Column("Sorted", B.TypeU16), Column("EID", B.TypeU16),
     Column("EnableFileName", B.TypeU16), Column("CpkMode", B.TypeU32), Column("Tvers", B.TypeString),
     Column("Comment", B.TypeString), Column("Codec", B.TypeU32), Column("DpkItoc", B.TypeU32),
     Column("EnableTocCrc", B.TypeU16), Column("EnableFileCrc", B.TypeU16)]

  datatype HeaderInfo = HeaderInfo(
    archiveSize: u64, contentOffset: u64, contentSize: u64, tocOffset: u64, tocSize: u64,
    itocOffset: u64, itocSize: u64, alignment: u16, fileCount: u32)

  function HeaderRow(h: HeaderInfo, p: Profile): seq<B.UtfValue> {
    [B.CellU64(p.updateDateTime), B.CellU64(h.archiveSize), B.CellU64(h.contentOffset),
     B.CellU64(h.contentSize), B.CellU64(h.tocOffset), B.CellU64(h.tocSize),
     B.CellU64(0), B.CellU64(0), B.CellU64(h.itocOffset),
     B.CellU64(h.itocSize), B.CellU64(0), B.CellU64(0),
     B.CellU32(h.fileCount), B.CellU16(p.version), B.CellU16(p.revision),
     B.CellU16(h.alignment), B.CellU16(0), B.CellU16(if p.mode.HasItoc() && p.directItoc then 1 else 0),
     B.CellU16(if p.mode.HasToc() then 1 else 0), B.CellU32(p.mode.CpkMode()), B.CellString(p.tvers),
     B.CellString(p.comment), B.CellU32(0), B.CellU32(0),
     B.CellU16(0), B.CellU16(0)]
  }

  function HeaderTable(h: HeaderInfo, p: Profile): B.Table {
    B.Table(Ascii("CpkHeader"), HEADER_COLUMNS, [HeaderRow(h, p)])
  }

  // ----- chunks -----

  datatype ChunkKind = CpkChunk | TocChunk | ItocChunk

  function ChunkMagic(k: ChunkKind): (m: bytes)
    ensures |m| == 4
  {
    match k
    case CpkChunk => Ascii("CPK ")
    case TocChunk => Ascii("TOC ")
    case ItocChunk => Ascii("ITOC")
  }

  /** A nonzero byte after the magic means the table is not encrypted. */
  const PLAIN_MARK: bytes := [0xff, 0xff, 0xff, 0xff]

  /** Magic, the plaintext marker, the table length in little-endian order, the table. */
  function Chunk(k: ChunkKind, table: bytes): (c: bytes)
    ensures |c| == CHUNK_HEADER_SIZE + |table|
  {
    ChunkMagic(k) + PLAIN_MARK + Le(|table|, 8) + table
  }

  // ----- the plan -----

  function FromOption<T>(o: Option<T>): Result<T, WriterError> {
    match o
    case Some(x) => Ok(x)
    case None => Err(ArithmeticOverflow)
  }

  function CheckedAlignUp(value: nat, a: nat): Result<nat, WriterError>
    requires a >= 1
  {
    if value > U64_MAX then Err(ArithmeticOverflow) else FromOption(WriterAlignUp(value, a))
  }

  /** A table is built or not; an absent table takes no room. */
  function TocPart(files: seq<InputFile>, offsets: seq<u64>, mode: Mode): Result<Option<bytes>, WriterError>
    requires |offsets| == |files|
  {
    if !mode.HasToc() then Ok(None)
    else
      var table :- FromOption(B.Build(TocTable(files, offsets)));
      Ok(Some(table))
  }

  function ItocPart(files: seq<InputFile>, order: seq<nat>, profile: Profile): Result<Option<bytes>, WriterError>
    requires profile.mode.HasItoc() ==> OrderOk(files, order)
  {
    if !profile.mode.HasItoc() then Ok(None)
    else
      var table :- FromOption(ItocBytes(files, order, profile.directItoc));
      Ok(Some(table))
  }

  function ChunkLength(table: Option<bytes>): nat {
    match table
    case None => 0
    case Some(t) => CHUNK_HEADER_SIZE + |t|
  }

  /** The metadata cursor after an optional chunk. */
  function AfterChunk(cursor: nat, table: Option<bytes>, a: nat): Result<nat, WriterError>
    requires a >= 1
  {
    match table
    case None => Ok(cursor)
    case Some(t) => CheckedAlignUp(cursor + CHUNK_HEADER_SIZE + |t|, a)
  }

  function SizesInOrder(files: seq<InputFile>, order: seq<nat>): (r: seq<nat>)
    requires forall k :: 0 <= k < |order| ==> order[k] < |files|
    ensures |r| == |order|
  {
    seq(|order|, k requires 0 <= k < |order| => files[order[k]].size as nat)
  }

  /** Every step of the payload cursor stays within 64 bits. */
  predicate CursorFits(sizes: seq<nat>, base: nat, a: nat)
    requires a > 0
  {
    base <= U64_MAX && forall k :: 0 <= k < |sizes| ==> Start(sizes, base, a, k) + sizes[k] + (a - 1) <= U64_MAX
  }

  function PositionIn(order: seq<nat>, i: nat): (k: nat)
    ensures k <= |order| && (k < |order| ==> order[k] == i) && (k == |order| ==> i !in order)
  {
    if order == [] then 0
    else if order[0] == i then 0
    else PositionIn(order[1..], i) + 1
  }

  /** The placeholder offsets of the first pass. */
  function ZeroOffsets(n: nat): (r: seq<u64>)
    ensures |r| == n
  {
    seq(n, _ => 0)
  }

  // ----- facts about the order -----

  lemma {:induction false} IdsChecked(files: seq<InputFile>, n: nat)
    requires n <= |files| && CheckIds(files, n).None?
    ensures forall i :: 0 <= i < n ==> files[i].id <= U16_MAX
    ensures forall i, j :: 0 <= i < j < n ==> files[i].id != files[j].id
  {
    if n > 0 {
      IdsChecked(files, n - 1);
    }
  }

  /** Every input index once. */
  ghost predicate IsOrder(order: seq<nat>, n: nat) {
    && |order| == n && multiset(order) == multiset(Indices(n))
    && (forall k :: 0 <= k < n ==> order[k] < n)
    && (forall i :: 0 <= i < n ==> i in order)
  }

  lemma {:induction false} IsOrderFromPermutation(order: seq<nat>, n: nat)
    requires multiset(order) == multiset(Indices(n))
    ensures IsOrder(order, n)
  {
    Permuted(order, Indices(n));
    forall k | 0 <= k < |order| ensures order[k] < n {
      assert order[k] in order;
      assert order[k] in Indices(n);
    }
    forall i | 0 <= i < n ensures i in order {
      assert Indices(n)[i] == i;
      assert i in Indices(n);
    }
  }

  /** The physical order lists every input once; with an ITOC it is the strictly ascending order
      of 16-bit IDs. */
  lemma {:induction false} OrderFacts(files: seq<InputFile>, profile: Profile)
    requires PhysicalOrder(files, profile).Ok?
    ensures IsOrder(PhysicalOrder(files, profile).value, |files|)
    ensures profile.mode.HasItoc() ==>
              && OrderOk(files, PhysicalOrder(files, profile).value)
              && DistinctKeys(Indices(|files|), IdOf(files))
              && StrictlySorted(PhysicalOrder(files, profile).value, IdOf(files))
  {
    var order := PhysicalOrder(files, profile).value;
    if profile.mode.HasItoc() {
      IdsChecked(files, |files|);
      SortSorts(Indices(|files|), IdOf(files));
      SortStrict(Indices(|files|), IdOf(files));
    }
    IsOrderFromPermutation(order, |files|);
  }

  lemma {:induction false} PositionOf(order: seq<nat>, k: nat)
    requires k < |order| && forall i, j :: 0 <= i < j < |order| ==> order[i] != order[j]
    ensures PositionIn(order, order[k]) == k
  {
    if k > 0 {
      PositionOf(order[1..], k - 1);
    }
  }

  /** The identity key tells positions apart: an order never repeats an index. */
  lemma {:induction false} OrderDistinct(order: seq<nat>, n: nat)
    requires IsOrder(order, n)
    ensures forall i, j :: 0 <= i < j < |order| ==> order[i] != order[j]
  {
    var key := (i: nat) => i as int;
    assert DistinctKeys(Indices(n), key);
    DistinctPermuted(Indices(n), order, key);
  }

  // ----- facts about the cursor -----

  lemma {:induction false} ContentAligned(value: nat, a: nat)
    requires IsPowerOfTwo(a) && a <= U16_MAX && CheckedAlignUp(value, a).Ok?
    ensures CheckedAlignUp(value, a).value == Up(value, a) <= U64_MAX
    ensures Aligned(Up(value, a), a)
  {
    MaskRoundsUp(value, a);
    UpIsAligned(value, a);
  }

  /** When no step overflows, every payload start and the archive's end fit 64 bits. */
  lemma {:induction false} StartsFit(sizes: seq<nat>, base: nat, a: nat, k: nat)
    requires Aligned(base, a) && CursorFits(sizes, base, a) && k <= |sizes|
    ensures Start(sizes, base, a, k) <= U64_MAX
  {
    if k > 0 {
      CursorStep(sizes, base, a, k - 1);
    }
  }

  // ----- the plan -----

  /** What is settled before payloads are placed. */
  datatype Index = Index(order: seq<nat>, tocProbe: Option<bytes>, itocTable: Option<bytes>, itocOffset: nat,
        contentOffset: nat)

  function MakeIndex(files: seq<InputFile>, a: nat, profile: Profile): (r: Result<Index, WriterError>)
    requires a >= 1
  {
    var order :- PhysicalOrder(files, profile);
    OrderFacts(files, profile);
    var tocProbe :- TocPart(files, ZeroOffsets(|files|), profile.mode);
    var itocTable :- ItocPart(files, order, profile);
    var cursor :- AfterChunk(ENGINE_INDEX_BASE, tocProbe, a);
    var end :- AfterChunk(cursor, itocTable, a);
    var contentOffset :- CheckedAlignUp(end, a);
    if profile.mode.HasItoc() && contentOffset > U32_MAX then Err(ItocContentOffsetTooLarge)
    else Ok(Index(order, tocProbe, itocTable, if profile.mode.HasItoc() then cursor else 0, contentOffset))
  }

  datatype Plan = Plan(
    order: seq<nat>, tocTable: Option<bytes>, itocTable: Option<bytes>, headerTable: bytes,
    tocOffset: nat, itocOffset: nat, contentOffset: nat, offsets: seq<u64>, archiveSize: nat)

  lemma {:induction false} AfterChunkFacts(cursor: nat, table: Option<bytes>, a: nat)
    requires IsPowerOfTwo(a) && a <= U16_MAX && cursor <= U64_MAX && AfterChunk(cursor, table, a).Ok?
    ensures cursor + ChunkLength(table) <= AfterChunk(cursor, table, a).value <= U64_MAX
  {
    hide Up, WriterAlignUp, IsPowerOfTwo, Aligned;
    if table.Some? {
      ContentAligned(cursor + CHUNK_HEADER_SIZE + |table.value|, a);
    }
  }

  ghost predicate IndexLaidOut(x: Index, a: nat, mode: Mode) {
    && Aligned(x.contentOffset, a) && ENGINE_INDEX_BASE <= x.contentOffset <= U64_MAX
    && (mode.HasItoc() ==> ENGINE_INDEX_BASE <= x.itocOffset && x.contentOffset <= U32_MAX)
    && (!mode.HasItoc() ==> x.itocOffset == 0)
    && (x.tocProbe.Some? <==> mode.HasToc()) && (x.itocTable.Some? <==> mode.HasItoc())
    && (mode.HasToc() && mode.HasItoc() ==> ENGINE_INDEX_BASE + ChunkLength(x.tocProbe) <= x.itocOffset)
    && ENGINE_INDEX_BASE + ChunkLength(x.tocProbe) <= x.contentOffset
    && x.itocOffset + ChunkLength(x.itocTable) <= x.contentOffset
  }

  /** The steps behind an index that was made. */
  lemma {:induction false} IndexSteps(files: seq<InputFile>, a: nat, profile: Profile) returns (cursor: nat, end: nat)
    requires a >= 1 && MakeIndex(files, a, profile).Ok?
    ensures var x := MakeIndex(files, a, profile).value;
      && Ok(x.order) == PhysicalOrder(files, profile)
      && TocPart(files, ZeroOffsets(|files|), profile.mode) == Ok(x.tocProbe)
      && (profile.mode.HasItoc() ==> OrderOk(files, x.order))
      && ItocPart(files, x.order, profile) == Ok(x.itocTable)
      && AfterChunk(ENGINE_INDEX_BASE, x.tocProbe, a) == Ok(cursor) && AfterChunk(cursor, x.itocTable, a) == Ok(end)
      && CheckedAlignUp(end, a) == Ok(x.contentOffset)
      && (profile.mode.HasItoc() ==> x.contentOffset <= U32_MAX)
      && x.itocOffset == if profile.mode.HasItoc() then cursor else 0
  {
    hide TocPart, ItocPart, PhysicalOrder, AfterChunk, CheckedAlignUp;
    OrderFacts(files, profile);
    var x := MakeIndex(files, a, profile).value;
    cursor := AfterChunk(ENGINE_INDEX_BASE, x.tocProbe, a).value;
    end := AfterChunk(cursor, x.itocTable, a).value;
  }

  /** The index chunks lie one after the other between 0x800 and the aligned content. */
  lemma {:induction false} IndexFacts(files: seq<InputFile>, a: nat, profile: Profile)
    requires IsPowerOfTwo(a) && a <= U16_MAX && MakeIndex(files, a, profile).Ok?
    ensures var x := MakeIndex(files, a, profile).value;
      && IsOrder(x.order, |files|) && Ok(x.order) == PhysicalOrder(files, profile)
      && IndexLaidOut(x, a, profile.mode)
  {
    assert a >= 1;
    hide TocPart, ItocPart, PhysicalOrder, IsOrder, Aligned, Up, IsPowerOfTwo, AfterChunk, CheckedAlignUp, OrderOk,
      MakeIndex;
    var cursor, end := IndexSteps(files, a, profile);
    OrderFacts(files, profile);
    var x := MakeIndex(files, a, profile).value;
    AfterChunkFacts(ENGINE_INDEX_BASE, x.tocProbe, a);
    AfterChunkFacts(cursor, x.itocTable, a);
    ContentAligned(end, a);
    PartsPresent(files, profile, x);
  }

  lemma {:induction false} PartsPresent(files: seq<InputFile>, profile: Profile, x: Index)
    requires TocPart(files, ZeroOffsets(|files|), profile.mode) == Ok(x.tocProbe)
    requires profile.mode.HasItoc() ==> OrderOk(files, x.order)
    requires ItocPart(files, x.order, profile) == Ok(x.itocTable)
    ensures (x.tocProbe.Some? <==> profile.mode.HasToc()) && (x.itocTable.Some? <==> profile.mode.HasItoc())
  {
  }

  function TocOffsetOf(mode: Mode): nat {
    if mode.HasToc() then ENGINE_INDEX_BASE else 0
  }

  /** The absolute payload offset of every input. */
  function Offsets(files: seq<InputFile>, order: seq<nat>, base: nat, a: nat): (r: seq<u64>)
    requires IsOrder(order, |files|) && Aligned(base, a) && CursorFits(SizesInOrder(files, order), base, a)
    ensures |r| == |files|
  {
    var sizes := SizesInOrder(files, order);
    assert forall k :: 0 <= k <= |sizes| ==> Start(sizes, base, a, k) <= U64_MAX by {
      forall k | 0 <= k <= |sizes| ensures Start(sizes, base, a, k) <= U64_MAX {
        StartsFit(sizes, base, a, k);
      }
    }
    seq(|files|, i requires 0 <= i < |files| => Start(sizes, base, a, PositionIn(order, i)))
  }

  function Relative(offsets: seq<u64>): (r: seq<u64>)
    requires forall i :: 0 <= i < |offsets| ==> offsets[i] >= ENGINE_INDEX_BASE
    ensures |r| == |offsets|
  {
    seq(|offsets|, i requires 0 <= i < |offsets| => offsets[i] - ENGINE_INDEX_BASE)
  }

  lemma {:induction false} OffsetsAboveBase(files: seq<InputFile>, order: seq<nat>, base: nat, a: nat)
    requires IsOrder(order, |files|) && Aligned(base, a) && CursorFits(SizesInOrder(files, order), base, a)
    ensures forall i :: 0 <= i < |files| ==> Offsets(files, order, base, a)[i] >= base
  {
  }

  /** The whole plan, with the source's checks in the source's order. */
  function MakePlan(files: seq<InputFile>, opts: Options, profile: Profile): (r: Result<Plan, WriterError>)
  {
    if !ValidAlignment(opts.alignment) then Err(InvalidAlignment(opts.alignment))
    else if files == [] then Err(EmptyInput)
    else if |files| > U32_MAX then Err(TooManyFiles)
    else
      var a := opts.alignment as nat;
      var x :- MakeIndex(files, a, profile);
      IndexFacts(files, a, profile);
      if !CursorFits(SizesInOrder(files, x.order), x.contentOffset, a) then Err(ArithmeticOverflow)
      else PlacePayloads(files, opts, profile, x)
  }

  lemma {:induction false} TocPartSize(files: seq<InputFile>, offsets: seq<u64>, mode: Mode)
    requires |offsets| == |files| && TocPart(files, offsets, mode).Ok?
    ensures ChunkLength(TocPart(files, offsets, mode).value) <= U64_MAX
  {
    if mode.HasToc() {
      B.TableLength(TocTable(files, offsets));
    }
  }

  predicate InfoFits(files: seq<InputFile>, p: Plan) {
    && |files| <= U32_MAX && p.contentOffset <= p.archiveSize <= U64_MAX && p.itocOffset <= U64_MAX
    && p.tocOffset <= U64_MAX
    && ChunkLength(p.tocTable) <= U64_MAX && ChunkLength(p.itocTable) <= U64_MAX
  }

  /** The plan before its header: the order, the chunk offsets, and where every payload goes. */
  function BeforeHeader(files: seq<InputFile>, a: nat, mode: Mode, x: Index, offsets: seq<u64>,
        tocTable: Option<bytes>): (p: Plan)
    requires a > 0 && IsOrder(x.order, |files|)
  {
    var sizes := SizesInOrder(files, x.order);
    Plan(x.order, tocTable, x.itocTable, [], TocOffsetOf(mode), x.itocOffset, x.contentOffset, offsets,
         Start(sizes, x.contentOffset, a, |sizes|))
  }

  lemma {:induction false} BeforeHeaderFits(files: seq<InputFile>, a: nat, mode: Mode, x: Index, offsets: seq<u64>,
        tocTable: Option<bytes>)
    requires |files| <= U32_MAX && IsOrder(x.order, |files|) && Aligned(x.contentOffset, a)
    requires CursorFits(SizesInOrder(files, x.order), x.contentOffset, a)
    requires x.itocOffset <= x.contentOffset && ChunkLength(x.itocTable) <= U64_MAX && ChunkLength(tocTable) <= U64_MAX
    ensures InfoFits(files, BeforeHeader(files, a, mode, x, offsets, tocTable))
  {
    var sizes := SizesInOrder(files, x.order);
    hide IsOrder, Aligned, SizesInOrder;
    StartsFit(sizes, x.contentOffset, a, |sizes|);
  }

  function PlacePayloads(files: seq<InputFile>, opts: Options, profile: Profile,
        x: Index): (r: Result<Plan, WriterError>)
    requires |files| <= U32_MAX && IsOrder(x.order, |files|)
    requires Aligned(x.contentOffset, opts.alignment)
    requires CursorFits(SizesInOrder(files, x.order), x.contentOffset, opts.alignment)
    requires x.contentOffset >= ENGINE_INDEX_BASE && x.itocOffset <= x.contentOffset
    requires ChunkLength(x.itocTable) <= U64_MAX
  {
    var a := opts.alignment as nat;
    var offsets := Offsets(files, x.order, x.contentOffset, a);
    OffsetsAboveBase(files, x.order, x.contentOffset, a);
    var tocTable :- TocPart(files, Relative(offsets), profile.mode);
    TocPartSize(files, Relative(offsets), profile.mode);
    BeforeHeaderFits(files, a, profile.mode, x, offsets, tocTable);
    FinishPlan(files, opts, profile, BeforeHeader(files, a, profile.mode, x, offsets, tocTable))
  }

  /** What the header table records about a plan. */
  function InfoOf(files: seq<InputFile>, opts: Options, p: Plan): HeaderInfo
    requires InfoFits(files, p)
  {
    HeaderInfo(p.archiveSize, p.contentOffset, p.archiveSize - p.contentOffset, p.tocOffset, ChunkLength(p.tocTable),
      p.itocOffset, ChunkLength(p.itocTable), opts.alignment, |files|)
  }

  /** The header comes last: it records sizes and offsets of everything else. */
  function FinishPlan(files: seq<InputFile>, opts: Options, profile: Profile, p: Plan): (r: Result<Plan, WriterError>)
    requires InfoFits(files, p)
  {
    var headerTable :- FromOption(B.Build(HeaderTable(InfoOf(files, opts, p), profile)));
    if CHUNK_HEADER_SIZE + |headerTable| > COPYRIGHT_MARKER_OFFSET then Err(HeaderTooLarge)
    else Ok(p.(headerTable := headerTable))
  }
}
