/** What `CpkReader` returns for a byte stream. */
module ReaderSpec {
  import opened BitOps
  import opened Bytes
  import opened Wrappers
  import opened Layout
  import opened Sorting
  import opened Text
  import P = UtfParse
  import P5R

  datatype ReaderError =
    | TableError | InvalidHeaderChunk | MissingContentOffset | MissingFileName | MissingFileSize
    | MissingFileOffset | MissingTocAndItoc | InvalidTocColumn | InvalidItoc | ItocContentOffsetTooLarge
    | FileTooLarge | IoError | GetFilesNotCalled

  // ----- chunks -----

  datatype ChunkKind = Cpk | Toc | Itoc | Etoc | Gtoc | Unknown(magic: bytes)

  function KindOf(magic: bytes): ChunkKind {
    if magic == Ascii("CPK ") then Cpk
    else if magic == Ascii("TOC ") then Toc
    else if magic == Ascii("ITOC") then Itoc
    else if magic == Ascii("ETOC") then Etoc
    else if magic == Ascii("GTOC") then Gtoc
    else Unknown(magic)
  }

  /** The key stream of an encrypted table: 0x5f, multiplied by 0x15 for each byte. */
  function Key(i: nat): byte {
    if i == 0 then 0x5f else Key(i - 1) * 0x15 % 256
  }

  function DecryptTable(table: bytes): (r: bytes)
    ensures |r| == |table|
  {
    seq(|table|, i requires 0 <= i < |table| => P5R.XorByte(table[i], Key(i)))
  }

  /** The table cipher undoes itself. */
  lemma {:induction false} TableCipherInvolution(table: bytes)
    ensures DecryptTable(DecryptTable(table)) == table
  {
    forall i | 0 <= i < |table| ensures DecryptTable(DecryptTable(table))[i] == table[i] {
      XorInvolution(table[i], Key(i));
    }
  }

  /** The cipher flips the bits of each byte where the key byte has ones. */
  lemma {:induction false} TableCipherBits(table: bytes, i: nat, b: nat)
    requires i < |table| && b < 8
    ensures Bit(DecryptTable(table)[i], b) <==> Bit(table[i], b) != Bit(Key(i), b)
  {
    P5R.XorByteBits(table[i], Key(i), b);
  }

  lemma {:induction false} FirstKeys()
    ensures Key(0) == 0x5f && Key(1) == 0xcb && Key(2) == 0xa7 && Key(3) == 0xb3
  {
    assert Key(1) == Key(0) * 0x15 % 256;
    assert Key(2) == Key(1) * 0x15 % 256;
    assert Key(3) == Key(2) * 0x15 % 256;
  }

  lemma {:induction false} FirstXor()
    ensures P5R.XorByte(0x1f, 0x5f) == 0x40
  {
    assert Xor(0, 2) == 2;
    assert Xor(1, 5) == 4;
    assert Xor(3, 11) == 8;
    assert Xor(7, 23) == 16;
    assert Xor(15, 47) == 32;
    assert Xor(31, 95) == 64;
  }

  lemma {:induction false} SecondXor()
    ensures P5R.XorByte(0x9e, 0xcb) == 0x55
  {
    assert Xor(0, 0) == 0;
    assert Xor(1, 1) == 0;
    assert Xor(2, 3) == 1;
    assert Xor(4, 6) == 2;
    assert Xor(9, 12) == 5;
    assert Xor(19, 25) == 10;
    assert Xor(39, 50) == 21;
    assert Xor(79, 101) == 42;
    assert Xor(158, 203) == 85;
  }

  lemma {:induction false} ThirdXor()
    ensures P5R.XorByte(0xf3, 0xa7) == 0x54
  {
    assert Xor(0, 0) == 0;
    assert Xor(1, 1) == 0;
    assert Xor(3, 2) == 1;
    assert Xor(7, 5) == 2;
    assert Xor(15, 10) == 5;
    assert Xor(30, 20) == 10;
    assert Xor(60, 41) == 21;
    assert Xor(121, 83) == 42;
    assert Xor(243, 167) == 84;
  }

  lemma {:induction false} FourthXor()
    ensures P5R.XorByte(0xf5, 0xb3) == 0x46
  {
    assert Xor(0, 0) == 0;
    assert Xor(1, 1) == 0;
    assert Xor(3, 2) == 1;
    assert Xor(7, 5) == 2;
    assert Xor(15, 11) == 4;
    assert Xor(30, 22) == 8;
    assert Xor(61, 44) == 17;
    assert Xor(122, 89) == 35;
    assert Xor(245, 179) == 70;
  }

  /** The first four bytes of every sealed table. */
  lemma {:induction false} SealedMagic(rest: bytes)
    ensures var table := [0x1f, 0x9e, 0xf3, 0xf5] + rest;
      DecryptTable(table)[..4] == Ascii("@UTF") == P.MAGIC
  {
    FirstKeys();
    FirstXor();
    SecondXor();
    ThirdXor();
    FourthXor();
    assert Ascii("@UTF") == [0x40, 0x55, 0x54, 0x46];
    hide Key, P5R.XorByte, Ascii;
    var table := [0x1f, 0x9e, 0xf3, 0xf5] + rest;
    var r := DecryptTable(table);
    assert table[0] == 0x1f && table[1] == 0x9e && table[2] == 0xf3 && table[3] == 0xf5;
    assert r[..4] == [r[0], r[1], r[2], r[3]];
  }

  const CHUNK_HEADER_SIZE := 0x10

  function ReadContainer(stream: bytes, pos: nat): Option<(ChunkKind, bytes)> {
    var start := pos + CHUNK_HEADER_SIZE;
    if start > |stream| then None
    else
      var kind := KindOf(stream[pos..pos + 4]);
      var size := FromLe(stream[pos + 8..start]);
      if size < P.HEADER_SIZE || (kind == Cpk && size + CHUNK_HEADER_SIZE > 0x800) then None
      else if start + size > |stream| then None
      else
        var raw := stream[start..start + size];
        var table := if stream[pos + 4] == 0 then DecryptTable(raw) else raw;
        if P.MAGIC <= table then Some((kind, table)) else None
  }

  /** A chunk of the given kind, parsed. */
  function ReadTable(stream: bytes, pos: nat, kind: ChunkKind): Result<P.HighTable, ReaderError> {
    match ReadContainer(stream, pos)
    case None => Err(TableError)
    case Some((k, table)) =>
      if k != kind then Err(InvalidHeaderChunk)
      else
        match P.Parse(table)
        case None => Err(TableError)
        case Some(t) => Ok(t)
  }

  // ----- metadata -----

  datatype Metadata = Metadata(
    fileSize: u64, contentOffset: u64, contentSize: u64, tocOffset: u64, tocSize: u64, itocOffset: u64,
    itocSize: u64, etocOffset: u64, etocSize: u64, gtocOffset: u64, gtocSize: u64, version: u16, revision: u16,
    align: u16, sorted: bool, eid: u16, files: u32, cpkMode: u32, enableFileName: bool, updateDateTime: u64,
    codec: u32, dpkItoc: u32, enableTocCrc: bool, enableFileCrc: bool)

  function Get(t: P.HighTable, name: string): u64 {
    match P.U64ByName(t, 0, Ascii(name))
    case Some(v) => v
    case None => 0
  }

  function ToU16(v: u64): u16 { if v <= U16_MAX then v else 0 }
  function ToU32(v: u64): u32 { if v <= U32_MAX then v else 0 }

  function ParseMetadata(t: P.HighTable): Metadata {
    Metadata(Get(t, "FileSize"), Get(t, "ContentOffset"), Get(t, "ContentSize"), Get(t, "TocOffset"), Get(t, "TocSize"),
      Get(t, "ItocOffset"), Get(t, "ItocSize"), Get(t, "EtocOffset"), Get(t, "EtocSize"), Get(t, "GtocOffset"),
      Get(t, "GtocSize"), ToU16(Get(t, "Version")), ToU16(Get(t, "Revision")), ToU16(Get(t, "Align")),
          Get(t, "Sorted") != 0,
      ToU16(Get(t, "EID")), ToU32(Get(t, "Files")), ToU32(Get(t, "CpkMode")), Get(t, "EnableFileName") != 0,
      Get(t, "UpdateDateTime"), ToU32(Get(t, "Codec")), ToU32(Get(t, "DpkItoc")), Get(t, "EnableTocCrc") != 0,
      Get(t, "EnableFileCrc") != 0)
  }

  // ----- entries -----

  datatype CpkFile = CpkFile(
    directory: bytes, fileName: bytes, fileOffset: u64, absoluteOffset: u64, fileSize: u32, extractSize: u32,
    id: Option<u32>, userString: bytes, fileCrc: Option<u32>)

  /** A zero extract size stands for the packed size. */
  function EffectiveExtractSize(fileSize: u32, extractSize: u32): u32 {
    if extractSize == 0 then fileSize else extractSize
  }

  /** String offset zero is the null reference. */
  function StringAt(t: P.HighTable, i: nat, j: nat): Option<bytes> {
    var v :- P.Value(t, i, j);
    if v.StringValue? && v.offset != 0 then P.GetString(t, v.offset) else None
  }

  function NumericAt(t: P.HighTable, i: nat, j: nat): Option<u64> {
    var v :- P.Value(t, i, j);
    P.ToU64(v)
  }

  function OptionalString(t: P.HighTable, i: nat, j: Option<nat>): bytes {
    if j.None? then []
    else
      match StringAt(t, i, j.value)
      case None => []
      case Some(s) => s
  }

  function OptionalNumber(t: P.HighTable, i: nat, j: Option<nat>): Option<u64> {
    if j.None? then None else NumericAt(t, i, j.value)
  }

  function NarrowU32(v: Option<u64>): Option<u32> {
    match v
    case Some(n) => if n <= U32_MAX then Some(n) else None
    case None => None
  }

  // ----- TOC -----

  const ENGINE_TOC_FILE_BASE := 0x800

  datatype TocColumns = TocColumns(
    fileName: nat, fileSize: nat, fileOffset: nat, dirName: Option<nat>, extractSize: Option<nat>,
    id: Option<nat>, userString: Option<nat>, fileCrc: Option<nat>)

  function FindTocColumns(t: P.HighTable): Result<TocColumns, ReaderError> {
    var name, size, offset := P.ColumnIndex(t, Ascii("FileName")), P.ColumnIndex(t, Ascii("FileSize")),
        P.ColumnIndex(t, Ascii("FileOffset"));
    if name.None? || size.None? || offset.None? then Err(InvalidTocColumn)
    else Ok(TocColumns(name.value, size.value, offset.value, P.ColumnIndex(t, Ascii("DirName")),
              P.ColumnIndex(t, Ascii("ExtractSize")), P.ColumnIndex(t, Ascii("ID")),
              P.ColumnIndex(t, Ascii("UserString")), P.ColumnIndex(t, Ascii("FileCrc"))))
  }

  function TocFile(t: P.HighTable, c: TocColumns, i: nat): Result<CpkFile, ReaderError> {
    var fileName := StringAt(t, i, c.fileName);
    if fileName.None? then Err(MissingFileName)
    else
      var fileSize := NumericAt(t, i, c.fileSize);
      if fileSize.None? then Err(MissingFileSize)
      else if fileSize.value > U32_MAX then Err(FileTooLarge)
      else
        var given := OptionalNumber(t, i, c.extractSize);
        var extractSize := if given.Some? then given.value else fileSize.value;
        if extractSize > U32_MAX then Err(FileTooLarge)
        else
          var fileOffset := NumericAt(t, i, c.fileOffset);
          if fileOffset.None? || ENGINE_TOC_FILE_BASE + fileOffset.value > U64_MAX then Err(MissingFileOffset)
          else Ok(CpkFile(OptionalString(t, i, c.dirName), fileName.value, fileOffset.value,
                    ENGINE_TOC_FILE_BASE + fileOffset.value, fileSize.value,
                        EffectiveExtractSize(fileSize.value, extractSize),
                    NarrowU32(OptionalNumber(t, i, c.id)), OptionalString(t, i, c.userString),
                    NarrowU32(OptionalNumber(t, i, c.fileCrc))))
  }

  function TocFiles(t: P.HighTable, c: TocColumns, n: nat): (r: Result<seq<CpkFile>, ReaderError>)
    ensures r.Ok? ==> |r.value| == n
  {
    if n == 0 then Ok([])
    else
      var front :- TocFiles(t, c, n - 1);
      var last :- TocFile(t, c, n - 1);
      Ok(front + [last])
  }

  function ReadToc(stream: bytes, start: nat, m: Metadata): Result<seq<CpkFile>, ReaderError> {
    if start + m.tocOffset > U64_MAX then Err(MissingFileOffset)
    else
      var t :- ReadTable(stream, start + m.tocOffset, Toc);
      var c :- FindTocColumns(t);
      TocFiles(t, c, |t.rows|)
  }

  // ----- ITOC -----

  datatype ItocRow = ItocRow(id: u32, fileSize: u32, extractSize: u32, fileCrc: Option<u32>)

  function ColumnOr(t: P.HighTable, name: string, default: nat): nat {
    match P.ColumnIndex(t, Ascii(name))
    case Some(j) => j
    case None => default
  }

  function CollectRow(t: P.HighTable, i: nat): Result<ItocRow, ReaderError> {
    var id := NumericAt(t, i, ColumnOr(t, "ID", 0));
    if id.None? || id.value > U32_MAX then Err(InvalidItoc)
    else
      var fileSize := NumericAt(t, i, ColumnOr(t, "FileSize", 1));
      if fileSize.None? then Err(MissingFileSize)
      else if fileSize.value > U32_MAX then Err(FileTooLarge)
      else
        var given := NumericAt(t, i, ColumnOr(t, "ExtractSize", 2));
        var extractSize := if given.Some? then given.value else fileSize.value;
        if extractSize > U32_MAX then Err(FileTooLarge)
        else Ok(ItocRow(id.value, fileSize.value, extractSize,
            NarrowU32(OptionalNumber(t, i, P.ColumnIndex(t, Ascii("FileCrc"))))))
  }

  function CollectRows(t: P.HighTable, n: nat): (r: Result<seq<ItocRow>, ReaderError>)
    ensures r.Ok? ==> |r.value| == n
  {
    if n == 0 then Ok([])
    else
      var front :- CollectRows(t, n - 1);
      var last :- CollectRow(t, n - 1);
      Ok(front + [last])
  }

  function RowId(): ItocRow -> int {
    (r: ItocRow) => r.id as int
  }

  function ItocFileName(id: nat): bytes {
    PaddedDecimal(id, 5) + Ascii(".bin")
  }

  /** The entries of the first n rows and the running relative offset after them. */
  function Materialize(rows: seq<ItocRow>, contentOffset: u64, alignment: nat,
        n: nat): (r: Result<(seq<CpkFile>, u64), ReaderError>)
    requires n <= |rows|
    ensures r.Ok? ==> |r.value.0| == n
  {
    if n == 0 then Ok(([], 0))
    else
      var front :- Materialize(rows, contentOffset, alignment, n - 1);
      var (files, relative) := front;
      var row := rows[n - 1];
      if contentOffset + relative > U64_MAX then Err(MissingFileOffset)
      else
        var padded := ReaderAlignUp(row.fileSize, alignment);
        if padded.None? || relative + padded.value > U64_MAX then Err(MissingFileOffset)
        else
          Ok((files + [CpkFile([], ItocFileName(row.id), relative, contentOffset + relative, row.fileSize,
                               EffectiveExtractSize(row.fileSize, row.extractSize), Some(row.id), [], row.fileCrc)],
              relative + padded.value))
  }

  /** Rows of one nested table, which must be present and parse. */
  function NestedRows(t: P.HighTable, name: string): Result<seq<ItocRow>, ReaderError> {
    match P.DataByName(t, 0, Ascii(name))
    case None => Err(InvalidItoc)
    case Some(data) =>
      match P.Parse(data)
      case None => Err(TableError)
      case Some(nested) => CollectRows(nested, |nested.rows|)
  }

  function ItocRows(t: P.HighTable, eid: u16): Result<seq<ItocRow>, ReaderError> {
    if eid != 0 then CollectRows(t, |t.rows|)
    else if P.DataByName(t, 0, Ascii("DataL")).None? || P.DataByName(t, 0, Ascii("DataH")).None? then Err(InvalidItoc)
    else if P.Parse(P.DataByName(t, 0, Ascii("DataL")).value).None? || P.Parse(P.DataByName(t, 0,
        Ascii("DataH")).value).None? then Err(TableError)
    else
      var low :- NestedRows(t, "DataL");
      var high :- NestedRows(t, "DataH");
      Ok(low + high)
  }

  predicate NoAdjacentDuplicate(rows: seq<ItocRow>) {
    forall k :: 0 <= k < |rows| - 1 ==> rows[k].id != rows[k + 1].id
  }

  function ReadItoc(stream: bytes, start: nat, m: Metadata): Result<seq<CpkFile>, ReaderError> {
    if m.contentOffset == 0 then Err(MissingContentOffset)
    else if m.contentOffset > U32_MAX then Err(ItocContentOffsetTooLarge)
    else if start + m.itocOffset > U64_MAX then Err(MissingFileOffset)
    else
      var t :- ReadTable(stream, start + m.itocOffset, Itoc);
      var rows :- ItocRows(t, m.eid);
      var sorted := SortBy(rows, RowId());
      if !NoAdjacentDuplicate(sorted) then Err(InvalidItoc)
      else
        var r :- Materialize(sorted, m.contentOffset, if m.align == 0 then 1 else m.align as nat, |sorted|);
        Ok(r.0)
  }

  // ----- the archive -----

  function ReadHeader(stream: bytes, start: nat): Result<Metadata, ReaderError> {
    var t :- ReadTable(stream, start, Cpk);
    if t.rows == [] then Err(InvalidHeaderChunk) else Ok(ParseMetadata(t))
  }

  function ReadIndex(stream: bytes, start: nat, m: Metadata): Result<seq<CpkFile>, ReaderError> {
    if m.tocOffset != 0 then ReadToc(stream, start, m)
    else if m.itocOffset != 0 then ReadItoc(stream, start, m)
    else Err(MissingTocAndItoc)
  }

  function GetFiles(stream: bytes, start: nat): Result<seq<CpkFile>, ReaderError> {
    var m :- ReadHeader(stream, start);
    ReadIndex(stream, start, m)
  }

  function ReadPacked(stream: bytes, start: nat, f: CpkFile): Result<bytes, ReaderError> {
    var pos := start + f.absoluteOffset;
    if pos > U64_MAX then Err(MissingFileOffset)
    else if f.fileSize == 0 then Ok([])
    else if pos + f.fileSize > |stream| then Err(IoError)
    else Ok(stream[pos..pos + f.fileSize])
  }
}
