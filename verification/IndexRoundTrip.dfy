/** Index chunks read back: the container around a table, and TOC rows. */
module IndexRoundTrip {
  import opened BitOps
  import opened Bytes
  import opened Wrappers
  import opened WriterSpec
  import opened UtfRoundTrip
  import opened Lookup
  import R = ReaderSpec
  import B = UtfBuild
  import P = UtfParse

  // ----- containers -----

  function ReadKind(k: ChunkKind): R.ChunkKind {
    match k
    case CpkChunk => R.Cpk
    case TocChunk => R.Toc
    case ItocChunk => R.Itoc
  }

  lemma {:induction false} KindReadsBack(k: ChunkKind)
    ensures R.KindOf(ChunkMagic(k)) == ReadKind(k)
  {
    match k
    case CpkChunk =>
    case TocChunk =>
      assert Ascii("TOC ")[0] != Ascii("CPK ")[0];
    case ItocChunk =>
      assert Ascii("ITOC")[0] != Ascii("CPK ")[0];
      assert Ascii("ITOC")[0] != Ascii("TOC ")[0];
  }

  lemma {:induction false} ChunkParts(k: ChunkKind, table: bytes)
    ensures var c := Chunk(k, table);
      At(c, 0, ChunkMagic(k)) && At(c, 4, PLAIN_MARK) && At(c, 8, Le(|table|, 8)) && At(c, 16, table)
  {
    var m, f, l := ChunkMagic(k), PLAIN_MARK, Le(|table|, 8);
    assert Chunk(k, table) == m + f + l + table && |m| == |f| == 4 && |l| == 8;
    hide *;
    FourParts(m, f, l, table);
  }

  lemma {:induction false} FourParts(a: bytes, b: bytes, c: bytes, d: bytes)
    ensures var s := a + b + c + d;
      At(s, 0, a) && At(s, |a|, b) && At(s, |a| + |b|, c) && At(s, |a| + |b| + |c|, d)
  {
  }

  /** The reader's container from its four parts. */
  lemma {:induction false} ContainerIs(stream: bytes, pos: nat, k: ChunkKind, raw: bytes, table: bytes)
    requires pos + 16 + |raw| <= |stream| && |table| == |raw| >= P.HEADER_SIZE && P.MAGIC <= table
    requires R.KindOf(stream[pos..pos + 4]) == ReadKind(k) && FromLe(stream[pos + 8..pos + 16]) == |raw|
    requires stream[pos + 16..pos + 16 + |raw|] == raw
    requires table == if stream[pos + 4] == 0 then R.DecryptTable(raw) else raw
    requires k == CpkChunk ==> CHUNK_HEADER_SIZE + |raw| <= 0x800
    ensures R.ReadContainer(stream, pos) == Some((ReadKind(k), table))
  {
    hide R.KindOf, FromLe, R.DecryptTable;
  }

  /** A chunk anywhere in a stream is read as its kind and its table. */
  lemma {:induction false} ChunkReads(stream: bytes, pos: nat, k: ChunkKind, table: bytes)
    requires At(stream, pos, Chunk(k, table))
    requires P.HEADER_SIZE <= |table| <= U64_MAX && P.MAGIC <= table
    requires k == CpkChunk ==> CHUNK_HEADER_SIZE + |table| <= 0x800
    ensures R.ReadContainer(stream, pos) == Some((ReadKind(k), table))
  {
    hide At, Chunk, ChunkMagic, R.KindOf, Le, FromLe, R.DecryptTable, R.ReadContainer;
    ChunkParts(k, table);
    KindReadsBack(k);
    var c := Chunk(k, table);
    AtInside(stream, pos, c, 0, ChunkMagic(k));
    AtFits(stream, pos, ChunkMagic(k));
    AtInside(stream, pos, c, 4, PLAIN_MARK);
    AtFits(stream, pos + 4, PLAIN_MARK);
    assert stream[pos + 4] == stream[pos + 4..pos + 8][0] == 0xff;
    AtInside(stream, pos, c, 8, Le(|table|, 8));
    AtFits(stream, pos + 8, Le(|table|, 8));
    WordSizes();
    LeRoundTrip(|table|, 8);
    AtInside(stream, pos, c, 16, table);
    AtFits(stream, pos + 16, table);
    ContainerIs(stream, pos, k, table, table);
  }

  /** A chunk as CRI's tools seal it: a zero mark and the table under its cipher. */
  function SealedChunk(k: ChunkKind, table: bytes): bytes {
    ChunkMagic(k) + Zeros(4) + Le(|table|, 8) + R.DecryptTable(table)
  }

  /** A sealed chunk is read as its kind and its plain table. */
  lemma {:induction false} SealedChunkReads(stream: bytes, pos: nat, k: ChunkKind, table: bytes)
    requires At(stream, pos, SealedChunk(k, table))
    requires P.HEADER_SIZE <= |table| <= U64_MAX && P.MAGIC <= table
    requires k == CpkChunk ==> CHUNK_HEADER_SIZE + |table| <= 0x800
    ensures R.ReadContainer(stream, pos) == Some((ReadKind(k), table))
  {
    hide At, SealedChunk, ChunkMagic, R.KindOf, Le, FromLe, R.DecryptTable, Zeros, R.ReadContainer;
    SealedParts(k, table);
    KindReadsBack(k);
    var c, f, sealed := SealedChunk(k, table), Zeros(4), R.DecryptTable(table);
    AtInside(stream, pos, c, 0, ChunkMagic(k));
    AtFits(stream, pos, ChunkMagic(k));
    AtInside(stream, pos, c, 4, f);
    AtFits(stream, pos + 4, f);
    assert stream[pos + 4] == stream[pos + 4..pos + 8][0] == f[0];
    AtInside(stream, pos, c, 8, Le(|table|, 8));
    AtFits(stream, pos + 8, Le(|table|, 8));
    WordSizes();
    LeRoundTrip(|table|, 8);
    AtInside(stream, pos, c, 16, sealed);
    AtFits(stream, pos + 16, sealed);
    R.TableCipherInvolution(table);
    ContainerIs(stream, pos, k, sealed, table);
  }

  lemma {:induction false} SealedParts(k: ChunkKind, table: bytes)
    ensures var c := SealedChunk(k, table);
      At(c, 0, ChunkMagic(k)) && At(c, 4, Zeros(4)) && At(c, 8, Le(|table|, 8)) && At(c, 16, R.DecryptTable(table))
    ensures Zeros(4)[0] == 0
  {
    var m, f, l, d := ChunkMagic(k), Zeros(4), Le(|table|, 8), R.DecryptTable(table);
    assert SealedChunk(k, table) == m + f + l + d && |m| == |f| == 4 && |l| == 8 && f[0] == 0;
    hide *;
    FourParts(m, f, l, d);
  }

  lemma {:induction false} TableBytesStart(t: B.Table)
    requires B.Accepts(t)
    ensures P.HEADER_SIZE <= |B.TableBytes(t)| <= U64_MAX && P.MAGIC <= B.TableBytes(t)
  {
    hide B.TableBytes, P.HeaderOf;
    HeaderReadBack(t, []);
    assert B.TableBytes(t) + [] == B.TableBytes(t);
    B.TableLength(t);
  }

  /** A chunk holding a built table is read as a table that mirrors it. */
  lemma {:induction false} TableReads(stream: bytes, pos: nat, k: ChunkKind, t: B.Table)
    requires B.Accepts(t) && B.DataStart(t) <= U32_MAX
    requires At(stream, pos, Chunk(k, B.TableBytes(t)))
    requires k == CpkChunk ==> CHUNK_HEADER_SIZE + |B.TableBytes(t)| <= 0x800
    ensures R.ReadTable(stream, pos, ReadKind(k)).Ok? && Mirrors(R.ReadTable(stream, pos, ReadKind(k)).value, t)
  {
    hide At, Chunk, R.ReadContainer, P.Parse, B.TableBytes, B.Accepts, B.DataStart, Mirrors;
    TableBytesStart(t);
    ChunkReads(stream, pos, k, B.TableBytes(t));
    BuiltTableParses(t);
  }

  // ----- TOC -----

  lemma {:induction false} TocSignatures(j: nat)
    requires j < 7
    ensures |TOC_COLUMNS| == 7
    ensures Signature(TOC_COLUMNS[j].name) ==
            [0x7444e65, 0x8464e65, 0x8465365, 0xb456365, 0xa466674, 0x2494444, 0xa557467][j]
  {
    if j == 0 { SignatureOf("DirName"); }
    else if j == 1 { SignatureOf("FileName"); }
    else if j == 2 { SignatureOf("FileSize"); }
    else if j == 3 { SignatureOf("ExtractSize"); }
    else if j == 4 { SignatureOf("FileOffset"); }
    else if j == 5 { SignatureOf("ID"); }
    else if j == 6 { SignatureOf("UserString"); }
  }

  /** The seven names differ from one another and from the optional CRC column's. */
  lemma {:induction false} TocNames()
    ensures |TOC_COLUMNS| == 7 && CleanNames(TOC_COLUMNS)
    ensures forall i, j :: 0 <= i < j < 7 ==> TOC_COLUMNS[i].name != TOC_COLUMNS[j].name
    ensures forall j :: 0 <= j < 7 ==> TOC_COLUMNS[j].name != Ascii("FileCrc")
  {
    SignatureOf("FileCrc");
    assert CleanNames(TOC_COLUMNS);
    hide Signature, Ascii;
    forall i, j | 0 <= i < j < 7 ensures TOC_COLUMNS[i].name != TOC_COLUMNS[j].name {
      TocSignatures(i);
      TocSignatures(j);
    }
    forall j | 0 <= j < 7 ensures TOC_COLUMNS[j].name != Ascii("FileCrc") {
      TocSignatures(j);
    }
  }

  const TOC_FIELDS := R.TocColumns(1, 2, 4, Some(0), Some(3), Some(5), Some(6), None)

  lemma {:induction false} TocColumnsFound(h: P.HighTable, files: seq<InputFile>, offsets: seq<u64>)
    requires |offsets| == |files| && Mirrors(h, TocTable(files, offsets))
    ensures R.FindTocColumns(h) == Ok(TOC_FIELDS)
  {
    var t := TocTable(files, offsets);
    TocNames();
    assert t.columns == TOC_COLUMNS;
    hide Mirrors, TocTable, P.ColumnIndex, Ascii;
    FoundColumn(h, t, 0);
    FoundColumn(h, t, 1);
    FoundColumn(h, t, 2);
    FoundColumn(h, t, 3);
    FoundColumn(h, t, 4);
    FoundColumn(h, t, 5);
    FoundColumn(h, t, 6);
    AbsentColumn(h, t, Ascii("FileCrc"));
  }

  /** The entry a TOC row reads back as. */
  function TocEntry(f: InputFile, offset: u64): R.CpkFile
    requires R.ENGINE_TOC_FILE_BASE + offset <= U64_MAX
  {
    R.CpkFile(P.UpToNul(f.directory), P.UpToNul(f.fileName), offset, R.ENGINE_TOC_FILE_BASE + offset, f.size,
      R.EffectiveExtractSize(f.size, f.extractSize), Some(f.id), P.UpToNul(f.userString), None)
  }

  /** A row reads back as its input exactly when the input has a name. */
  lemma {:induction false} TocRowReads(h: P.HighTable, files: seq<InputFile>, offsets: seq<u64>, i: nat)
    requires |offsets| == |files| && Mirrors(h, TocTable(files, offsets)) && i < |files|
    requires R.ENGINE_TOC_FILE_BASE + offsets[i] <= U64_MAX
    ensures R.TocFile(h, TOC_FIELDS, i) ==
            if files[i].fileName == [] then Err(R.MissingFileName) else Ok(TocEntry(files[i], offsets[i]))
  {
    var t := TocTable(files, offsets);
    var row := TocRow(files[i], offsets[i]);
    assert t.rows[i] == row && |t.columns| == 7 && |t.rows| == |files|;
    EmptyUpToNul();
    hide Mirrors, TocTable, R.NumericAt, R.StringAt, P.UpToNul, TocEntry, R.TocFile;
    StringCell(h, t, i, 0);
    StringCell(h, t, i, 1);
    NumberCell(h, t, i, 2);
    NumberCell(h, t, i, 3);
    NumberCell(h, t, i, 4);
    NumberCell(h, t, i, 5);
    StringCell(h, t, i, 6);
    TocFileIs(h, files[i], offsets[i], i);
  }

  lemma {:induction false} TocFileIs(h: P.HighTable, f: InputFile, offset: u64, i: nat)
    requires R.ENGINE_TOC_FILE_BASE + offset <= U64_MAX
    requires R.StringAt(h, i, 0) == (if f.directory == [] then None else Some(P.UpToNul(f.directory)))
    requires R.StringAt(h, i, 1) == (if f.fileName == [] then None else Some(P.UpToNul(f.fileName)))
    requires R.NumericAt(h, i, 2) == Some(f.size) && R.NumericAt(h, i, 3) == Some(f.extractSize)
    requires R.NumericAt(h, i, 4) == Some(offset) && R.NumericAt(h, i, 5) == Some(f.id)
    requires R.StringAt(h, i, 6) == (if f.userString == [] then None else Some(P.UpToNul(f.userString)))
    ensures R.TocFile(h, TOC_FIELDS, i) == if f.fileName == [] then Err(R.MissingFileName) else Ok(TocEntry(f, offset))
  {
    EmptyUpToNul();
    hide R.NumericAt, R.StringAt, P.UpToNul;
  }

  lemma {:induction false} EmptyUpToNul()
    ensures P.UpToNul([]) == []
  {
  }

  function TocEntries(files: seq<InputFile>, offsets: seq<u64>): (r: seq<R.CpkFile>)
    requires |offsets| == |files| && forall i :: 0 <= i < |files| ==> R.ENGINE_TOC_FILE_BASE + offsets[i] <= U64_MAX
    ensures |r| == |files|
  {
    seq(|files|, i requires 0 <= i < |files| => TocEntry(files[i], offsets[i]))
  }

  predicate AllNamed(files: seq<InputFile>) {
    forall i :: 0 <= i < |files| ==> files[i].fileName != []
  }

  lemma {:induction false} TocRowsRead(h: P.HighTable, files: seq<InputFile>, offsets: seq<u64>, n: nat)
    requires |offsets| == |files| && Mirrors(h, TocTable(files, offsets)) && n <= |files|
    requires forall i :: 0 <= i < |files| ==> R.ENGINE_TOC_FILE_BASE + offsets[i] <= U64_MAX
    ensures AllNamed(files[..n]) ==> R.TocFiles(h, TOC_FIELDS, n) == Ok(TocEntries(files, offsets)[..n])
    ensures !AllNamed(files[..n]) ==> R.TocFiles(h, TOC_FIELDS, n) == Err(R.MissingFileName)
  {
    hide Mirrors, TocTable, R.TocFile, TocEntry;
    var all := TocEntries(files, offsets);
    if n == 0 {
      assert all[..0] == [];
    } else {
      TocRowsRead(h, files, offsets, n - 1);
      TocRowReads(h, files, offsets, n - 1);
      NamedSnoc(files, n);
      assert all[..n] == all[..n - 1] + [TocEntry(files[n - 1], offsets[n - 1])];
    }
  }

  lemma {:induction false} NamedSnoc(files: seq<InputFile>, n: nat)
    requires 0 < n <= |files|
    ensures AllNamed(files[..n]) <==> AllNamed(files[..n - 1]) && files[n - 1].fileName != []
  {
    var shorter, longer := files[..n - 1], files[..n];
    assert longer == shorter + [files[n - 1]];
    if AllNamed(longer) {
      assert longer[n - 1].fileName != [];
      assert forall i :: 0 <= i < |shorter| ==> shorter[i] == longer[i];
    }
  }
}
