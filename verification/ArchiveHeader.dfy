/** What the header of a written archive says about it. */
module ArchiveHeader {
  import opened Bytes
  import opened Wrappers
  import opened WriterSpec
  import opened WriterPlan
  import opened Emission
  import opened HeaderLookup
  import opened ArchiveRoundTrip
  import opened WholeArchive
  import Layout
  import R = ReaderSpec
  import B = UtfBuild
  import opened UtfRoundTrip
  import opened IndexRoundTrip
  import P5R

  /** A plain chunk of that name and length: four letters, four bytes of ones, the table's length, the
      table. */
  ghost predicate ChunkLies(stream: bytes, at: nat, letters: string, size: nat) {
    exists table: bytes ::
      && 0x10 + |table| == size
      && At(stream, at, Ascii(letters) + [0xff, 0xff, 0xff, 0xff] + Le(|table|, 8) + table)
  }

  /** The header agrees with the archive it stands in front of, with the inputs and with the
      profile. */
  ghost predicate Describes(m: R.Metadata, stream: bytes, start: nat, archive: bytes, count: nat, opts: Options,
        profile: Profile) {
    && (exists n :: n <= 0x7fa && ChunkLies(stream, start, "CPK ", n)) && At(stream, start + 0x7fa, Ascii("(c)CRI"))
    && m.fileSize == |archive| && m.contentOffset <= m.fileSize && m.contentSize == m.fileSize - m.contentOffset
    && m.files == count && m.align == opts.alignment
    && (profile.mode != Itoc ==> m.tocOffset == 0x800 && ChunkLies(stream, start + m.tocOffset, "TOC ", m.tocSize))
    && (profile.mode == Itoc ==> m.tocOffset == 0 && m.tocSize == 0)
    && (profile.mode != Toc ==> m.itocOffset >= 0x800 && ChunkLies(stream, start + m.itocOffset, "ITOC", m.itocSize))
    && (profile.mode == Toc ==> m.itocOffset == 0 && m.itocSize == 0)
    && m.version == profile.version && m.revision == profile.revision && m.updateDateTime == profile.updateDateTime
    && m.cpkMode == (if profile.mode == Itoc then 0 else if profile.mode == Toc then 1 else 2)
    && m.eid == (if profile.mode != Toc && profile.directItoc then 1 else 0)
    && m.enableFileName == (profile.mode != Itoc) && !m.sorted
    && m.etocOffset == 0 && m.etocSize == 0 && m.gtocOffset == 0 && m.gtocSize == 0 && m.codec == 0 && m.dpkItoc == 0
    && !m.enableTocCrc && !m.enableFileCrc
  }

  lemma {:induction false} ChunkIsThere(stream: bytes, at: nat, kind: ChunkKind, table: bytes, letters: string)
    requires At(stream, at, Chunk(kind, table)) && Ascii(letters) == ChunkMagic(kind)
    ensures ChunkLies(stream, at, letters, 0x10 + |table|)
  {
    hide At, Ascii, Le;
    assert Chunk(kind, table) == Ascii(letters) + [0xff, 0xff, 0xff, 0xff] + Le(|table|, 8) + table;
  }

  /** The header chunk and the marker lie where they should. */
  lemma {:induction false} HeaderChunkLies(stream: bytes, start: nat, files: seq<InputFile>, opts: Options,
        profile: Profile, p: Plan, payloads: seq<bytes>)
    requires PayloadsFit(files, p, payloads) && At(stream, start, ArchiveBytes(p, payloads))
    requires PlanOk(files, opts, profile, p)
    ensures exists n :: n <= 0x7fa && ChunkLies(stream, start, "CPK ", n)
    ensures At(stream, start + 0x7fa, Ascii("(c)CRI"))
  {
    hide PlanOk, At, Chunk, HeadBytes, PayloadsFit, ArchiveBytes, ChunkLies, Ascii;
    PlanBounds(files, opts, profile, p);
    HeadLies(stream, start, files, opts, profile, p, payloads);
    HeadFacts(files, opts, profile, p);
    AtInside(stream, start, HeadBytes(p), 0, Chunk(CpkChunk, p.headerTable));
    AtInside(stream, start, HeadBytes(p), 0x7fa, Ascii("(c)CRI"));
    ChunkIsThere(stream, start, CpkChunk, p.headerTable, "CPK ");
  }

  lemma {:induction false} ChunkLetters()
    ensures ChunkMagic(TocChunk) == Ascii("TOC ") && ChunkMagic(ItocChunk) == Ascii("ITOC")
  {
  }

  lemma {:induction false} PlanSizes(files: seq<InputFile>, opts: Options, profile: Profile, p: Plan)
    requires PlanOk(files, opts, profile, p)
    ensures p.tocTable.Some? <==> profile.mode.HasToc()
    ensures p.itocTable.Some? <==> profile.mode.HasItoc()
    ensures p.tocOffset == (if profile.mode.HasToc() then 0x800 else 0)
    ensures if profile.mode.HasItoc() then p.itocOffset >= 0x800 else p.itocOffset == 0
    ensures p.contentOffset <= p.archiveSize
  {
    hide Layout.Start, Sizes, IsOrder, Layout.Aligned;
  }

  /** For every written archive, wherever it lies: the stored sizes, counts and offsets are those of
      the archive, its chunks and its inputs. */
  lemma {:induction false} HeaderDescribes(stream: bytes, start: nat, files: seq<InputFile>, opts: Options,
        profile: Profile, target: P5R.Target, p: Plan)
    requires Written(stream, start, files, opts, profile, target, p)
    ensures Archive(files, opts, profile, target).Ok? && R.ReadHeader(stream, start).Ok?
    ensures Describes(R.ReadHeader(stream, start).value, stream, start, Archive(files, opts, profile, target).value,
              |files|, opts, profile)
  {
    hide *;
    WrittenIs(stream, start, files, opts, profile, target, p);
    var payloads := WrittenParts(stream, start, files, opts, profile, target, p);
    PlanDescribes(stream, start, files, opts, profile, p, payloads, Archive(files, opts, profile, target).value);
  }

  lemma {:induction false} PlanDescribes(stream: bytes, start: nat, files: seq<InputFile>, opts: Options,
        profile: Profile, p: Plan, payloads: seq<bytes>, archive: bytes)
    requires PayloadsFit(files, p, payloads) && At(stream, start, ArchiveBytes(p, payloads))
    requires |archive| == p.archiveSize
    requires PlanOk(files, opts, profile, p) && TablesOk(files, opts, profile, p)
    ensures R.ReadHeader(stream, start).Ok?
    ensures Describes(R.ReadHeader(stream, start).value, stream, start, archive, |files|, opts, profile)
  {
    hide *;
    TablesParts(files, opts, profile, p);
    PlanBounds(files, opts, profile, p);
    PlanSizes(files, opts, profile, p);
    HeaderLies(stream, start, files, opts, profile, p, payloads);
    IndexLies(stream, start, files, opts, profile, p, payloads);
    HeaderReads(stream, start, InfoOf(files, opts, p), profile, p.headerTable);
    HeaderChunkLies(stream, start, files, opts, profile, p, payloads);
    ChunkLetters();
    if p.tocTable.Some? {
      ChunkIsThere(stream, start + p.tocOffset, TocChunk, p.tocTable.value, "TOC ");
    }
    if p.itocTable.Some? {
      ChunkIsThere(stream, start + p.itocOffset, ItocChunk, p.itocTable.value, "ITOC");
    }
    InfoDescribes(stream, start, files, opts, profile, p, archive);
  }

  lemma {:induction false} WrittenIs(stream: bytes, start: nat, files: seq<InputFile>, opts: Options,
        profile: Profile, target: P5R.Target, p: Plan)
    requires Written(stream, start, files, opts, profile, target, p)
    ensures Archive(files, opts, profile, target).Ok? && |Archive(files, opts, profile, target).value| == p.archiveSize
  {
    hide MakePlan, PlanOk, TablesOk, PhysicalOrder, ArchiveBytes, Payload, At;
    PlanFacts(files, opts, profile);
    PlanParts(files, opts, profile, p);
    var payloads := Payloads(files, p.order, opts.p5rEncryption, target, |p.order|).value;
    ArchiveShape(files, opts, profile, p, payloads);
  }

  lemma {:induction false} InfoDescribes(stream: bytes, start: nat, files: seq<InputFile>, opts: Options,
        profile: Profile, p: Plan, archive: bytes)
    requires exists n :: n <= 0x7fa && ChunkLies(stream, start, "CPK ", n)
    requires At(stream, start + 0x7fa, Ascii("(c)CRI"))
    requires InfoFits(files, p) && |archive| == p.archiveSize && p.contentOffset <= p.archiveSize
    requires p.tocTable.Some? <==> profile.mode.HasToc()
    requires p.itocTable.Some? <==> profile.mode.HasItoc()
    requires p.tocOffset == (if profile.mode.HasToc() then 0x800 else 0)
    requires if profile.mode.HasItoc() then p.itocOffset >= 0x800 else p.itocOffset == 0
    requires p.tocTable.Some? ==> ChunkLies(stream, start + p.tocOffset, "TOC ", 0x10 + |p.tocTable.value|)
    requires p.itocTable.Some? ==> ChunkLies(stream, start + p.itocOffset, "ITOC", 0x10 + |p.itocTable.value|)
    ensures Describes(MetadataOf(InfoOf(files, opts, p), profile), stream, start, archive, |files|, opts, profile)
  {
    hide ChunkLies, At, Ascii;
  }

  /** The profile's version text and comment stand in the header table under their names. */
  lemma {:induction false} HeaderTexts(stream: bytes, start: nat, files: seq<InputFile>, opts: Options,
        profile: Profile, target: P5R.Target, p: Plan)
    requires Written(stream, start, files, opts, profile, target, p)
    ensures R.ReadTable(stream, start, R.Cpk).Ok?
    ensures var h := R.ReadTable(stream, start, R.Cpk).value;
      TextNamed(h, "Tvers", profile.tvers) && TextNamed(h, "Comment", profile.comment)
  {
    hide *;
    var payloads := WrittenParts(stream, start, files, opts, profile, target, p);
    TablesParts(files, opts, profile, p);
    PlanBounds(files, opts, profile, p);
    HeaderLies(stream, start, files, opts, profile, p, payloads);
    HeaderTableReads(stream, start, InfoOf(files, opts, p), profile, p.headerTable);
    TextsRead(R.ReadTable(stream, start, R.Cpk).value, InfoOf(files, opts, p), profile);
  }

  lemma {:induction false} HeaderTableReads(stream: bytes, start: nat, info: HeaderInfo, profile: Profile, table: bytes)
    requires B.Build(HeaderTable(info, profile)) == Some(table)
    requires CHUNK_HEADER_SIZE + |table| <= COPYRIGHT_MARKER_OFFSET
    requires At(stream, start, Chunk(CpkChunk, table))
    ensures R.ReadTable(stream, start, R.Cpk).Ok?
    ensures Mirrors(R.ReadTable(stream, start, R.Cpk).value, HeaderTable(info, profile))
  {
    var t := HeaderTable(info, profile);
    assert CHUNK_HEADER_SIZE + |table| <= COPYRIGHT_MARKER_OFFSET <= 0x7fa;
    hide *;
    KindsRead();
    BuiltIs(t, table);
    TableReads(stream, start, CpkChunk, t);
  }
}
