/** Raw reuse: an unchanged entry of an unpacked archive is copied, packed, into the rebuilt one. */
module Reuse {
  import opened BitOps
  import opened Bytes
  import opened Wrappers
  import opened Sorting
  import opened WriterSpec
  import opened Emission
  import opened WholeArchive
  import opened Extraction
  import opened UtfRoundTrip
  import R = ReaderSpec
  import P = UtfParse
  import P5R
  import LaylaFile
  import M = Manifest
  import BuildInputs

  /** The manifest entry unpacking records for a listed file. */
  function UnpackedEntry(e: R.CpkFile, index: u32, extracted: bytes, extractedHash: u64, packedHash: u64): M.Entry
    requires |extracted| <= U64_MAX
  {
    M.Entry(e.directory, e.fileName, if e.id.Some? then e.id.value else index, e.userString, |extracted|, extractedHash,
      e.fileSize, e.absoluteOffset, packedHash)
  }

  // ----- texts as the reader reports them -----

  /** A text that ended at a NUL holds none. */
  ghost predicate Clean(e: R.CpkFile) {
    0 !in e.directory && 0 !in e.fileName && 0 !in e.userString
  }

  /** An entry that was listed without names: the file name is made from the ID. */
  ghost predicate Unnamed(e: R.CpkFile) {
    e.directory == [] && e.userString == [] && e.id.Some? && e.fileName == R.ItocFileName(e.id.value)
  }

  lemma {:induction false} StringsClean(table: bytes, t: P.HighTable, i: nat, j: Option<nat>)
    requires P.Parse(table) == Some(t)
    ensures 0 !in R.OptionalString(t, i, j)
  {
    hide P.Parse, P.Value;
    PoolClean(table);
  }

  lemma {:induction false} PoolClean(table: bytes)
    requires P.Parse(table).Some?
    ensures var t := P.Parse(table).value; forall o :: o in t.strings ==> 0 !in t.strings[o]
  {
    hide P.Parse, P.HeaderOf, P.SectionsValid, P.RowsOf, P.ReadColumns, P.Width, P.TypeOf, P.UpToNul;
    P.ParsedShape(table);
  }

  lemma {:induction false} TocFileClean(table: bytes, t: P.HighTable, c: R.TocColumns, i: nat)
    requires P.Parse(table) == Some(t) && R.TocFile(t, c, i).Ok?
    ensures Clean(R.TocFile(t, c, i).value)
  {
    hide P.Parse, R.StringAt, R.NumericAt, R.OptionalNumber;
    StringsClean(table, t, i, c.dirName);
    StringsClean(table, t, i, Some(c.fileName));
    StringsClean(table, t, i, c.userString);
  }

  lemma {:induction false} TocFilesClean(table: bytes, t: P.HighTable, c: R.TocColumns, n: nat, k: nat)
    requires P.Parse(table) == Some(t) && R.TocFiles(t, c, n).Ok? && k < n
    ensures Clean(R.TocFiles(t, c, n).value[k])
  {
    hide P.Parse, R.TocFile, Clean;
    if k < n - 1 {
      TocFilesClean(table, t, c, n - 1, k);
    } else {
      TocFileClean(table, t, c, n - 1);
    }
  }

  lemma {:induction false} ItocFilesUnnamed(rows: seq<R.ItocRow>, base: u64, a: nat, n: nat, k: nat)
    requires k < n <= |rows| && R.Materialize(rows, base, a, n).Ok?
    ensures Unnamed(R.Materialize(rows, base, a, n).value.0[k])
  {
    hide R.ItocFileName;
    if k < n - 1 {
      ItocFilesUnnamed(rows, base, a, n - 1, k);
    }
  }

  lemma {:induction false} TocTexts(stream: bytes, start: nat, m: R.Metadata, k: nat)
    requires R.ReadToc(stream, start, m).Ok? && k < |R.ReadToc(stream, start, m).value|
    ensures Clean(R.ReadToc(stream, start, m).value[k])
  {
    hide R.ReadContainer, P.Parse, R.FindTocColumns, R.TocFiles, Clean;
    var table := R.ReadContainer(stream, start + m.tocOffset).value.1;
    var t := P.Parse(table).value;
    assert R.ReadToc(stream, start, m) == R.TocFiles(t, R.FindTocColumns(t).value, |t.rows|);
    hide R.ReadToc, R.ReadTable;
    TocFilesClean(table, t, R.FindTocColumns(t).value, |t.rows|, k);
  }

  lemma {:induction false} ItocTexts(stream: bytes, start: nat, m: R.Metadata, k: nat)
    requires R.ReadItoc(stream, start, m).Ok? && k < |R.ReadItoc(stream, start, m).value|
    ensures Unnamed(R.ReadItoc(stream, start, m).value[k])
  {
    hide R.ReadTable, R.ItocRows, R.Materialize, SortBy, R.NoAdjacentDuplicate, Unnamed;
    var t := R.ReadTable(stream, start + m.itocOffset, R.Itoc).value;
    var rows := SortBy(R.ItocRows(t, m.eid).value, R.RowId());
    var a: nat := if m.align == 0 then 1 else m.align;
    assert R.ReadItoc(stream, start, m).value == R.Materialize(rows, m.contentOffset, a, |rows|).value.0;
    hide R.ReadItoc;
    ItocFilesUnnamed(rows, m.contentOffset, a, |rows|, k);
  }

  /** Whatever the archive, a listed text holds no NUL; without a TOC there are none but the name made
      from the ID. */
  lemma {:induction false} ListedTexts(stream: bytes, start: nat, k: nat)
    requires R.GetFiles(stream, start).Ok? && k < |R.GetFiles(stream, start).value|
    ensures R.ReadHeader(stream, start).Ok?
    ensures var e := R.GetFiles(stream, start).value[k];
      if R.ReadHeader(stream, start).value.tocOffset != 0 then Clean(e) else Unnamed(e)
  {
    hide R.ReadHeader, R.ReadToc, R.ReadItoc, Clean, Unnamed;
    var m := R.ReadHeader(stream, start).value;
    if m.tocOffset != 0 {
      TocTexts(stream, start, m, k);
    } else {
      ItocTexts(stream, start, m, k);
    }
  }

  // ----- packed bytes -----

  /** Files the expander can handle: well formed if compressed. */
  ghost predicate Extractable(data: bytes) {
    LaylaFile.IsCompressed(data) ==> LaylaFile.WellFormed(data)
  }

  /** A raw range of an archive file is what reading that entry returns. */
  lemma {:induction false} RawRange(source: bytes, e: R.CpkFile, f: InputFile, p5r: bool, writer: P5R.Target,
        packed: bytes)
    requires R.ReadPacked(source, 0, e) == Ok(packed)
    requires f.source == FromArchive(source, e.absoluteOffset, e.fileSize) && f.size == e.fileSize
    ensures Payload(f, p5r, writer) == Ok(packed)
  {
  }

  /** The rebuilt archive lists the entry under the same names, with the same ID and packed size, and the
      size of the file it extracts to. */
  ghost predicate SameEntry(e0: R.CpkFile, e1: R.CpkFile, index: u32, extracted: nat) {
    && e1.directory == e0.directory && e1.fileName == e0.fileName && e1.userString == e0.userString
    && e1.id == Some(if e0.id.Some? then e0.id.value else index) && e1.fileSize == e0.fileSize
    && e1.extractSize == if extracted == 0 then e0.fileSize else extracted
  }

  /** An unchanged entry reused raw is the same entry in the rebuilt archive, with the packed bytes it had
      in the source, and every reader unlocks and extracts it as before. */
  lemma {:induction false} RawReuse(source: bytes, n: nat, index: u32, disk: BuildInputs.DiskFile,
                                    packedHash: u64, stream: bytes, start: nat,
                                    files: seq<InputFile>, opts: Options, profile: Profile, writer: P5R.Target, p: Plan,
                                    d: Decryptor, reader: P5R.Target, k: nat)
    requires R.GetFiles(source, 0).Ok? && n < |R.GetFiles(source, 0).value| && R.ReadHeader(source, 0).Ok?
    requires var e0 := R.GetFiles(source, 0).value[n];
      && R.ReadPacked(source, 0, e0).Ok? && |disk.content| <= U32_MAX
      && k < |Listing(files, profile)| && Listing(files, profile)[k] < |files|
      && var entry := UnpackedEntry(e0, index, disk.content, disk.hash, packedHash);
         BuildInputs.RetainedInput(entry, disk, true, source) == Some(files[Listing(files, profile)[k]])
    requires profile.mode.HasToc() == (R.ReadHeader(source, 0).value.tocOffset != 0)
    requires Listable(files, profile.mode)
    requires Written(stream, start, files, opts, profile, writer, p)
    ensures R.GetFiles(stream, start).Ok? && k < |R.GetFiles(stream, start).value|
    ensures var e0, e1 := R.GetFiles(source, 0).value[n], R.GetFiles(stream, start).value[k];
      var packed := R.ReadPacked(source, 0, e0).value;
      && R.ReadPacked(stream, start, e1) == Ok(packed) && SameEntry(e0, e1, index, |disk.content|)
      && Unlocked(d, reader, e1, packed) == Unlocked(d, reader, e0, packed)
      && (Extractable(Unlocked(d, reader, e0, packed)) ==>
            Extracted(d, reader, e1, packed) == Extracted(d, reader, e0, packed))
  {
    hide *;
    var e0, i := R.GetFiles(source, 0).value[n], Listing(files, profile)[k];
    var f, packed := files[i], R.ReadPacked(source, 0, e0).value;
    ReusedInput(e0, index, disk, packedHash, source, f);
    RawRange(source, e0, f, opts.p5rEncryption, writer, packed);
    var e1, offset := ListedAt(stream, start, files, opts, profile, writer, p, k);
    ListedTexts(source, 0, n);
    EntryKept(e0, e1, f, offset, profile.mode.HasToc(), index, |disk.content|);
    SameExtraction(d, reader, e0, e1, packed);
  }

  lemma {:induction false} ReusedInput(e: R.CpkFile, index: u32, disk: BuildInputs.DiskFile, packedHash: u64,
        source: bytes, f: InputFile)
    requires |disk.content| <= U32_MAX
    requires BuildInputs.RetainedInput(UnpackedEntry(e, index, disk.content, disk.hash, packedHash), disk, true,
            source) == Some(f)
    ensures f.source == FromArchive(source, e.absoluteOffset, e.fileSize) && f.size == e.fileSize
    ensures f.directory == e.directory && f.fileName == e.fileName && f.userString == e.userString
    ensures f.id == (if e.id.Some? then e.id.value else index) && f.extractSize == |disk.content|
  {
  }

  lemma {:induction false} EntryKept(e0: R.CpkFile, e1: R.CpkFile, f: InputFile, offset: u64, named: bool, index: u32,
        extracted: nat)
    requires Reports(e1, f, offset, named)
    requires f.directory == e0.directory && f.fileName == e0.fileName && f.userString == e0.userString
    requires f.id == (if e0.id.Some? then e0.id.value else index) && f.size == e0.fileSize && f.extractSize == extracted
    requires if named then Clean(e0) else Unnamed(e0)
    ensures SameEntry(e0, e1, index, extracted) && e1.userString == e0.userString
  {
    hide P.UpToNul, R.ItocFileName;
    WholeIffNulFree(f.directory);
    WholeIffNulFree(f.fileName);
    WholeIffNulFree(f.userString);
  }

  lemma {:induction false} SameExtraction(d: Decryptor, reader: P5R.Target, e0: R.CpkFile, e1: R.CpkFile, packed: bytes)
    requires e1.userString == e0.userString
    ensures Unlocked(d, reader, e1, packed) == Unlocked(d, reader, e0, packed)
    ensures Extractable(Unlocked(d, reader, e0, packed)) ==>
              Extracted(d, reader, e1, packed) == Extracted(d, reader, e0, packed)
  {
    hide LaylaFile.WellFormed, LaylaFile.Content, LaylaFile.IsCompressed, P5R.TransformOn;
  }
}
