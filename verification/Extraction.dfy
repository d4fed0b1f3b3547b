/** Extraction: undo the file transform, then expand; what an archive gives back of the files it
    was packed from, whatever machines and options packing and extraction used. */
module Extraction {
  import opened BitOps
  import opened Bytes
  import opened Wrappers
  import opened WriterSpec
  import opened Emission
  import opened WholeArchive
  import opened IndexRoundTrip
  import R = ReaderSpec
  import P = UtfParse
  import P5R
  import LaylaFile
  import Success

  /** The decryptor a reader was made with: none, or Persona 5 Royal's. */
  datatype Decryptor = Dummy | Persona5Royal

  predicate IsEncrypted(d: Decryptor, e: R.CpkFile) {
    d.Persona5Royal? && e.userString == ENCRYPT_MARK
  }

  /** The packed bytes with the file transform undone. */
  function Unlocked(d: Decryptor, target: P5R.Target, e: R.CpkFile, packed: bytes): (r: bytes)
    ensures |r| == |packed|
  {
    if IsEncrypted(d, e) then P5R.TransformOn(target, packed) else packed
  }

  /** What extraction returns, given that compressed files are well formed. */
  ghost function Extracted(d: Decryptor, target: P5R.Target, e: R.CpkFile, packed: bytes): bytes
    requires LaylaFile.IsCompressed(Unlocked(d, target, e, packed)) ==>
               LaylaFile.WellFormed(Unlocked(d, target, e, packed))
  {
    var data := Unlocked(d, target, e, packed);
    if LaylaFile.IsCompressed(data) then LaylaFile.Content(data) else data
  }

  lemma {:induction false} MarkIsClean()
    ensures 0 !in ENCRYPT_MARK && ENCRYPT_MARK != []
  {
    assert |ENCRYPT_MARK| == |"CRI_CFATTR:ENCRYPT"|;
  }

  // ----- when the two sides transform -----

  /** Packing on this machine with these options transforms the file. */
  predicate Locks(f: InputFile, opts: Options, writer: P5R.Target) {
    opts.p5rEncryption && f.userString == ENCRYPT_MARK && !writer.ScalarElsewhere?
  }

  /** Extraction on this machine with this decryptor transforms it: only a TOC still holds the
      mark, cut at its first NUL. */
  predicate Unlocks(f: InputFile, d: Decryptor, mode: Mode, reader: P5R.Target) {
    mode.HasToc() && d.Persona5Royal? && P.UpToNul(f.userString) == ENCRYPT_MARK && !reader.ScalarElsewhere?
  }

  /** Both sides transform or neither does, or the transform leaves the file alone. */
  predicate Recoverable(f: InputFile, opts: Options, writer: P5R.Target, d: Decryptor, mode: Mode, reader: P5R.Target)
    requires f.source.FromFile?
  {
    (Locks(f, opts, writer) <==> Unlocks(f, d, mode, reader)) || P5R.Unmoved(f.source.content)
  }

  lemma {:induction false} PackedIs(f: InputFile, opts: Options, writer: P5R.Target, packed: bytes)
    requires f.source.FromFile? && Payload(f, opts.p5rEncryption, writer) == Ok(packed)
    ensures packed == if Locks(f, opts, writer) then P5R.Transform(f.source.content) else f.source.content
  {
    hide P5R.Transform, ENCRYPT_MARK;
  }

  lemma {:induction false} UnlockedIs(e: R.CpkFile, f: InputFile, offset: u64, mode: Mode, d: Decryptor,
        reader: P5R.Target, packed: bytes)
    requires Reports(e, f, offset, mode.HasToc())
    ensures Unlocked(d, reader, e, packed) == if Unlocks(f, d, mode, reader) then P5R.Transform(packed) else packed
  {
    MarkIsClean();
    hide P5R.Transform, ENCRYPT_MARK, P.UpToNul;
  }

  /** The file is unlocked to itself exactly when it is recoverable. */
  lemma {:induction false} UnlockedIff(e: R.CpkFile, f: InputFile, offset: u64, opts: Options, writer: P5R.Target,
                                       d: Decryptor, mode: Mode, reader: P5R.Target, packed: bytes)
    requires f.source.FromFile? && Reports(e, f, offset, mode.HasToc())
    requires Payload(f, opts.p5rEncryption, writer) == Ok(packed)
    ensures Unlocked(d, reader, e, packed) == f.source.content <==> Recoverable(f, opts, writer, d, mode, reader)
    ensures Unlocked(d, reader, e, packed) == f.source.content
         || Unlocked(d, reader, e, packed) == P5R.Transform(f.source.content)
  {
    hide P5R.Transform, P5R.Unmoved, Locks, Unlocks, Reports, Payload, Unlocked;
    PackedIs(f, opts, writer, packed);
    UnlockedIs(e, f, offset, mode, d, reader, packed);
    P5R.TransformInvolution(f.source.content);
    P5R.TransformFixes(f.source.content);
  }

  /** The transform leaves the compression magic alone. */
  lemma {:induction false} MagicKept(data: bytes)
    ensures LaylaFile.IsCompressed(P5R.Transform(data)) == LaylaFile.IsCompressed(data)
  {
    if |data| >= P5R.MINIMUM_SIZE {
      var r := P5R.Transform(data);
      P5R.TransformParts(data);
      hide P5R.Transform;
      assert r[..8] == r[..0x20][..8] && data[..8] == data[..0x20][..8];
    }
  }

  /** A file that is not compressed is extracted as it was packed exactly when it is recoverable. */
  lemma {:induction false} ExtractedIff(e: R.CpkFile, f: InputFile, offset: u64, opts: Options, writer: P5R.Target,
                                        d: Decryptor, mode: Mode, reader: P5R.Target, packed: bytes)
    requires f.source.FromFile? && Reports(e, f, offset, mode.HasToc())
    requires Payload(f, opts.p5rEncryption, writer) == Ok(packed)
    requires !LaylaFile.IsCompressed(f.source.content)
    ensures !LaylaFile.IsCompressed(Unlocked(d, reader, e, packed))
    ensures Extracted(d, reader, e, packed) == f.source.content <==> Recoverable(f, opts, writer, d, mode, reader)
  {
    hide LaylaFile.IsCompressed, Reports, Unlocked, Recoverable, Payload, P5R.Transform;
    UnlockedIff(e, f, offset, opts, writer, d, mode, reader, packed);
    MagicKept(f.source.content);
  }

  /** A recoverable compressed file is extracted as its expansion. */
  lemma {:induction false} ExpandedFromPacked(e: R.CpkFile, f: InputFile, offset: u64, opts: Options,
        writer: P5R.Target,
                                              d: Decryptor, mode: Mode, reader: P5R.Target, packed: bytes)
    requires f.source.FromFile? && Reports(e, f, offset, mode.HasToc())
    requires Payload(f, opts.p5rEncryption, writer) == Ok(packed)
    requires LaylaFile.IsCompressed(f.source.content) && LaylaFile.WellFormed(f.source.content)
    requires Recoverable(f, opts, writer, d, mode, reader)
    ensures Unlocked(d, reader, e, packed) == f.source.content
    ensures Extracted(d, reader, e, packed) == LaylaFile.Content(f.source.content)
  {
    hide LaylaFile.IsCompressed, LaylaFile.WellFormed, LaylaFile.Content, Reports, Unlocked, Recoverable, Payload;
    UnlockedIff(e, f, offset, opts, writer, d, mode, reader, packed);
  }

  // ----- whole archives -----

  /** What a reader of the archive needs: names, and a TOC that fits, where there is a TOC. */
  ghost predicate Listable(files: seq<InputFile>, mode: Mode) {
    (mode.HasToc() ==> AllNamed(files)) && (mode.Toc? ==> TocFits(files))
  }

  lemma {:induction false} ListedAt(stream: bytes, start: nat, files: seq<InputFile>, opts: Options, profile: Profile,
                                    writer: P5R.Target, p: Plan, k: nat) returns (e: R.CpkFile, offset: u64)
    requires k < |Listing(files, profile)| && Listable(files, profile.mode)
    requires Written(stream, start, files, opts, profile, writer, p)
    ensures R.GetFiles(stream, start).Ok? && |R.GetFiles(stream, start).value| == |Listing(files, profile)| == |files|
    ensures e == R.GetFiles(stream, start).value[k] && Listing(files, profile)[k] < |files|
    ensures Reports(e, files[Listing(files, profile)[k]], offset, profile.mode.HasToc())
    ensures R.ReadPacked(stream, start, e).Ok?
    ensures Payload(files[Listing(files, profile)[k]], opts.p5rEncryption, writer) ==
            Ok(R.ReadPacked(stream, start, e).value)
  {
    hide Reports, R.ReadPacked, Payload, Listing, R.GetFiles, Written, TocFits;
    ArchiveReadsBack(stream, start, files, opts, profile, writer, p);
    var entries, i := R.GetFiles(stream, start).value, Listing(files, profile)[k];
    e, offset := entries[k], p.offsets[i];
    assert EntryRead(stream, start, entries[k], files[i], p.offsets[i], opts, profile, writer);
  }

  /** Pack and extract, for every index mode, any two machines and any decryptor: a file packed from
      disk that does not begin with the compression magic comes back exactly when both sides
      transform it or neither does, or the transform leaves it alone. */
  lemma {:induction false} PackThenExtract(stream: bytes, start: nat, files: seq<InputFile>, opts: Options,
        profile: Profile,
                                           writer: P5R.Target, p: Plan, d: Decryptor, reader: P5R.Target, k: nat)
    requires k < |Listing(files, profile)| && Listing(files, profile)[k] < |files|
    requires var f := files[Listing(files, profile)[k]];
      f.source.FromFile? && !LaylaFile.IsCompressed(f.source.content)
    requires Listable(files, profile.mode)
    requires Written(stream, start, files, opts, profile, writer, p)
    ensures R.GetFiles(stream, start).Ok? && k < |R.GetFiles(stream, start).value|
    ensures var f, e := files[Listing(files, profile)[k]], R.GetFiles(stream, start).value[k];
      var packed := R.ReadPacked(stream, start, e);
      && packed.Ok?
      && !LaylaFile.IsCompressed(Unlocked(d, reader, e, packed.value))
      && (Extracted(d, reader, e, packed.value) == f.source.content
          <==> Recoverable(f, opts, writer, d, profile.mode, reader))
  {
    hide *;
    var e, offset := ListedAt(stream, start, files, opts, profile, writer, p, k);
    var f, packed := files[Listing(files, profile)[k]], R.ReadPacked(stream, start, e).value;
    ExtractedIff(e, f, offset, opts, writer, d, profile.mode, reader, packed);
  }

  /** From an ITOC alone the mark is lost: a marked file comes back exactly when it was not
      transformed, is shorter than 0x820 bytes, or has only zeros in [0x420, 0x820). */
  lemma {:induction false} LockedInItoc(f: InputFile, opts: Options, writer: P5R.Target, d: Decryptor,
        reader: P5R.Target)
    requires f.source.FromFile?
    ensures Recoverable(f, opts, writer, d, Itoc, reader) <==>
              || !opts.p5rEncryption || f.userString != Ascii("CRI_CFATTR:ENCRYPT") || writer.ScalarElsewhere?
              || |f.source.content| < 0x820 || forall i :: 0x420 <= i < 0x820 ==> f.source.content[i] == 0
  {
  }

  // ----- a file that is lost -----

  /** 0x820 bytes of ones, marked for encryption. */
  function MarkedFile(): InputFile {
    InputFile([], [], FromFile(seq(0x820, _ => 1)), 0x820, 0x820, 0, Ascii("CRI_CFATTR:ENCRYPT"))
  }

  const LOCKING := Options(1, true)
  const ITOC_ONLY := Profile(Itoc, false, 7, 0, 0, [], [])

  lemma {:induction false} MarkedFileIsModerate()
    ensures Success.Moderate([MarkedFile()], LOCKING, ITOC_ONLY, P5R.Avx2)
    ensures |Listing([MarkedFile()], ITOC_ONLY)| == 1 && Listing([MarkedFile()], ITOC_ONLY)[0] == 0
    ensures !LaylaFile.IsCompressed(MarkedFile().source.content)
  {
    var f := MarkedFile();
    var files := [f];
    assert CheckIds(files, 0).None?;
    assert CheckIds(files, 1).None?;
    var room := Success.FilesRoom(files[..0]);
    assert files[..0] == [] && room == 0;
    assert |ENCRYPT_MARK| == |"CRI_CFATTR:ENCRYPT"|;
    assert Success.FilesRoom(files) == room + Success.FileRoom(f);
    assert Payload(f, true, P5R.Avx2).Ok?;
    assert forall i :: 0 <= i < |files| ==> files[i] == f;
    OrderFacts(files, ITOC_ONLY);
    FirstBytes(f.source.content);
  }

  lemma {:induction false} FirstBytes(data: bytes)
    requires |data| >= 0x10 && forall i :: 0 <= i < 8 ==> data[i] == 1
    ensures !LaylaFile.IsCompressed(data)
  {
    var s := data[..8];
    assert FromLe(s) == s[0] + 256 * FromLe(s[1..]);
    assert FromLe(s) % 256 == 1;
  }

  lemma {:induction false} MarkedFileIsLocked(d: Decryptor, reader: P5R.Target)
    ensures !Recoverable(MarkedFile(), LOCKING, P5R.Avx2, d, Itoc, reader) && ITOC_ONLY.mode == Itoc
    ensures Listable([MarkedFile()], Itoc)
  {
    hide Recoverable, Ascii;
    LockedInItoc(MarkedFile(), LOCKING, P5R.Avx2, d, reader);
    assert MarkedFile().source.content[0x420] == 1;
  }

  /** Packed into an ITOC-only archive on an ordinary machine, this file is written and listed, and
      no decryptor on any machine gives it back. */
  lemma {:induction false} LostInItoc(d: Decryptor, reader: P5R.Target)
    ensures var files := [MarkedFile()];
      && Archive(files, LOCKING, ITOC_ONLY, P5R.Avx2).Ok?
      && var stream := Archive(files, LOCKING, ITOC_ONLY, P5R.Avx2).value;
         && R.GetFiles(stream, 0).Ok? && |R.GetFiles(stream, 0).value| == 1
         && var e := R.GetFiles(stream, 0).value[0];
            && R.ReadPacked(stream, 0, e).Ok?
            && !LaylaFile.IsCompressed(Unlocked(d, reader, e, R.ReadPacked(stream, 0, e).value))
            && Extracted(d, reader, e, R.ReadPacked(stream, 0, e).value) != MarkedFile().source.content
  {
    var files := [MarkedFile()];
    MarkedFileIsModerate();
    MarkedFileIsLocked(d, reader);
    assert Listable(files, ITOC_ONLY.mode) && files[0] == MarkedFile();
    hide *;
    Success.WriterSucceeds(files, LOCKING, ITOC_ONLY, P5R.Avx2);
    var p := Success.WrittenAlone(files, LOCKING, ITOC_ONLY, P5R.Avx2);
    var stream := Archive(files, LOCKING, ITOC_ONLY, P5R.Avx2).value;
    var e, offset := ListedAt(stream, 0, files, LOCKING, ITOC_ONLY, P5R.Avx2, p, 0);
    PackThenExtract(stream, 0, files, LOCKING, ITOC_ONLY, P5R.Avx2, p, d, reader, 0);
  }
}
