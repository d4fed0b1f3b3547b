/** `CpkReader`: the header, both index forms and payloads read from a seekable stream. */
module Reader {
  import opened BitOps
  import opened Bytes
  import opened Wrappers
  import opened Layout
  import opened Sorting
  import opened ReaderSpec
  import P = UtfParse
  import UtfParser
  import P5R
  import E = Extraction
  import F = FreeList
  import S = FreeListSpec
  import LaylaFile

  // ----- table containers -----

  /** The table cipher in place: each byte with the running key. */
  method DecryptUtfScalar(a: array<byte>)
    modifies a
    ensures a[..] == DecryptTable(old(a[..]))
  {
    ghost var before := a[..];
    var key: byte := 0x5f;
    for i := 0 to a.Length
      invariant key == Key(i)
      invariant forall k :: 0 <= k < i ==> a[k] == P5R.XorByte(before[k], Key(k))
      invariant forall k :: i <= k < a.Length ==> a[k] == before[k]
    {
      a[i] := P5R.XorByte(a[i], key);
      key := key * 0x15 % 256;
    }
    assert a[..] == DecryptTable(before);
  }

  // ----- rows -----

  method CollectItocRows(t: P.HighTable, rows: seq<ItocRow>) returns (r: Result<seq<ItocRow>, ReaderError>)
    ensures var own := CollectRows(t, |t.rows|);
      r == if own.Ok? then Ok(rows + own.value) else Err(own.error)
  {
    hide CollectRow;
    var collected := rows;
    for i := 0 to |t.rows|
      invariant CollectRows(t, i).Ok? && collected == rows + CollectRows(t, i).value
    {
      var row := CollectRow(t, i);
      if row.Err? {
        CollectStops(t, i + 1, |t.rows|);
        return Err(row.error);
      }
      collected := collected + [row.value];
    }
    r := Ok(collected);
  }

  lemma {:induction false} CollectStops(t: P.HighTable, m: nat, n: nat)
    requires m <= n && CollectRows(t, m).Err?
    ensures CollectRows(t, n) == Err(CollectRows(t, m).error)
  {
    if m < n {
      CollectStops(t, m, n - 1);
    }
  }

  /** Cumulative offsets: each row starts where the aligned sizes before it end. */
  method MaterializeItocRows(rows: seq<ItocRow>, contentOffset: u64, alignment: nat)
        returns (r: Result<seq<CpkFile>, ReaderError>)
    ensures var all := Materialize(rows, contentOffset, alignment, |rows|);
      r == if all.Ok? then Ok(all.value.0) else Err(all.error)
  {
    hide ReaderAlignUp, ItocFileName;
    var relative: u64 := 0;
    var files: seq<CpkFile> := [];
    for i := 0 to |rows|
      invariant Materialize(rows, contentOffset, alignment, i) == Ok((files, relative))
    {
      var row := rows[i];
      var padded := ReaderAlignUp(row.fileSize, alignment);
      if contentOffset + relative > U64_MAX || padded.None? || relative + padded.value > U64_MAX {
        MaterializeStops(rows, contentOffset, alignment, i + 1, |rows|);
        return Err(MissingFileOffset);
      }
      files := files + [CpkFile([], ItocFileName(row.id), relative, contentOffset + relative, row.fileSize,
                                EffectiveExtractSize(row.fileSize, row.extractSize), Some(row.id), [], row.fileCrc)];
      relative := relative + padded.value;
    }
    r := Ok(files);
  }

  lemma {:induction false} MaterializeStops(rows: seq<ItocRow>, contentOffset: u64, alignment: nat, m: nat, n: nat)
    requires m <= n <= |rows| && Materialize(rows, contentOffset, alignment, m).Err?
    ensures Materialize(rows, contentOffset, alignment, n) == Err(Materialize(rows, contentOffset, alignment, m).error)
  {
    if m < n {
      MaterializeStops(rows, contentOffset, alignment, m, n - 1);
    }
  }

  method CollectTocFiles(t: P.HighTable, c: TocColumns) returns (r: Result<seq<CpkFile>, ReaderError>)
    ensures r == TocFiles(t, c, |t.rows|)
  {
    hide TocFile;
    var files: seq<CpkFile> := [];
    for i := 0 to |t.rows|
      invariant TocFiles(t, c, i) == Ok(files)
    {
      var file := TocFile(t, c, i);
      if file.Err? {
        TocStops(t, c, i + 1, |t.rows|);
        return Err(file.error);
      }
      files := files + [file.value];
    }
    r := Ok(files);
  }

  lemma {:induction false} TocStops(t: P.HighTable, c: TocColumns, m: nat, n: nat)
    requires m <= n && TocFiles(t, c, m).Err?
    ensures TocFiles(t, c, n) == Err(TocFiles(t, c, m).error)
  {
    if m < n {
      TocStops(t, c, m, n - 1);
    }
  }

  // ----- the reader -----

  class CpkReader {
    const stream: bytes
    var pos: nat
    const startPos: nat
    var metadata: Option<Metadata>
    const freeList: F.FreeList
    const decryptor: E.Decryptor
    const target: P5R.Target

    ghost predicate Valid()
      reads this, freeList, freeList.used
    {
      freeList.Valid() && freeList.Abs() == S.EMPTY
    }

    /** A reader starts at the stream's current position, before any listing. */
    constructor (stream: bytes, position: nat, decryptor: E.Decryptor, target: P5R.Target)
      ensures Valid() && fresh(freeList) && fresh(freeList.used)
      ensures this.stream == stream && startPos == pos == position && metadata == None
      ensures this.decryptor == decryptor && this.target == target
    {
      this.stream, this.pos, this.startPos, this.metadata := stream, position, position, None;
      this.decryptor, this.target := decryptor, target;
      freeList := new F.FreeList();
    }

    method ReadExact(n: nat) returns (r: Option<bytes>)
      modifies `pos
      ensures n == 0 ==> r == Some([])
      ensures n > 0 && old(pos) + n <= |stream| ==> r == Some(stream[old(pos)..old(pos) + n])
      ensures n > 0 && old(pos) + n > |stream| ==> r == None
      ensures r.Some? ==> pos == old(pos) + n
    {
      if n == 0 { return Some([]); }
      if pos + n > |stream| { return None; }
      r := Some(stream[pos..pos + n]);
      pos := pos + n;
    }

    /** One chunk at the current position. */
    method NewContainer() returns (r: Option<(ChunkKind, bytes)>)
      modifies `pos
      ensures r == ReadContainer(stream, old(pos))
    {
      hide DecryptTable, FromLe, KindOf;
      ghost var start := pos;
      var header := ReadExact(CHUNK_HEADER_SIZE);
      if header.None? { return None; }
      assert header.value[..4] == stream[start..start + 4];
      assert header.value[8..] == stream[start + 8..start + CHUNK_HEADER_SIZE];
      var kind, size := KindOf(header.value[..4]), FromLe(header.value[8..]);
      if size < P.HEADER_SIZE { return None; }
      if kind == Cpk && size + CHUNK_HEADER_SIZE > 0x800 { return None; }
      if size > |stream| - pos { return None; }
      var table := ReadExact(size);
      if table.None? { assert false; }
      var plain := table.value;
      if header.value[4] == 0 {
        var a := new byte[size](i requires 0 <= i < size => table.value[i]);
        assert a[..] == table.value;
        DecryptUtfScalar(a);
        plain := a[..];
      }
      if !(P.MAGIC <= plain) { return None; }
      r := Some((kind, plain));
    }

    method ReadTableAt(at: nat, kind: ChunkKind) returns (r: Result<P.HighTable, ReaderError>)
      modifies `pos
      ensures r == ReadTable(stream, at, kind)
    {
      hide ReadContainer, P.Parse;
      pos := at;
      var container := NewContainer();
      if container.None? { return Err(TableError); }
      if container.value.0 != kind { return Err(InvalidHeaderChunk); }
      var table := UtfParser.NewHighTable(container.value.1);
      if table.None? { return Err(TableError); }
      r := Ok(table.value);
    }

    method ReadTocEntries(m: Metadata) returns (r: Result<seq<CpkFile>, ReaderError>)
      modifies `pos
      ensures r == ReadToc(stream, startPos, m)
    {
      hide ReadTable, TocFiles;
      if startPos + m.tocOffset > U64_MAX { return Err(MissingFileOffset); }
      var t :- ReadTableAt(startPos + m.tocOffset, Toc);
      var columns :- FindTocColumns(t);
      r := CollectTocFiles(t, columns);
    }

    /** The rows of a direct ITOC, or of its two nested tables one after the other. */
    method ReadItocRows(t: P.HighTable, eid: u16) returns (r: Result<seq<ItocRow>, ReaderError>)
      ensures r == ItocRows(t, eid)
    {
      hide P.DataByName, P.Parse, CollectRows, Ascii;
      if eid != 0 {
        r := CollectItocRows(t, []);
        assert forall x: seq<ItocRow> :: [] + x == x;
        return;
      }
      var dataL, dataH := P.DataByName(t, 0, Ascii("DataL")), P.DataByName(t, 0, Ascii("DataH"));
      if dataL.None? || dataH.None? { return Err(InvalidItoc); }
      var low := UtfParser.NewHighTable(dataL.value);
      if low.None? { return Err(TableError); }
      var high := UtfParser.NewHighTable(dataH.value);
      if high.None? { return Err(TableError); }
      assert forall x: seq<ItocRow> :: [] + x == x;
      var rows :- CollectItocRows(low.value, []);
      r := CollectItocRows(high.value, rows);
    }

    method ReadItocEntries(m: Metadata) returns (r: Result<seq<CpkFile>, ReaderError>)
      modifies `pos
      ensures r == ReadItoc(stream, startPos, m)
    {
      hide ReadTable, ItocRows, Materialize, SortBy;
      if m.contentOffset == 0 { return Err(MissingContentOffset); }
      if m.contentOffset > U32_MAX { return Err(ItocContentOffsetTooLarge); }
      if startPos + m.itocOffset > U64_MAX { return Err(MissingFileOffset); }
      var t :- ReadTableAt(startPos + m.itocOffset, Itoc);
      var alignment: nat := if m.align == 0 then 1 else m.align;
      var rows :- ReadItocRows(t, m.eid);
      var sorted := SortBy(rows, RowId());
      if !NoAdjacentDuplicate(sorted) { return Err(InvalidItoc); }
      r := MaterializeItocRows(sorted, m.contentOffset, alignment);
    }

    /** The listing the specification gives; the metadata is kept once the header was read. */
    method ListFiles() returns (r: Result<seq<CpkFile>, ReaderError>)
      modifies `pos, `metadata
      ensures r == GetFiles(stream, startPos)
      ensures metadata == (var h := ReadHeader(stream, startPos); if h.Ok? then Some(h.value) else old(metadata))
    {
      hide ReadTable, ReadToc, ReadItoc, ParseMetadata;
      var t :- ReadTableAt(startPos, Cpk);
      if t.rows == [] { return Err(InvalidHeaderChunk); }
      var m := ParseMetadata(t);
      metadata := Some(m);
      if m.tocOffset != 0 {
        r := ReadTocEntries(m);
        return;
      }
      if m.itocOffset != 0 {
        r := ReadItocEntries(m);
        return;
      }
      r := Err(MissingTocAndItoc);
    }

    method ReadPackedFile(file: CpkFile) returns (r: Result<bytes, ReaderError>)
      modifies `pos
      ensures metadata.None? ==> r == Err(GetFilesNotCalled)
      ensures metadata.Some? ==> r == ReadPacked(stream, startPos, file)
    {
      if metadata.None? { return Err(GetFilesNotCalled); }
      if startPos + file.absoluteOffset > U64_MAX { return Err(MissingFileOffset); }
      pos := startPos + file.absoluteOffset;
      var packed := ReadExact(file.fileSize);
      if packed.None? { return Err(IoError); }
      r := Ok(packed.value);
    }

    /** The packed bytes, and the file they hold: unlocked, then expanded. The slab is empty again
        afterwards. */
    method ExtractFileWithPacked(file: CpkFile) returns (r: Result<(bytes, bytes), ReaderError>)
      requires Valid()
      requires var packed := ReadPacked(stream, startPos, file);
        packed.Ok? ==>
          var data := E.Unlocked(decryptor, target, file, packed.value);
          LaylaFile.IsCompressed(data) ==> LaylaFile.WellFormed(data)
      modifies `pos, freeList.used, freeList`live
      ensures Valid()
      ensures metadata.None? ==> r == Err(GetFilesNotCalled)
      ensures metadata.Some? ==>
        var packed := ReadPacked(stream, startPos, file);
        r == if packed.Err? then Err(packed.error) else Ok((packed.value,
            E.Extracted(decryptor, target, file, packed.value)))
    {
      hide LaylaFile.IsCompressed, LaylaFile.WellFormed, LaylaFile.Content, ReadPacked, P5R.TransformOn;
      var packed :- ReadPackedFile(file);
      var output := packed;
      if E.IsEncrypted(decryptor, file) && decryptor.Persona5Royal? {
        var a := new byte[|packed|](i requires 0 <= i < |packed| => packed[i]);
        assert a[..] == packed;
        P5R.DecryptInPlace(a, target);
        output := a[..];
      }
      assert output == E.Unlocked(decryptor, target, file, packed);
      if LaylaFile.IsCompressed(output) {
        output := LaylaFile.Decompress(output, freeList);
      }
      r := Ok((packed, output));
    }
  }
}
