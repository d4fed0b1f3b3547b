/** An input whose TOC is written and does not read back. */
module OverlongToc {
  import opened BitOps
  import opened Bytes
  import opened Wrappers
  import Layout
  import opened WriterSpec
  import opened Emission
  import opened WholeArchive
  import opened IndexRoundTrip
  import opened Success
  import opened TocLimit
  import R = ReaderSpec
  import B = UtfBuild
  import P5R

  // ----- exact sizes -----

  /** Texts that are new and differ from each other take exactly their own room. */
  lemma {:induction false} PoolExact(p: B.Pool, texts: seq<bytes>)
    requires forall i :: 0 <= i < |texts| ==> texts[i] !in p.offsets
    requires forall i, j :: 0 <= i < j < |texts| ==> texts[i] != texts[j]
    ensures |B.InternAll(p, texts).data| == |p.data| + TextRoom(texts)
  {
    if texts != [] {
      var n := |texts| - 1;
      var front, last := texts[..n], texts[n];
      PoolExact(p, front);
      var q := B.InternAll(p, front);
      if last in q.offsets {
        InternKeys(p, front, last);
        assert false;
      }
    }
  }

  lemma {:induction false} TextRoomSnoc(texts: seq<bytes>, k: nat)
    requires k < |texts|
    ensures TextRoom(texts[..k + 1]) == TextRoom(texts[..k]) + |texts[k]| + 1
  {
    assert texts[..k + 1][..k] == texts[..k];
  }

  lemma {:induction false} WidthSnoc(columns: seq<B.UtfColumn>, k: nat)
    requires k < |columns|
    ensures B.Width(columns[..k + 1]) == B.Width(columns[..k]) + B.TypeSize(columns[k].valueType)
  {
    assert columns[..k + 1][..k] == columns[..k];
  }

  lemma {:induction false} TocColumnSizes(j: nat)
    requires j < 7
    ensures |TOC_COLUMNS| == 7 && |TOC_COLUMNS[j].name| == [7, 8, 8, 11, 10, 2, 10][j]
    ensures B.TypeSize(TOC_COLUMNS[j].valueType) == [4, 4, 4, 4, 8, 4, 4][j]
    ensures TOC_COLUMNS[j].name[0] != Ascii("CpkTocInfo")[0]
  {
  }

  lemma {:induction false} TocWidth()
    ensures B.Width(TOC_COLUMNS) == 32
  {
    forall j | 0 <= j < 7 ensures |TOC_COLUMNS| == 7 &&
        B.TypeSize(TOC_COLUMNS[j].valueType) == [4, 4, 4, 4, 8, 4, 4][j] {
      TocColumnSizes(j);
    }
    var c := TOC_COLUMNS;
    assert c[..0] == [] && c[..7] == c && B.Width([]) == 0;
    hide B.Width, TOC_COLUMNS;
    WidthSnoc(c, 0);
    WidthSnoc(c, 1);
    WidthSnoc(c, 2);
    WidthSnoc(c, 3);
    WidthSnoc(c, 4);
    WidthSnoc(c, 5);
    WidthSnoc(c, 6);
  }

  lemma {:induction false} TocNamesRoom()
    ensures TextRoom(B.ColumnNames(TOC_COLUMNS)) == 63
  {
    var c := B.ColumnNames(TOC_COLUMNS);
    NameLengths();
    hide *;
    NoRoom(c);
    TextRoomSnoc(c, 0);
    TextRoomSnoc(c, 1);
    TextRoomSnoc(c, 2);
    TextRoomSnoc(c, 3);
    TextRoomSnoc(c, 4);
    TextRoomSnoc(c, 5);
    TextRoomSnoc(c, 6);
    assert c[..7] == c;
  }

  lemma {:induction false} NameLengths()
    ensures var c := B.ColumnNames(TOC_COLUMNS);
      && |c| == 7 && |c[0]| == 7 && |c[1]| == 8 && |c[2]| == 8 && |c[3]| == 11 && |c[4]| == 10 && |c[5]| == 2
      && |c[6]| == 10
  {
    forall j | 0 <= j < 7 ensures |TOC_COLUMNS| == 7 && |TOC_COLUMNS[j].name| == [7, 8, 8, 11, 10, 2, 10][j] {
      TocColumnSizes(j);
    }
    hide TOC_COLUMNS;
  }

  lemma {:induction false} NoRoom(texts: seq<bytes>)
    ensures TextRoom(texts[..0]) == 0
  {
  }

  // ----- the input -----

  const LONG := 0xffff_ff4f

  /** An empty file named "a" in a directory of 0xffff_ff4f bytes. */
  function FarFile(): InputFile {
    InputFile(seq(LONG, _ => 0x62), [0x61], FromFile([]), 0, 0, 0, [])
  }

  const PLAIN := Options(1, false)
  const TOC_ONLY := Profile(Toc, false, 7, 0, 0, [], [])

  /** Its texts, without the empty user string. */
  function FarTexts(): seq<bytes> {
    ([Ascii("CpkTocInfo")] + B.ColumnNames(TOC_COLUMNS)) + ([FarFile().directory] + [FarFile().fileName])
  }

  lemma {:induction false} FarTextsDistinct()
    ensures forall i, j :: 0 <= i < j < |FarTexts()| ==> FarTexts()[i] != FarTexts()[j]
    ensures forall i :: 0 <= i < |FarTexts()| ==> FarTexts()[i] != []
  {
    var x := FarTexts();
    TocNames();
    assert |Ascii("CpkTocInfo")| == 10;
    forall j | 0 <= j < 7
      ensures |TOC_COLUMNS| == 7 && 2 <= |TOC_COLUMNS[j].name| <= 11 && TOC_COLUMNS[j].name != Ascii("CpkTocInfo")
    {
      TocColumnSizes(j);
    }
    hide TOC_COLUMNS, Ascii;
    assert |x| == 10 && x[0] == Ascii("CpkTocInfo") && x[8] == FarFile().directory && x[9] == [0x61];
    assert forall j :: 0 <= j < 7 ==> x[1 + j] == TOC_COLUMNS[j].name;
    forall i, j | 0 <= i < j < 10 ensures x[i] != x[j] {
      if 1 <= i && j <= 7 {
        assert x[i] == TOC_COLUMNS[i - 1].name && x[j] == TOC_COLUMNS[j - 1].name;
      } else if i == 0 && j <= 7 {
        assert x[j] == TOC_COLUMNS[j - 1].name;
      } else {
        assert |x[8]| == LONG && |x[9]| == 1;
        assert i <= 7 ==> 2 <= |x[i]| <= 11;
      }
    }
  }

  lemma {:induction false} FarPool(offset: u64)
    ensures |B.PoolOf(TocTable([FarFile()], [offset])).data| == 78 + LONG
  {
    var t := TocTable([FarFile()], [offset]);
    assert t.name == Ascii("CpkTocInfo") && t.columns == TOC_COLUMNS && t.rows == [TocRow(FarFile(), offset)];
    OneRowTexts(TocRow(FarFile(), offset));
    TocRowTexts(FarFile(), offset);
    assert B.Texts(t) == FarTexts() + [[]];
    assert |Ascii("CpkTocInfo")| == 10 && |FarFile().directory| == LONG && |FarFile().fileName| == 1;
    FarTextsDistinct();
    hide Ascii, TOC_COLUMNS, TocTable, TocRow, B.RowsTexts, B.ColumnNames, TextRoom, B.InternAll;
    PoolExact(B.FIRST_POOL, FarTexts());
    B.FirstPoolWell();
    B.InternAllKeeps(B.FIRST_POOL, FarTexts());
    LastTextKnown(FarTexts());
    FarRoom();
  }

  lemma {:induction false} LastTextKnown(texts: seq<bytes>)
    requires [] in B.InternAll(B.FIRST_POOL, texts).offsets
    ensures B.InternAll(B.FIRST_POOL, texts + [[]]) == B.InternAll(B.FIRST_POOL, texts)
  {
    assert (texts + [[]])[..|texts|] == texts;
  }

  lemma {:induction false} FarRoom()
    ensures TextRoom(FarTexts()) == 77 + LONG
  {
    var name, names := Ascii("CpkTocInfo"), B.ColumnNames(TOC_COLUMNS);
    var d, a := FarFile().directory, FarFile().fileName;
    assert |name| == 10 && |d| == LONG && |a| == 1;
    hide Ascii, TOC_COLUMNS, B.ColumnNames, TextRoom, FarFile;
    TocNamesRoom();
    TextRoomConcat([name] + names, [d] + [a]);
    TextRoomConcat([name], names);
    TextRoomConcat([d], [a]);
    OneText(name);
    OneText(d);
    OneText(a);
  }

  /** Its TOC table is one byte too long. */
  lemma {:induction false} FarTable(offset: u64)
    ensures var t := TocTable([FarFile()], [offset]);
      B.TotalSize(t) == 0x1_0000_0000 && B.Build(t) == Some(B.TableBytes(t)) && |B.TableBytes(t)| == 0x1_0000_0000
  {
    var t := TocTable([FarFile()], [offset]);
    assert t.columns == TOC_COLUMNS && t.rows == [TocRow(FarFile(), offset)];
    NoDataCells(t.rows);
    TocRowTyped(FarFile(), offset);
    TocColumnsShort();
    TocWidth();
    FarPool(offset);
    hide TocTable, B.TableBytes, TOC_COLUMNS, B.Typed, TocRow, B.PoolOf, B.Width, B.RowsData;
    TimesIsProduct(32, 1);
    assert B.Accepts(t);
    B.TableLength(t);
  }

  /** The writer accepts the input, and what it writes does not read back. */
  lemma {:induction false} FarFileIsLost(target: P5R.Target)
    ensures var files := [FarFile()];
      && AllNamed(files) && CleanFiles(files) && !TocFits(files)
      && Archive(files, PLAIN, TOC_ONLY, target).Ok? && MakePlan(files, PLAIN, TOC_ONLY).Ok?
      && var stream, p := Archive(files, PLAIN, TOC_ONLY, target).value, MakePlan(files, PLAIN, TOC_ONLY).value;
         !(R.GetFiles(stream, 0).Ok? && AllRead(stream, 0, R.GetFiles(stream, 0).value, files, PLAIN, TOC_ONLY,
             target, p))
  {
    var files := [FarFile()];
    assert AllNamed(files) && CleanFiles(files) && TOC_ONLY.mode.Toc?;
    FarNotFits();
    FarPlan();
    FarPayload(target);
    hide *;
    PlanIsWritten(files, PLAIN, TOC_ONLY, target);
    var p := WrittenAlone(files, PLAIN, TOC_ONLY, target);
    var stream := Archive(files, PLAIN, TOC_ONLY, target).value;
    TocReadsBackIff(stream, 0, files, PLAIN, TOC_ONLY, target, p);
  }

  lemma {:induction false} FarNotFits()
    ensures !TocFits([FarFile()])
  {
    assert ZeroOffsets(1) == [0];
    hide TocTable, B.TotalSize, FarFile;
    FarTable(0);
  }

  lemma {:induction false} FarPayload(target: P5R.Target)
    ensures forall i :: 0 <= i < |[FarFile()]| ==> Payload([FarFile()][i], PLAIN.p5rEncryption, target).Ok?
  {
    assert Payload(FarFile(), false, target) == Ok([]);
  }

  lemma {:induction false} FarParts()
    ensures var files := [FarFile()];
      && PhysicalOrder(files, TOC_ONLY) == Ok(Indices(1)) && ItocPart(files, Indices(1), TOC_ONLY) == Ok(None)
      && TocPart(files, ZeroOffsets(1), TOC_ONLY.mode) == Ok(B.Build(TocTable(files, ZeroOffsets(1))))
      && |B.Build(TocTable(files, ZeroOffsets(1))).value| == 0x1_0000_0000
  {
    assert ZeroOffsets(1) == [0];
    hide TocTable, B.TotalSize, FarFile, B.Build, B.TableBytes;
    FarTable(0);
  }

  lemma {:induction false} FarPlan()
    ensures MakePlan([FarFile()], PLAIN, TOC_ONLY).Ok?
  {
    assert Layout.IsPowerOfTwo(1) && ValidAlignment(PLAIN.alignment) && !TOC_ONLY.mode.HasItoc() &&
        PLAIN.alignment == 1;
    hide FarFile, PhysicalOrder, CheckedAlignUp, TocPart, ItocPart, MakeIndex, MakePlan, B.Build, TocTable, Indices,
      ZeroOffsets;
    var files := [FarFile()];
    FarParts();
    var toc := B.Build(TocTable(files, ZeroOffsets(1)));
    var v := ENGINE_INDEX_BASE + CHUNK_HEADER_SIZE + 0x1_0000_0000;
    AlignSucceeds(v, 1);
    AlignSucceeds(CheckedAlignUp(v, 1).value, 1);
    var end := CheckedAlignUp(v, 1).value;
    IndexIs(files, 1, TOC_ONLY, Indices(1), toc, None, end, end, CheckedAlignUp(end, 1).value);
    PlanFromIndex(files, PLAIN, TOC_ONLY);
  }
}
