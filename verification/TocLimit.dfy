/** The exact limit of the TOC round trip: past 0xffff_ffff bytes the reader's string pool is cut
    short, and some directory, name or user string is lost. */
module TocLimit {
  import opened BitOps
  import opened Bytes
  import opened Wrappers
  import opened WriterSpec
  import opened WriterPlan
  import opened Emission
  import opened UtfRoundTrip
  import opened UtfLimits
  import opened IndexRoundTrip
  import opened ArchiveRoundTrip
  import opened WholeArchive
  import R = ReaderSpec
  import B = UtfBuild
  import P = UtfParse
  import P5R

  // ----- the end of the pool -----

  /** Nothing is in the pool but what was there and what was interned. */
  lemma {:induction false} InternKeys(p: B.Pool, texts: seq<bytes>, s: bytes)
    requires s in B.InternAll(p, texts).offsets
    ensures s in p.offsets || s in texts
  {
    if texts != [] {
      var front, last := texts[..|texts| - 1], texts[|texts| - 1];
      if s != last {
        InternKeys(p, front, s);
      }
    }
  }

  /** Interning more texts either adds no bytes or leaves one of them at the end. */
  lemma {:induction false} LastNew(p: B.Pool, texts: seq<bytes>)
    ensures var q := B.InternAll(p, texts);
      q.data == p.data || exists s :: s in texts && EndsWith(q, s)
  {
    if texts != [] {
      var front, last := texts[..|texts| - 1], texts[|texts| - 1];
      var mid, q := B.InternAll(p, front), B.InternAll(p, texts);
      LastNew(p, front);
      assert texts == front + [last];
      if last !in mid.offsets {
        assert EndsWith(q, last);
      } else if mid.data != p.data {
        var s :| s in front && EndsWith(mid, s);
        assert s in texts && EndsWith(q, s);
      }
    }
  }

  /** A new text ends the pool. */
  lemma {:induction false} EndsWithNew(p: B.Pool, texts: seq<bytes>, s: bytes)
    requires s !in p.offsets && s !in texts
    ensures EndsWith(B.InternAll(p, texts + [s]), s)
  {
    assert (texts + [s])[..|texts|] == texts;
    var q := B.InternAll(p, texts);
    if s in q.offsets {
      InternKeys(p, texts, s);
    }
  }

  // ----- a pool cut short -----

  lemma {:induction false} NonZeroInside(data: bytes, s: bytes, o: nat)
    requires B.Holds(data, s, o) && 0 !in s
    ensures forall k :: o <= k < o + |s| ==> data[k] != 0
  {
    forall k | o <= k < o + |s| ensures data[k] != 0 {
      assert data[k] == data[o..o + |s|][k - o];
    }
  }

  /** A cut that the parser accepts does not fall inside the last string: it removes it whole. */
  lemma {:induction false} CutBeforeLast(p: B.Pool, s: bytes, n: nat)
    requires B.WellPooled(p) && EndsWith(p, s) && 0 !in s && 0 < n < |p.data|
    requires P.ParseStrings(p.data[..n]).Some?
    ensures n <= p.offsets[s] && p.offsets[s] !in P.StringsOf(p.data[..n])
  {
    var o := p.offsets[s];
    NonZeroInside(p.data, s, o);
    assert p.data[..n][n - 1] == 0;
  }

  /** A string the cut leaves is the string that was interned there. */
  lemma {:induction false} CutKeeps(p: B.Pool, s: bytes, n: nat)
    requires B.WellPooled(p) && s in p.offsets && 0 !in s && n <= |p.data|
    requires P.ParseStrings(p.data[..n]).Some? && p.offsets[s] in P.StringsOf(p.data[..n])
    ensures P.StringsOf(p.data[..n])[p.offsets[s]] == s
  {
    var o, cut := p.offsets[s], p.data[..n];
    assert B.Holds(p.data, s, o) && o < n && cut[n - 1] == 0;
    NonZeroInside(p.data, s, o);
    assert o + |s| < n;
    hide P.UpToNul, B.WellPooled, P.IsStart, B.Holds;
    CutFrom(p.data, s, o, n);
    UpToNulInFront(s, cut[o + |s| + 1..]);
    WholeIffNulFree(s);
  }

  lemma {:induction false} CutFrom(data: bytes, s: bytes, o: nat, n: nat)
    requires B.Holds(data, s, o) && o + |s| < n <= |data|
    ensures var cut := data[..n]; cut[o..] == s + [0] + cut[o + |s| + 1..]
  {
    var cut := data[..n];
    var left, right := cut[o..], s + [0] + cut[o + |s| + 1..];
    forall k | 0 <= k < |left| ensures left[k] == right[k] {
      if k < |s| {
        assert left[k] == data[o..o + |s|][k];
      }
    }
  }

  // ----- the TOC's pool -----

  lemma {:induction false} LastName()
    ensures |TOC_COLUMNS| == 7 && TOC_COLUMNS[6].name == Ascii("UserString") && |Ascii("UserString")| == 10
    ensures 0 !in Ascii("UserString")
    ensures Ascii("UserString") != Ascii("CpkTocInfo") && Ascii("UserString") != []
  {
    assert Ascii("UserString")[0] != Ascii("CpkTocInfo")[0];
  }

  lemma {:induction false} NamesBeforeLast(t: B.Table)
    requires t.name == Ascii("CpkTocInfo") && t.columns == TOC_COLUMNS
    ensures Ascii("UserString") !in [t.name] + B.ColumnNames(t.columns)[..6]
    ensures B.Texts(t) == ([t.name] + B.ColumnNames(t.columns)[..6] + [Ascii("UserString")]) + B.RowsTexts(t.rows)
  {
    TocNames();
    LastName();
    hide Ascii, TOC_COLUMNS;
    var names := B.ColumnNames(t.columns);
    assert names == names[..6] + [names[6]];
  }

  /** The TOC's pool ends with the last column's name or with a text of some row. */
  lemma {:induction false} PoolEnd(t: B.Table)
    requires t.name == Ascii("CpkTocInfo") && t.columns == TOC_COLUMNS
    ensures exists s :: (s == Ascii("UserString") || s in B.RowsTexts(t.rows)) && EndsWith(B.PoolOf(t), s)
  {
    hide Ascii, TOC_COLUMNS, B.InternAll;
    NamesBeforeLast(t);
    LastName();
    var front, us, cells := [t.name] + B.ColumnNames(t.columns)[..6], Ascii("UserString"), B.RowsTexts(t.rows);
    EndsWithNew(B.FIRST_POOL, front, us);
    var p := B.InternAll(B.FIRST_POOL, front + [us]);
    B.InternAllConcat(B.FIRST_POOL, front + [us], cells);
    LastNew(p, cells);
    B.FirstPoolWell();
    B.InternAllKeeps(B.FIRST_POOL, front + [us]);
    B.InternAllKeeps(p, cells);
    if B.PoolOf(t).data == p.data {
      assert EndsWith(B.PoolOf(t), us);
    }
  }

  /** A text in the rows is the text of some cell. */
  lemma {:induction false} CellWith(rows: seq<seq<B.UtfValue>>, s: bytes) returns (i: nat, j: nat)
    requires s in B.RowsTexts(rows)
    ensures i < |rows| && j < |rows[i]| && rows[i][j] == B.CellString(s)
  {
    var n := |rows| - 1;
    if s in B.RowTexts(rows[n]) {
      i := n;
      j := CellInRowWith(rows[n], s);
    } else {
      i, j := CellWith(rows[..n], s);
    }
  }

  lemma {:induction false} CellInRowWith(row: seq<B.UtfValue>, s: bytes) returns (j: nat)
    requires s in B.RowTexts(row)
    ensures j < |row| && row[j] == B.CellString(s)
  {
    var n := |row| - 1;
    if row[n] == B.CellString(s) {
      j := n;
    } else {
      j := CellInRowWith(row[..n], s);
    }
  }

  // ----- what the reader sees -----

  /** A TOC longer than the limit that still parses. */
  ghost predicate Overlong(t: B.Table, h: P.HighTable) {
    && B.Accepts(t) && B.DataStart(t) > U32_MAX && P.Parse(B.TableBytes(t)) == Some(h)
    && t.name == Ascii("CpkTocInfo") && t.columns == TOC_COLUMNS
    && B.RowsData(t.rows) == [] && forall s :: s in B.RowsTexts(t.rows) ==> 0 !in s
  }

  /** Some cell's text is beyond the cut. */
  lemma {:induction false} LostText(t: B.Table, h: P.HighTable) returns (s: bytes)
    requires Overlong(t, h)
    ensures s in B.RowsTexts(t.rows) && s != [] && s in B.PoolOf(t).offsets
    ensures P.GetString(h, B.PoolOf(t).offsets[s]) == None
  {
    hide P.Parse, B.TableBytes, B.PoolOf, B.RowsTexts, P.StringsOf, B.Width, Times, B.RowsData, Ascii, TOC_COLUMNS;
    StringsCut(t);
    PoolEnd(t);
    LastName();
    B.PoolCovers(t);
    var p, n := B.PoolOf(t), U32_MAX - B.StringStart(t);
    s :| (s == Ascii("UserString") || s in B.RowsTexts(t.rows)) && EndsWith(p, s);
    TailShort(t);
    ShortAfterCut(p, s, n);
  }

  lemma {:induction false} TailShort(t: B.Table)
    requires B.Accepts(t) && B.RowsData(t.rows) == []
    ensures B.StringStart(t) + |B.PoolOf(t).data| <= U32_MAX + 8
  {
  }

  /** At most eight bytes are cut, so the last string is short and gone. */
  lemma {:induction false} ShortAfterCut(p: B.Pool, s: bytes, n: nat)
    requires B.WellPooled(p) && EndsWith(p, s) && 0 !in s && n < |p.data| <= n + 8 && |p.data| > 8
    requires P.ParseStrings(p.data[..n]).Some?
    ensures |s| <= 7 && s != [] && p.offsets[s] !in P.StringsOf(p.data[..n])
  {
    CutBeforeLast(p, s, n);
  }

  /** Column names that survive the cut are the right ones. */
  lemma {:induction false} ColumnFound(t: B.Table, h: P.HighTable, name: bytes)
    requires Overlong(t, h) && P.ColumnIndex(h, name).Some?
    ensures P.ColumnIndex(h, name).value < |TOC_COLUMNS| && TOC_COLUMNS[P.ColumnIndex(h, name).value].name == name
  {
    hide P.Parse, B.TableBytes, B.PoolOf, P.StringsOf, B.Accepts, B.DataStart, B.StringStart, B.RowsTexts, B.RowsData,
      TOC_COLUMNS, Ascii, Times, B.Width, B.WellPooled;
    var b := B.TableBytes(t);
    assert b + [] == b;
    RowsParse(t, []);
    StringsCut(t);
    TocNames();
    B.PoolCovers(t);
    var p, n, k := B.PoolOf(t), U32_MAX - B.StringStart(t), P.ColumnIndex(h, name).value;
    assert h.columns[k] == ReadColumn(t.columns[k], p);
    CutKeeps(p, t.columns[k].name, n);
  }

  lemma {:induction false} TextCell(t: B.Table, h: P.HighTable, i: nat, j: nat, s: bytes)
    requires Overlong(t, h) && i < |t.rows| && j < |t.rows[i]| && t.rows[i][j] == B.CellString(s)
    requires s != [] && s in B.PoolOf(t).offsets && P.GetString(h, B.PoolOf(t).offsets[s]) == None
    ensures R.StringAt(h, i, j) == None
  {
    hide P.Parse, B.TableBytes, B.PoolOf, P.GetString, B.DataStart, B.RowsTexts, B.RowsData, TOC_COLUMNS, Ascii,
      P.Value, DataPlace, B.Width, Times, B.TotalSize;
    assert B.TableBytes(t) + [] == B.TableBytes(t);
    assert B.Typed(t.rows[i], t.columns);
    CellParses(t, [], i, j);
    B.PoolCovers(t);
  }

  /** The columns a cut TOC still shows are where they were written. */
  lemma {:induction false} ColumnsNear(t: B.Table, h: P.HighTable)
    requires Overlong(t, h) && R.FindTocColumns(h).Ok?
    ensures var c := R.FindTocColumns(h).value;
      c.fileName == 1 && (c.dirName.Some? ==> c.dirName.value == 0) && (c.userString.Some? ==> c.userString.value == 6)
  {
    hide Overlong, P.ColumnIndex, TOC_COLUMNS, Ascii;
    NamesAt();
    if P.ColumnIndex(h, Ascii("DirName")).Some? { ColumnFound(t, h, Ascii("DirName")); }
    if P.ColumnIndex(h, Ascii("UserString")).Some? { ColumnFound(t, h, Ascii("UserString")); }
    ColumnFound(t, h, Ascii("FileName"));
  }

  lemma {:induction false} NamesAt()
    ensures |TOC_COLUMNS| == 7 && forall i, j :: 0 <= i < j < 7 ==> TOC_COLUMNS[i].name != TOC_COLUMNS[j].name
    ensures TOC_COLUMNS[0].name == Ascii("DirName") && TOC_COLUMNS[1].name == Ascii("FileName")
    ensures TOC_COLUMNS[6].name == Ascii("UserString")
  {
    TocNames();
  }

  /** The row with the lost text is refused or reported without it. */
  lemma {:induction false} RowLost(h: P.HighTable, c: R.TocColumns, f: InputFile, offset: u64, i: nat, j: nat,
        s: bytes, e: R.CpkFile)
    requires c.fileName == 1 && (c.dirName.Some? ==> c.dirName.value == 0)
    requires (c.userString.Some? ==> c.userString.value == 6)
    requires j < 7 && TocRow(f, offset)[j] == B.CellString(s) && s != [] && 0 !in s && R.StringAt(h, i, j) == None
    requires R.TocFile(h, c, i) == Ok(e)
    ensures forall o: u64 :: !Reports(e, f, o, true)
  {
    hide R.StringAt, R.NumericAt, P.UpToNul;
    WholeIffNulFree(s);
  }

  lemma {:induction false} EntryOf(h: P.HighTable, c: R.TocColumns, n: nat, i: nat)
    requires i < n && R.TocFiles(h, c, n).Ok?
    ensures R.TocFile(h, c, i) == Ok(R.TocFiles(h, c, n).value[i])
  {
    hide R.TocFile;
    if i < n - 1 {
      EntryOf(h, c, n - 1, i);
    }
  }

  ghost predicate CleanFiles(files: seq<InputFile>) {
    forall i :: 0 <= i < |files| ==> 0 !in files[i].directory && 0 !in files[i].fileName && 0 !in files[i].userString
  }

  lemma {:induction false} TocShape(files: seq<InputFile>, offsets: seq<u64>)
    requires |offsets| == |files| && CleanFiles(files)
    ensures var t := TocTable(files, offsets);
      && t.name == Ascii("CpkTocInfo") && t.columns == TOC_COLUMNS && |t.rows| == |files| && B.RowsData(t.rows) == []
      && (forall i :: 0 <= i < |files| ==> t.rows[i] == TocRow(files[i], offsets[i]))
      && (forall s :: s in B.RowsTexts(t.rows) ==> 0 !in s)
  {
    var t := TocTable(files, offsets);
    NoDataCells(t.rows);
    forall s | s in B.RowsTexts(t.rows) ensures 0 !in s {
      var i, j := CellWith(t.rows, s);
      assert t.rows[i] == TocRow(files[i], offsets[i]);
    }
  }

  /** Some input is not reported as it was packed. */
  lemma {:induction false} InputLost(h: P.HighTable, files: seq<InputFile>, offsets: seq<u64>) returns (i: nat)
    requires |offsets| == |files| && CleanFiles(files) && Overlong(TocTable(files, offsets), h)
    requires R.FindTocColumns(h).Ok? && R.TocFiles(h, R.FindTocColumns(h).value, |h.rows|).Ok?
    ensures var entries := R.TocFiles(h, R.FindTocColumns(h).value, |h.rows|).value;
      i < |files| == |entries| && forall o: u64 :: !Reports(entries[i], files[i], o, true)
  {
    var t, c := TocTable(files, offsets), R.FindTocColumns(h).value;
    TocShape(files, offsets);
    OverlongRows(t, h);
    hide Overlong, TocTable, R.FindTocColumns, R.TocFile, R.TocFiles, Reports, B.RowsTexts, TOC_COLUMNS, TocRow;
    var s := LostText(t, h);
    var j;
    i, j := CellWith(t.rows, s);
    TextCell(t, h, i, j, s);
    ColumnsNear(t, h);
    EntryOf(h, c, |h.rows|, i);
    TocRowShape(files[i], offsets[i]);
    RowLost(h, c, files[i], offsets[i], i, j, s, R.TocFiles(h, c, |h.rows|).value[i]);
  }

  lemma {:induction false} TocRowShape(f: InputFile, offset: u64)
    ensures |TocRow(f, offset)| == 7
  {
  }

  lemma {:induction false} OverlongRows(t: B.Table, h: P.HighTable)
    requires Overlong(t, h)
    ensures |h.rows| == |t.rows|
  {
    hide P.Parse, B.TableBytes, B.DataStart, B.RowsTexts, B.RowsData, TOC_COLUMNS, Ascii, B.PoolOf, B.Width;
    assert B.TableBytes(t) + [] == B.TableBytes(t);
    RowsParse(t, []);
  }

  /** Reading a TOC that does not fit never gives back all inputs. */
  lemma {:induction false} OverlongFails(stream: bytes, start: nat, m: R.Metadata, files: seq<InputFile>,
        offsets: seq<u64>, table: bytes)
      returns (i: nat)
    requires |offsets| == |files| && CleanFiles(files)
    requires B.Build(TocTable(files, offsets)) == Some(table) && |table| > U32_MAX
    requires start + m.tocOffset <= U64_MAX && At(stream, start + m.tocOffset, Chunk(TocChunk, table))
    ensures var r := R.ReadToc(stream, start, m);
      r.Ok? ==> i < |files| == |r.value| && forall o: u64 :: !Reports(r.value[i], files[i], o, true)
  {
    hide *;
    var t, at := TocTable(files, offsets), start + m.tocOffset;
    BuiltIs(t, table);
    TocShape(files, offsets);
    AllPool(t);
    TableBytesStart(t);
    KindsRead();
    ChunkReads(stream, at, TocChunk, table);
    TocSteps(stream, start, m, table);
    i := 0;
    if R.ReadToc(stream, start, m).Ok? {
      var h := P.Parse(table).value;
      OverlongIs(t, h);
      i := InputLost(h, files, offsets);
    }
  }

  lemma {:induction false} OverlongIs(t: B.Table, h: P.HighTable)
    requires B.Accepts(t) && B.DataStart(t) > U32_MAX && P.Parse(B.TableBytes(t)) == Some(h)
    requires t.name == Ascii("CpkTocInfo") && t.columns == TOC_COLUMNS
    requires B.RowsData(t.rows) == [] && forall s :: s in B.RowsTexts(t.rows) ==> 0 !in s
    ensures Overlong(t, h)
  {
    hide B.Accepts, B.DataStart, P.Parse, Ascii, TOC_COLUMNS, B.RowsData, B.RowsTexts;
  }

  lemma {:induction false} AllPool(t: B.Table)
    requires B.RowsData(t.rows) == []
    ensures B.DataStart(t) == B.TotalSize(t)
  {
  }

  lemma {:induction false} TocSteps(stream: bytes, start: nat, m: R.Metadata, table: bytes)
    requires start + m.tocOffset <= U64_MAX && R.ReadContainer(stream, start + m.tocOffset) == Some((R.Toc, table))
    ensures var r := R.ReadToc(stream, start, m);
      r.Ok? ==>
        && P.Parse(table).Some?
        && var h := P.Parse(table).value;
           R.FindTocColumns(h).Ok? && r == R.TocFiles(h, R.FindTocColumns(h).value, |h.rows|)
  {
    hide R.ReadContainer, P.Parse, R.FindTocColumns, R.TocFiles;
  }

  // ----- the exact condition -----

  /** For TOC-only archives of named, NUL-free inputs: the whole listing and all payloads read back
      exactly when the TOC table is at most 0xffff_ffff bytes long. */
  lemma {:induction false} TocReadsBackIff(stream: bytes, start: nat, files: seq<InputFile>, opts: Options,
        profile: Profile, target: P5R.Target, p: Plan)
    requires profile.mode.Toc? && AllNamed(files) && CleanFiles(files)
    requires Written(stream, start, files, opts, profile, target, p)
    ensures (R.GetFiles(stream, start).Ok? &&
            AllRead(stream, start, R.GetFiles(stream, start).value, files, opts, profile, target, p))
            <==> TocFits(files)
  {
    if TocFits(files) {
      hide *;
      ArchiveReadsBack(stream, start, files, opts, profile, target, p);
    } else {
      hide *;
      TooLong(stream, start, files, opts, profile, target, p);
    }
  }

  lemma {:induction false} TooLong(stream: bytes, start: nat, files: seq<InputFile>, opts: Options,
        profile: Profile, target: P5R.Target, p: Plan)
    requires profile.mode.Toc? && CleanFiles(files) && !TocFits(files)
    requires Written(stream, start, files, opts, profile, target, p)
    ensures R.GetFiles(stream, start).Ok? ==>
            !AllRead(stream, start, R.GetFiles(stream, start).value, files, opts, profile, target, p)
  {
    TocMode(profile);
    hide *;
    var payloads := WrittenParts(stream, start, files, opts, profile, target, p);
    TablesParts(files, opts, profile, p);
    PlanBounds(files, opts, profile, p);
    ModeKinds(profile.mode);
    HeaderLies(stream, start, files, opts, profile, p, payloads);
    IndexLies(stream, start, files, opts, profile, p, payloads);
    var m := MetadataReads(stream, start, files, opts, profile, p, payloads);
    RecordedOffsets(m, opts, profile, p);
    GetFromToc(stream, start, m);
    StaysLong(files, Relative(p.offsets), p.tocTable.value);
    var i := OverlongFails(stream, start, m, files, Relative(p.offsets), p.tocTable.value);
    if R.GetFiles(stream, start).Ok? {
      NotAllRead(stream, start, R.GetFiles(stream, start).value, files, opts, profile, target, p, i);
    }
  }

  lemma {:induction false} TocMode(profile: Profile)
    ensures profile.mode.Toc? ==> profile.mode.HasToc()
  {
  }

  lemma {:induction false} StaysLong(files: seq<InputFile>, offsets: seq<u64>, table: bytes)
    requires |offsets| == |files| && B.Build(TocTable(files, offsets)) == Some(table) && !TocFits(files)
    ensures |table| > U32_MAX
  {
    hide B.TableBytes, TocTable, B.TotalSize, B.Accepts;
    ProbeAgrees(files, offsets, Toc);
    var probe := B.Build(TocTable(files, ZeroOffsets(|files|)));
    BuiltIs(TocTable(files, ZeroOffsets(|files|)), probe.value);
  }

  lemma {:induction false} NotAllRead(stream: bytes, start: nat, entries: seq<R.CpkFile>, files: seq<InputFile>,
        opts: Options, profile: Profile, target: P5R.Target, p: Plan, i: nat)
    requires profile.mode.HasToc() && i < |files| == |entries|
    requires forall o: u64 :: !Reports(entries[i], files[i], o, true)
    ensures !AllRead(stream, start, entries, files, opts, profile, target, p)
  {
    hide Reports, R.ReadPacked, Payload;
    assert Listing(files, profile) == Indices(|files|) && Indices(|files|)[i] == i;
  }
}
