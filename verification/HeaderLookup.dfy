/** The header table's fields are found by name. */
module HeaderLookup {
  import opened BitOps
  import opened Bytes
  import opened Wrappers
  import opened WriterSpec
  import opened UtfRoundTrip
  import opened Lookup
  import R = ReaderSpec
  import P = UtfParse
  import B = UtfBuild

  /** The signatures of the 26 column names, in order. */
  const HEADER_SIGNATURES: seq<int> :=
    [0xe556165, 0x8465365, 0xd437474, 0xb436e65, 0x9546674, 0x7545365, 0xa456674, 0x8455365, 0xa496674,
     0x8495365, 0xa476674, 0x8475365, 0x5466c73, 0x756736e, 0x852736e, 0x541696e, 0x6537464, 0x3454944,
     0xe456965, 0x7434d65, 0x5546573, 0x7436d74, 0x5436463, 0x7444963, 0xc455463, 0xd454663]

  lemma {:induction false} LeadingNamesSigned(j: nat)
    requires j < 13
    ensures |HEADER_COLUMNS| == 26 && Signature(HEADER_COLUMNS[j].name) == HEADER_SIGNATURES[j]
  {
    hide Signature, Ascii;
    if j == 0 { SignatureOf("UpdateDateTime"); }
    else if j == 1 { SignatureOf("FileSize"); }
    else if j == 2 { SignatureOf("ContentOffset"); }
    else if j == 3 { SignatureOf("ContentSize"); }
    else if j == 4 { SignatureOf("TocOffset"); }
    else if j == 5 { SignatureOf("TocSize"); }
    else if j == 6 { SignatureOf("EtocOffset"); }
    else if j == 7 { SignatureOf("EtocSize"); }
    else if j == 8 { SignatureOf("ItocOffset"); }
    else if j == 9 { SignatureOf("ItocSize"); }
    else if j == 10 { SignatureOf("GtocOffset"); }
    else if j == 11 { SignatureOf("GtocSize"); }
    else if j == 12 { SignatureOf("Files"); }
  }

  lemma {:induction false} TrailingNamesSigned(j: nat)
    requires 13 <= j < 26
    ensures |HEADER_COLUMNS| == 26 && Signature(HEADER_COLUMNS[j].name) == HEADER_SIGNATURES[j]
  {
    hide Signature, Ascii;
    if j == 13 { SignatureOf("Version"); }
    else if j == 14 { SignatureOf("Revision"); }
    else if j == 15 { SignatureOf("Align"); }
    else if j == 16 { SignatureOf("Sorted"); }
    else if j == 17 { SignatureOf("EID"); }
    else if j == 18 { SignatureOf("EnableFileName"); }
    else if j == 19 { SignatureOf("CpkMode"); }
    else if j == 20 { SignatureOf("Tvers"); }
    else if j == 21 { SignatureOf("Comment"); }
    else if j == 22 { SignatureOf("Codec"); }
    else if j == 23 { SignatureOf("DpkItoc"); }
    else if j == 24 { SignatureOf("EnableTocCrc"); }
    else if j == 25 { SignatureOf("EnableFileCrc"); }
  }

  /** No name needs comparing byte by byte: signatures tell the columns apart. */
  lemma {:induction false} HeaderNamesSigned(j: nat)
    requires j < 26
    ensures |HEADER_COLUMNS| == 26 && Signature(HEADER_COLUMNS[j].name) == HEADER_SIGNATURES[j]
  {
    hide *;
    if j < 13 {
      LeadingNamesSigned(j);
    } else {
      TrailingNamesSigned(j);
    }
  }

  lemma {:induction false} SignaturesDistinct(i: nat, j: nat)
    requires i < j < 26
    ensures HEADER_SIGNATURES[i] != HEADER_SIGNATURES[j]
  {
  }

  lemma {:induction false} HeaderNamesClean()
    ensures CleanNames(HEADER_COLUMNS) && |HEADER_COLUMNS| == 26
  {
  }

  lemma {:induction false} HeaderTableShape(info: HeaderInfo, profile: Profile)
    ensures var t := HeaderTable(info, profile);
      t.columns == HEADER_COLUMNS && |t.rows| == 1 && t.rows[0] == HeaderRow(info, profile)
  {
  }

  /** A numeric field is found under its own name in any table with the header's columns. */
  lemma {:induction false} FieldOfAny(h: P.HighTable, t: B.Table, k: nat, name: string)
    requires Mirrors(h, t) && t.columns == HEADER_COLUMNS && |t.rows| == 1 && |t.rows[0]| == 26 && k < 26
    requires |HEADER_COLUMNS| == 26 && HEADER_COLUMNS[k].name == Ascii(name) && NumberIn(t.rows[0][k]).Some?
    ensures R.Get(h, name) == NumberIn(t.rows[0][k]).value
  {
    hide Mirrors, P.ColumnIndex, P.Value, Ascii, HEADER_COLUMNS;
    ColumnOfAny(h, t, k);
    NumberCell(h, t, 0, k);
  }

  lemma {:induction false} ColumnOfAny(h: P.HighTable, t: B.Table, k: nat)
    requires Mirrors(h, t) && t.columns == HEADER_COLUMNS && k < 26
    ensures |HEADER_COLUMNS| == 26 && P.ColumnIndex(h, HEADER_COLUMNS[k].name) == Some(k)
  {
    HeaderNamesClean();
    hide Mirrors, P.ColumnIndex, Signature, Ascii, HEADER_COLUMNS, HEADER_SIGNATURES, CleanNames;
    forall j | 0 <= j < k ensures t.columns[j].name != t.columns[k].name {
      HeaderNamesSigned(j);
      HeaderNamesSigned(k);
      SignaturesDistinct(j, k);
    }
    FoundColumn(h, t, k);
  }

  /** A text field of the header table, found by name: absent when it is empty. */
  ghost predicate TextNamed(h: P.HighTable, name: string, text: bytes) {
    && P.ColumnIndex(h, Ascii(name)).Some?
    && R.StringAt(h, 0, P.ColumnIndex(h, Ascii(name)).value) == if text == [] then None else Some(P.UpToNul(text))
  }

  lemma {:induction false} TextsRead(h: P.HighTable, info: HeaderInfo, profile: Profile)
    requires Mirrors(h, HeaderTable(info, profile))
    ensures TextNamed(h, "Tvers", profile.tvers) && TextNamed(h, "Comment", profile.comment)
  {
    var t := HeaderTable(info, profile);
    HeaderTableShape(info, profile);
    hide Mirrors, HeaderTable, P.ColumnIndex, R.StringAt, Ascii, P.UpToNul;
    ColumnOfAny(h, t, 20);
    ColumnOfAny(h, t, 21);
    StringCell(h, t, 0, 20);
    StringCell(h, t, 0, 21);
  }

  // ----- any numbers -----

  /** A table with the header's columns and one row of numbers and texts of the right types. */
  ghost predicate HeaderLike(t: B.Table) {
    t.columns == HEADER_COLUMNS && |t.rows| == 1 && B.Typed(t.rows[0], HEADER_COLUMNS)
  }

  function Number(t: B.Table, k: nat): u64 {
    if |t.rows| == 0 || k >= |t.rows[0]| || NumberIn(t.rows[0][k]).None? then 0 else NumberIn(t.rows[0][k]).value
  }

  lemma {:induction false} ColumnsAre()
    ensures |HEADER_COLUMNS| == 26
    ensures HEADER_COLUMNS[20].valueType == B.TypeString && HEADER_COLUMNS[21].valueType == B.TypeString
    ensures forall k :: 0 <= k < 26 && k != 20 && k != 21 ==>
              HEADER_COLUMNS[k].valueType in [B.TypeU16, B.TypeU32, B.TypeU64]
    ensures forall k :: k == 12 || k == 19 || k == 22 || k == 23 ==> HEADER_COLUMNS[k].valueType == B.TypeU32
    ensures forall k :: 13 <= k < 19 ==> HEADER_COLUMNS[k].valueType == B.TypeU16
  {
    hide Ascii;
  }

  lemma {:induction false} NumbersThere(t: B.Table, k: nat)
    requires HeaderLike(t) && k < 26 && k != 20 && k != 21
    ensures |HEADER_COLUMNS| == 26 && |t.rows[0]| == 26 && NumberIn(t.rows[0][k]) == Some(Number(t, k))
    ensures k == 12 || k == 19 || k == 22 || k == 23 ==> Number(t, k) <= 0xffff_ffff
    ensures 13 <= k < 19 ==> Number(t, k) <= 0xffff
  {
    ColumnsAre();
    hide HEADER_COLUMNS;
    assert B.TypeOf(t.rows[0][k]) == HEADER_COLUMNS[k].valueType;
  }

  lemma {:induction false} FieldIs(h: P.HighTable, t: B.Table, k: nat, name: string)
    requires Mirrors(h, t) && HeaderLike(t) && k < 26 && k != 20 && k != 21
    requires |HEADER_COLUMNS| == 26 && HEADER_COLUMNS[k].name == Ascii(name)
    ensures R.Get(h, name) == Number(t, k)
    ensures k == 12 || k == 19 || k == 22 || k == 23 ==> Number(t, k) <= 0xffff_ffff
    ensures 13 <= k < 19 ==> Number(t, k) <= 0xffff
  {
    NumbersThere(t, k);
    hide Mirrors, HEADER_COLUMNS, R.Get, Number, NumberIn;
    FieldOfAny(h, t, k, name);
  }

  /** Every field of the metadata is the number in its own column, whatever the numbers are. */
  ghost predicate OffsetsFrom(m: R.Metadata, t: B.Table) {
    && m.updateDateTime == Number(t, 0) && m.fileSize == Number(t, 1) && m.contentOffset == Number(t, 2)
    && m.contentSize == Number(t, 3) && m.tocOffset == Number(t, 4) && m.tocSize == Number(t, 5)
    && m.etocOffset == Number(t, 6) && m.etocSize == Number(t, 7) && m.itocOffset == Number(t, 8)
    && m.itocSize == Number(t, 9) && m.gtocOffset == Number(t, 10) && m.gtocSize == Number(t, 11)
  }

  ghost predicate SettingsFrom(m: R.Metadata, t: B.Table) {
    && m.files == Number(t, 12) && m.version == Number(t, 13) && m.revision == Number(t, 14)
    && m.align == Number(t, 15) && m.sorted == (Number(t, 16) != 0) && m.eid == Number(t, 17)
    && m.enableFileName == (Number(t, 18) != 0) && m.cpkMode == Number(t, 19) && m.codec == Number(t, 22)
    && m.dpkItoc == Number(t, 23) && m.enableTocCrc == (Number(t, 24) != 0) && m.enableFileCrc == (Number(t, 25) != 0)
  }

  lemma {:induction false} OffsetsRead(h: P.HighTable, t: B.Table)
    requires Mirrors(h, t) && HeaderLike(t)
    ensures OffsetsFrom(R.ParseMetadata(h), t)
  {
    hide Mirrors, HeaderLike, R.Get, Ascii, Number;
    FieldIs(h, t, 0, "UpdateDateTime");
    FieldIs(h, t, 1, "FileSize");
    FieldIs(h, t, 2, "ContentOffset");
    FieldIs(h, t, 3, "ContentSize");
    FieldIs(h, t, 4, "TocOffset");
    FieldIs(h, t, 5, "TocSize");
    FieldIs(h, t, 6, "EtocOffset");
    FieldIs(h, t, 7, "EtocSize");
    FieldIs(h, t, 8, "ItocOffset");
    FieldIs(h, t, 9, "ItocSize");
    FieldIs(h, t, 10, "GtocOffset");
    FieldIs(h, t, 11, "GtocSize");
  }

  lemma {:induction false} SettingsRead(h: P.HighTable, t: B.Table)
    requires Mirrors(h, t) && HeaderLike(t)
    ensures SettingsFrom(R.ParseMetadata(h), t)
  {
    hide Mirrors, HeaderLike, R.Get, Ascii, Number;
    FieldIs(h, t, 12, "Files");
    FieldIs(h, t, 13, "Version");
    FieldIs(h, t, 14, "Revision");
    FieldIs(h, t, 15, "Align");
    FieldIs(h, t, 16, "Sorted");
    FieldIs(h, t, 17, "EID");
    FieldIs(h, t, 18, "EnableFileName");
    FieldIs(h, t, 19, "CpkMode");
    FieldIs(h, t, 22, "Codec");
    FieldIs(h, t, 23, "DpkItoc");
    FieldIs(h, t, 24, "EnableTocCrc");
    FieldIs(h, t, 25, "EnableFileCrc");
  }

  // ----- the writer's numbers -----

  /** The metadata a header table reads back as. */
  function MetadataOf(info: HeaderInfo, profile: Profile): R.Metadata {
    R.Metadata(info.archiveSize, info.contentOffset, info.contentSize, info.tocOffset, info.tocSize,
      info.itocOffset, info.itocSize, 0, 0, 0, 0, profile.version, profile.revision, info.alignment, false,
      if profile.mode.HasItoc() && profile.directItoc then 1 else 0, info.fileCount, profile.mode.CpkMode(),
      profile.mode.HasToc(), profile.updateDateTime, 0, 0, false, false)
  }

  lemma {:induction false} HeaderCellsTyped(h: HeaderInfo, p: Profile)
    ensures |HeaderRow(h, p)| == |HEADER_COLUMNS| == 26
    ensures forall j :: 0 <= j < 13 ==> B.TypeOf(HeaderRow(h, p)[j]) == HEADER_COLUMNS[j].valueType
  {
    hide Ascii;
  }

  lemma {:induction false} MoreHeaderCellsTyped(h: HeaderInfo, p: Profile)
    ensures |HeaderRow(h, p)| == |HEADER_COLUMNS| == 26
    ensures forall j :: 13 <= j < 26 ==> B.TypeOf(HeaderRow(h, p)[j]) == HEADER_COLUMNS[j].valueType
  {
    hide Ascii;
  }

  lemma {:induction false} HeaderRowTyped(h: HeaderInfo, p: Profile)
    ensures B.Typed(HeaderRow(h, p), HEADER_COLUMNS)
  {
    hide HeaderRow, HEADER_COLUMNS;
    HeaderCellsTyped(h, p);
    MoreHeaderCellsTyped(h, p);
  }

  lemma {:induction false} HeaderTableLike(info: HeaderInfo, profile: Profile)
    ensures HeaderLike(HeaderTable(info, profile))
  {
    HeaderTableShape(info, profile);
    hide HeaderTable, HeaderRow, HEADER_COLUMNS;
    HeaderRowTyped(info, profile);
  }

  lemma {:induction false} OffsetsStored(m: R.Metadata, info: HeaderInfo, profile: Profile)
    requires OffsetsFrom(m, HeaderTable(info, profile))
    ensures m.updateDateTime == profile.updateDateTime && m.fileSize == info.archiveSize
    ensures m.contentOffset == info.contentOffset && m.contentSize == info.contentSize
    ensures m.tocOffset == info.tocOffset && m.tocSize == info.tocSize && m.etocOffset == 0 && m.etocSize == 0
    ensures m.itocOffset == info.itocOffset && m.itocSize == info.itocSize && m.gtocOffset == 0 && m.gtocSize == 0
  {
    HeaderTableShape(info, profile);
    hide HeaderTable, HEADER_COLUMNS;
  }

  lemma {:induction false} SettingsStored(m: R.Metadata, info: HeaderInfo, profile: Profile)
    requires SettingsFrom(m, HeaderTable(info, profile))
    ensures m.files == info.fileCount && m.version == profile.version && m.revision == profile.revision
    ensures m.align == info.alignment && !m.sorted
    ensures m.eid == (if profile.mode.HasItoc() && profile.directItoc then 1 else 0)
    ensures m.enableFileName == profile.mode.HasToc() && m.cpkMode == profile.mode.CpkMode()
    ensures m.codec == 0 && m.dpkItoc == 0 && !m.enableTocCrc && !m.enableFileCrc
  {
    HeaderTableShape(info, profile);
    hide HeaderTable, HEADER_COLUMNS;
  }

  /** Every header field the writer stored is the one the reader's metadata holds. */
  lemma {:induction false} MetadataReadBack(h: P.HighTable, info: HeaderInfo, profile: Profile)
    requires Mirrors(h, HeaderTable(info, profile))
    ensures R.ParseMetadata(h) == MetadataOf(info, profile)
  {
    hide Mirrors, HeaderTable, R.ParseMetadata, HeaderLike, OffsetsFrom, SettingsFrom;
    var t, m := HeaderTable(info, profile), R.ParseMetadata(h);
    HeaderTableLike(info, profile);
    OffsetsRead(h, t);
    OffsetsStored(m, info, profile);
    SettingsRead(h, t);
    SettingsStored(m, info, profile);
  }
}
