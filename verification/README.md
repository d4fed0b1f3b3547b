# A verified model of the CRI CPK archive library

A CPK archive holds files behind one or two index tables: a TOC with names, an ITOC with 16-bit
IDs only. This project models the library that writes and reads such archives, from the bits of a
compressed file up to the whole archive, and proves that the two sides agree.

- **CriLAYLA** (`LaylaCursor`, `LaylaFormat`, `LaylaDecompress`, `LaylaFile`): the backward bit
  cursor with its five unrolled readers, the length ladder, the unrolled overlapping copy and the
  in-place decoder. The library has no compressor; `LaylaFormat` has a specification encoder and a
  byte-at-a-time meaning for tokens, written from the format text.
- **Slab allocator** (`FreeListSpec`, `FreeList`): the 256-block bitmap, its byte-wise range
  operations, the strided search, and what every run of allocations and releases keeps.
- **`@UTF` tables** (`UtfBuild`, `UtfBuilder`, `UtfParse`, `UtfParser`, `AcceptedTables`,
  `UtfRoundTrip`, `UtfLimits`, `TableLimit`): the serialiser with its interned strings and data
  pool, the parser, which buffers it accepts and what they mean, the round trip and its exact limit.
- **Archives** (`Layout`, `Sorting`, `WriterSpec`, `WriterPlan`, `Emission`, `Writer`,
  `WriterFacts`, `ReaderSpec`, `Reader`, `ReaderFacts`, `Lookup`, `HeaderLookup`, `IndexRoundTrip`,
  `ItocRoundTrip`, `ArchiveRoundTrip`, `WholeArchive`, `ArchiveHeader`, `TocLimit`, `Success`,
  `OverlongToc`): the two-pass layout plan, the emitted bytes, the reader, the whole-archive round
  trip in all three index modes with standard and direct ITOC, its exact limit, inputs on which
  writing cannot fail, and what both sides make of any input, in the format's own numbers.
- **Payload transform, extraction and raw reuse** (`P5R`, `Extraction`, `Reuse`).
- **Manifest** (`Text`, `Manifest`, `ManifestFacts`, `Utf8`, `BuildInputs`): its text, reading it
  back, exactly which texts are manifests, and the inputs and IDs of a rebuilt archive.

Where the source updates things in place the model has classes, arrays and loops (`Cursor`,
`FreeList`, `Interner`, `OutStream`, `CpkReader` and the methods around them); each is proved equal
to a function, and the theorems are about those functions. Automatic induction is off in every
lemma. `dafny verify dfyconfig.toml` checks everything.

Bytes, words and offsets are integers with explicit bounds; shifts, masks and truncations of 8-,
32- and 64-bit words are written out. A string is the byte sequence of its UTF-8 form.

Where the code behaves differently from what one might expect, the model follows the code:

- The window search looks at the first 64 blocks of a request only, so longer requests can be
  handed blocks that are in use (`FreeListSpec.LongRequestOverlaps`, `AllocationSafeIff`).
- The reader's `+8` on pool offsets saturates, so a table whose data pool starts above 0xffffffff
  is accepted by the builder, and read back only if everything looked up lies before the cut
  (`TableLimit.ReadsBackIff`, `TocLimit.TocReadsBackIff`, `OverlongToc.FarFileIsLost`).
- A zero extract size reads back as the packed size; a text reads back up to its first NUL
  (`WholeArchive.ReportsExactly`).
- An input without a file name makes an archive whose TOC the reader refuses
  (`WholeArchive.ArchiveReadsBack`).
- An ITOC-only archive forgets names and user strings, so an encrypted file stays encrypted
  (`Extraction.LockedInItoc`, `LostInItoc`).
- The scalar form of the P5R transform is compiled out away from x86_64: marked files then pass
  unchanged there, and a file encrypted on another machine stays encrypted (`P5R.DecryptInPlace`,
  `Extraction.PackThenExtract`).
- A retained ID of 0xffffffff makes ID assignment fail even when there is no new file
  (`BuildInputs.LastIdBlocks`).

## Model

| member | source | states |
|---|---|---|
| WholeArchive.ArchiveReadsBack | cri-archive-lib/src/cpk/reader.rs:115-152 | Whole-archive round trip: wherever a written archive lies in a stream and whatever surrounds it, in every index mode (TOC-only: with a TOC table of at most 0xffffffff bytes), `get_files` reports every input exactly once with ID, sizes and offset (and names where there is a TOC), `read_packed_file` on each entry returns exactly the payload written; in TOC modes it fails, with the missing-name error, precisely when some input has no name |
| WholeArchive.ReportsExactly | cri-archive-lib/src/cpk/file.rs:56-82 | Directory, name and user string equal the input's exactly when NUL-free; the extract size exactly when it is nonzero or the file is empty, and a zero one is reported as the packed size |
| WholeArchive.IndexesAgree | cri-archive-lib/src/cpk/reader.rs:176-293 | With both indexes, the TOC row and the ITOC row of one input have the same absolute offset, ID and size |
| WholeArchive.TwoTableOffsets | cri-archive-lib/src/cpk/writer.rs:295-304 | The planned offset of a file is the content offset plus the aligned sizes of the DataL rows below its ID plus those of the DataH rows below it |
| TocLimit.TocReadsBackIff | cri-archive-lib/src/schema/header.rs:68-74 | For TOC-only archives of named, NUL-free inputs, the whole listing and all payloads read back exactly when the TOC table is at most 0xffffffff bytes long |
| OverlongToc.FarFileIsLost | cri-archive-lib/src/cpk/writer.rs:613-636 | An empty file named "a" in a directory of 0xffffff4f bytes is written to a TOC-only archive and not read back |
| OverlongToc.FarTable | cri-archive-lib/src/cpk/writer.rs:935-961 | Its TOC table is accepted and exactly 0x100000000 bytes long |
| TocLimit.LostText | cri-archive-lib/src/schema/strings.rs:78-98 | In a longer TOC that still parses, the text of some cell is beyond the cut and not found |
| Success.WriterSucceeds | cri-archive-lib/src/cpk/writer.rs:233-411 | The writer succeeds on every input of up to 2^24 files with 256 MB of names, short header texts, valid IDs and readable payloads |
| Success.WriteThenRead | cri-archive-lib/src/cpk/reader.rs:115-152 | For every such input, named where there is a TOC, the archive is written, every file is listed once and every payload reads back, with no condition on the archive |
| Success.HeaderBuilt | cri-archive-lib/src/cpk/writer.rs:540-611 | The header fits before 0x800 whenever its two texts are at most 0x400 bytes together |
| Success.ItocBuilt | cri-archive-lib/src/cpk/writer.rs:638-675 | Every ITOC of 16-bit IDs, standard or direct, can be built |
| WholeArchive.TocListing | cri-archive-lib/src/cpk/reader.rs:176-245 | In TOC modes the listing is the inputs in input order at the plan's offsets, or the missing-name error |
| WholeArchive.ItocListing | cri-archive-lib/src/cpk/reader.rs:247-293 | In ITOC modes the ITOC lists the inputs in ascending ID order at the plan's offsets |
| WholeArchive.MetadataReads | cri-archive-lib/src/cpk/reader.rs:296-324 | The header of an emitted archive gives the reader the plan's offsets, alignment and ITOC form |
| ArchiveHeader.HeaderDescribes | cri-archive-lib/src/cpk/writer.rs:304-375 | The header of every written archive describes it: FileSize is its length, ContentSize the rest after ContentOffset, TocSize and ItocSize the lengths of the chunks that lie at TocOffset and ItocOffset (zero when absent), Files the number of inputs; version, revision, time, mode and alignment are those given; the header chunk and the marker lie at 0 and 0x7fa, and chunks carry four 0xff bytes |
| ArchiveHeader.HeaderTexts | cri-archive-lib/src/cpk/writer.rs:603-604 | The version text and the comment stand in the header table under Tvers and Comment |
| WholeArchive.PayloadReads | cri-archive-lib/src/cpk/reader.rs:138-152 | Reading an entry with a planned offset and size returns that payload |
| Extraction.PackThenExtract | cri-archive-lib/src/cpk/reader.rs:154-168 | For every index mode, any two machines and any decryptor: a file packed from disk that does not begin with the compression magic is extracted as it was exactly when both sides transform it or neither does, or the transform leaves it alone |
| Extraction.ExpandedFromPacked | cri-archive-lib/src/cpk/reader.rs:154-168 | A well-formed compressed file under the same condition is extracted as its expansion |
| Extraction.UnlockedIff | cri-archive-lib/src/cpk/writer.rs:769-776 | The transform applied when packing is undone when extracting under exactly that condition |
| Extraction.MagicKept | cri-archive-lib/src/cpk/encrypt/p5r.rs:33-48 | The transform leaves the compression magic alone |
| Extraction.LockedInItoc | cri-archive-lib/src/cpk/reader.rs:393-403 | From an ITOC alone a file comes back exactly when it was not marked, packing did not transform it, it is shorter than 0x820 bytes or holds only zeros in [0x420, 0x820) |
| Extraction.LostInItoc | cri-archive-lib/src/cpk/reader.rs:393-403 | A marked file of 0x820 ones is written to an ITOC-only archive, listed, and given back by no decryptor on any machine |
| Reuse.RawReuse | cri-cpk-cli/src/manifest.rs:250-276 | An unchanged entry reused raw is listed in the rebuilt archive under the same names with the same ID and packed size, has the packed bytes it had in the source, and every reader unlocks and extracts it as before |
| Reuse.ListedTexts | cri-archive-lib/src/cpk/reader.rs:202-243 | Whatever the archive, no listed text holds a NUL; without a TOC there is no directory or user string and the name is the one made from the ID |
| ArchiveRoundTrip.HeaderReads | cri-archive-lib/src/cpk/reader.rs:115-127 | The header chunk reads back as the recorded sizes, offsets, counts and flags |
| ArchiveRoundTrip.TocReads | cri-archive-lib/src/cpk/reader.rs:176-245 | A TOC chunk anywhere in the stream reads back as one entry per input, or the missing-name error if one has no name |
| ArchiveRoundTrip.ItocRowsPermuted | cri-archive-lib/src/cpk/reader.rs:267-280 | Both ITOC forms yield the physical order's rows, permuted |
| ArchiveRoundTrip.ItocReads | cri-archive-lib/src/cpk/reader.rs:247-293 | An ITOC chunk reads back as every input once, by ascending ID, at the writer's cumulative offsets |
| ItocRoundTrip.ItocRowsRead | cri-archive-lib/src/cpk/reader.rs:349-380 | Every ITOC row, 16- or 32-bit wide, is collected as the ID and sizes that were written |
| ItocRoundTrip.GroupsPermute | cri-archive-lib/src/cpk/writer.rs:650-660 | DataL followed by DataH is a permutation of the physical order |
| WriterFacts.GroupMembers | cri-archive-lib/src/cpk/writer.rs:650-660 | DataL takes exactly the files whose packed and extracted sizes are at most 0xffff, DataH the others |
| ItocRoundTrip.SortingMerges | cri-archive-lib/src/cpk/reader.rs:288-291 | Sorting any permutation of the rows by ID gives back the physical order, with no duplicate IDs next to each other |
| ItocRoundTrip.TwoTableLookup | cri-archive-lib/src/cpk/reader.rs:282-287 | For every ID, content offset plus both tables' aligned sizes below it equals the payload start of the merged layout |
| ItocRoundTrip.MaterializeReads | cri-archive-lib/src/cpk/reader.rs:382-412 | The reader's running relative offset, with remainder rounding, is the writer's payload start for every entry |
| IndexRoundTrip.ChunkReads | cri-archive-lib/src/cpk/header.rs:62-114 | A chunk anywhere in a stream is read as its kind and exactly its table |
| IndexRoundTrip.SealedChunkReads | cri-archive-lib/src/cpk/header.rs:100-112 | A chunk with a zero mark and an encrypted table is read as its kind and the plain table |
| ReaderFacts.ContainerIff | cri-archive-lib/src/cpk/header.rs:62-114 | Exactly these containers are read: four letters that tell the kind, a mark that is zero when the table is sealed, the table's length, at least 0x20 and for a header at most 0x7f0, the table inside the stream and beginning "@UTF" |
| ReaderFacts.WrongKindRefused | cri-archive-lib/src/cpk/reader.rs:117-124 | A chunk of another kind and a header without rows are refused |
| ReaderFacts.IndexChoice | cri-archive-lib/src/cpk/reader.rs:129-135 | The TOC is read when there is one, the ITOC only without it; neither, and a content offset of zero or beyond 32 bits for an ITOC, are refused with their errors |
| ReaderFacts.FieldOrZero | cri-archive-lib/src/cpk/reader.rs:296-324 | A header field that is missing, not a number or too wide reads as zero |
| ReaderFacts.TocColumnsNamed | cri-archive-lib/src/cpk/reader.rs:186-196 | The columns of any TOC are the first of their names; without FileName, FileSize or FileOffset it is refused |
| ReaderFacts.TocFileMeans | cri-archive-lib/src/cpk/reader.rs:202-243 | A row of any TOC as an entry: offsets count from 0x800, missing texts are empty |
| ReaderFacts.TocFileNumbers | cri-archive-lib/src/cpk/reader.rs:212-228 | A missing or zero extract size stands for the packed size; IDs and checksums are there exactly when a number that fits is |
| ReaderFacts.TocFileRefused | cri-archive-lib/src/cpk/reader.rs:204-230 | A refused row lacks what its error says: the name, the size, the offset, or 32 bits for a size |
| ReaderFacts.ItocRowMeans | cri-archive-lib/src/cpk/reader.rs:349-380 | A row of any ITOC table: columns by name or by place, a missing extract size is the packed size |
| ReaderFacts.ItocRowRefused | cri-archive-lib/src/cpk/reader.rs:360-368 | A refused row lacks a 32-bit ID or size, as its error says |
| ReaderFacts.EmptyDataMissing | cri-archive-lib/src/cpk/reader.rs:271-277 | An empty data cell counts as missing, so both nested tables must have bytes |
| ReaderFacts.ListedIdsAscend | cri-archive-lib/src/cpk/reader.rs:288-292 | Whatever the archive, the IDs of a listing from an ITOC ascend strictly |
| ReaderFacts.MaterializedOffsets | cri-archive-lib/src/cpk/reader.rs:382-412 | For any rows, an entry lies at the sum of the aligned sizes before it |
| ReaderFacts.ZeroAlignment | cri-archive-lib/src/cpk/reader.rs:264-264 | A header alignment of zero is an alignment of one |
| ReaderFacts.FallbackName | cri-archive-lib/src/cpk/reader.rs:393-393 | The name of an entry without one is its ID in at least five decimal digits and ".bin" |
| ReaderFacts.ReadPackedIff | cri-archive-lib/src/cpk/reader.rs:138-152 | Packed bytes are read exactly when their range lies inside the stream and within 64 bits, and are that range |
| IndexRoundTrip.TocColumnsFound | cri-archive-lib/src/cpk/reader.rs:186-196 | All seven TOC columns are found by name at their places, and no checksum column |
| IndexRoundTrip.TocRowsRead | cri-archive-lib/src/cpk/reader.rs:202-243 | The first n TOC rows read back as their inputs if all have names, otherwise as the missing-name error |
| HeaderLookup.FieldOfAny | cri-archive-lib/src/cpk/header.rs:199-222 | In any table with the header's columns each numeric column is found under its own name among the 26 and holds its own value |
| HeaderLookup.OffsetsRead | cri-archive-lib/src/cpk/reader.rs:296-309 | Whatever 64-bit numbers a header table holds, each offset and size of the metadata is the number in its own column, ETOC and GTOC included |
| HeaderLookup.SettingsRead | cri-archive-lib/src/cpk/reader.rs:310-324 | Likewise the counts, versions and flags; a flag is set when its number is not zero |
| HeaderLookup.MetadataReadBack | cri-archive-lib/src/cpk/reader.rs:296-324 | Every metadata field is the one the writer stored |
| Lookup.FoundColumn | cri-archive-lib/src/cpk/header.rs:199-203 | Looking up a column's name finds the first column of that name |
| Lookup.StringCell | cri-archive-lib/src/cpk/reader.rs:326-335 | A string cell reads as absent when the text was empty, otherwise as the text up to its first NUL |
| Lookup.DataCell | cri-archive-lib/src/cpk/header.rs:224-236 | A non-empty data cell is returned whole under its column's name |
| Layout.MaskRoundsUp | cri-archive-lib/src/cpk/writer.rs:795-801 | For every power-of-two alignment the mask form rounds up to the least multiple, and overflows exactly when value plus mask does |
| Layout.RemainderRoundsUp | cri-archive-lib/src/cpk/reader.rs:414-422 | The remainder form rounds up to the same multiple for every alignment |
| Layout.CursorStep | cri-archive-lib/src/cpk/writer.rs:297-303 | Rounding the absolute end of a payload gives the next payload's start |
| Layout.StartShift | cri-archive-lib/src/cpk/reader.rs:387-411 | Absolute and relative cursors give the same offsets for every size list |
| Layout.StartsOrdered | cri-archive-lib/src/cpk/writer.rs:295-303 | Payload ranges follow one another without overlap |
| Sorting.SortSorts | cri-archive-lib/src/cpk/writer.rs:535-536 | Sorting by key is sorted and a permutation |
| Sorting.SortedUnique | cri-archive-lib/src/cpk/reader.rs:288-288 | With distinct keys there is only one sorted permutation |
| WriterSpec.OrderFacts | cri-archive-lib/src/cpk/writer.rs:512-537 | The physical order lists every input once; with an ITOC it is strictly ascending in 16-bit IDs |
| WriterSpec.IndexFacts | cri-archive-lib/src/cpk/writer.rs:260-293 | Index chunks lie one after the other between 0x800 and the aligned content, below 32 bits with an ITOC |
| WriterPlan.SameSize | cri-archive-lib/src/cpk/writer.rs:873-1020 | Tables differing only in 64-bit numbers are accepted together and equally long |
| WriterPlan.ProbeAgrees | cri-archive-lib/src/cpk/writer.rs:309-331 | Filling in the offsets neither fails nor changes the length of a probed TOC |
| WriterPlan.PlanFacts | cri-archive-lib/src/cpk/writer.rs:239-354 | Every successful plan is aligned, ordered and disjoint, and its tables are built from its own offsets |
| WriterFacts.PlanPacked | cri-archive-lib/src/cpk/writer.rs:260-285 | The TOC lies at 0x800, the ITOC on the next multiple of the alignment after it (at 0x800 alone), the content on the next after the last chunk |
| WriterFacts.AlignmentIff | cri-archive-lib/src/cpk/writer.rs:504-510 | Exactly the sixteen powers of two from 1 to 0x8000 are alignments |
| WriterFacts.Refusals | cri-archive-lib/src/cpk/writer.rs:239-247 | Bad alignment, no input, too many inputs and bad IDs are refused in this order, each with its error |
| WriterFacts.FirstOffender | cri-archive-lib/src/cpk/writer.rs:520-528 | The ID check passes exactly when every ID is a 16-bit number not used before, and otherwise names the first input that is not |
| WriterFacts.TableTitled | cri-archive-lib/src/cpk/writer.rs:962-992 | Every built table carries the UTF-8 mark and, at the pool offset stored at 0x14, its NUL-terminated name |
| WriterFacts.TablesTitled | cri-archive-lib/src/cpk/writer.rs:610-644 | The header, TOC and ITOC tables are named CpkHeader, CpkTocInfo and CpkItocInfo or CpkExtendId |
| WriterFacts.ItocTitled | cri-archive-lib/src/cpk/writer.rs:638-675 | The two nested tables are named CpkItocL and CpkItocH |
| Emission.HeadFacts | cri-archive-lib/src/cpk/writer.rs:356-375 | The head ends exactly at the content offset, with the header at 0, the marker before 0x800 and each index chunk at its offset |
| Emission.EmittedLength | cri-archive-lib/src/cpk/writer.rs:377-398 | The output never passes the next payload's offset and ends with the payload last written |
| Emission.PayloadPlaced | cri-archive-lib/src/cpk/writer.rs:377-398 | Every payload lies at its planned offset in the finished archive |
| Emission.ArchiveShape | cri-archive-lib/src/cpk/writer.rs:399-402 | The archive is exactly as long as planned and starts with the head |
| Emission.PayloadRange | cri-archive-lib/src/cpk/writer.rs:295-304 | Every payload range is aligned, after all index chunks and inside the archive |
| Emission.PayloadRanges | cri-archive-lib/src/cpk/writer.rs:295-304 | Payload ranges are pairwise disjoint, in plan order |
| WriterFacts.PayloadIs | cri-archive-lib/src/cpk/writer.rs:746-783 | What is written for an input: the file, transformed when it is marked and the option is set, or the range of the archive; a wrong length or range is refused with its error |
| WriterFacts.PaddingIsZero | cri-archive-lib/src/cpk/writer.rs:356-402 | Every byte of an archive outside the header chunk, the marker, the index chunks and the payloads is zero |
| Writer.BuildPhysicalOrder | cri-archive-lib/src/cpk/writer.rs:512-537 | The used-ID loop reports the first ID out of range or repeated, otherwise the sorted order |
| Writer.BuildTocTable | cri-archive-lib/src/cpk/writer.rs:613-636 | Row by row, the bytes of the TOC table |
| Writer.BuildItocRows | cri-archive-lib/src/cpk/writer.rs:677-718 | Row by row, the bytes of one ITOC table; fails if an ID or size is too wide for its column |
| Writer.SplitByWidth | cri-archive-lib/src/cpk/writer.rs:650-660 | The loop splits the order into the two width groups |
| Writer.BuildItocTable | cri-archive-lib/src/cpk/writer.rs:638-675 | The bytes of a direct ITOC, or of one holding two nested tables |
| Writer.PlanIndex | cri-archive-lib/src/cpk/writer.rs:247-293 | The metadata cursor step by step gives the planned index |
| Writer.PlaceFiles | cri-archive-lib/src/cpk/writer.rs:295-303 | The payload cursor gives every file its offset, and fails exactly when some step exceeds 64 bits |
| Writer.FinishTables | cri-archive-lib/src/cpk/writer.rs:309-331 | The second pass gives the plan; its length guard never fires |
| Writer.PlanArchive | cri-archive-lib/src/cpk/writer.rs:239-354 | All checks in order, then the whole plan |
| Writer.OutStream.WriteZeros | cri-archive-lib/src/cpk/writer.rs:785-793 | Blocks of up to 0x2000 zeros add exactly the requested count |
| Writer.OutStream.WriteAt | cri-archive-lib/src/cpk/writer.rs:736-744 | Zero padding then the bytes when the offset is ahead, an overwrite when it is behind |
| Writer.EmitHead | cri-archive-lib/src/cpk/writer.rs:356-375 | The output holds the head; no chunk is written over another, so the seek back never happens |
| Writer.ReadPayload | cri-archive-lib/src/cpk/writer.rs:746-783 | The packed bytes of an input: an archive range, or a file, transformed if marked |
| Writer.EmitPayloads | cri-archive-lib/src/cpk/writer.rs:377-402 | All payloads at their offsets, or the first failure; the guard on the position never fires |
| Writer.WriteWithProfile | cri-archive-lib/src/cpk/writer.rs:233-411 | The output starts with exactly the archive, keeps what it held beyond, and its position is the planned archive size; every error is the specified one |
| ReaderSpec.TableCipherInvolution | cri-archive-lib/src/cpk/header.rs:120-126 | The table cipher undoes itself |
| ReaderSpec.TableCipherBits | cri-archive-lib/src/cpk/header.rs:120-126 | The cipher flips exactly the bits where the key byte has ones |
| ReaderFacts.KeyIsPower | cri-archive-lib/src/cpk/header.rs:121-124 | Key byte i is 0x5f times 21 to the i, modulo 256 |
| ReaderSpec.SealedMagic | cri-archive-lib/src/cpk/header.rs:102-112 | A sealed table begins 1f 9e f3 f5, which the cipher turns into "@UTF" |
| Reader.DecryptUtfScalar | cri-archive-lib/src/cpk/header.rs:120-126 | The in-place loop with the running key is the table cipher |
| Reader.CpkReader.NewContainer | cri-archive-lib/src/cpk/header.rs:62-114 | A chunk's kind and decrypted table, or nothing when any check fails |
| Reader.CpkReader.ReadTocEntries | cri-archive-lib/src/cpk/reader.rs:176-245 | The entries of the TOC the metadata points to |
| Reader.CpkReader.ReadItocRows | cri-archive-lib/src/cpk/reader.rs:267-280 | Rows of a direct ITOC, or of both nested tables, which must be present and parse |
| Reader.CollectItocRows | cri-archive-lib/src/cpk/reader.rs:349-380 | Appends a table's rows, or stops at the first bad one |
| Reader.MaterializeItocRows | cri-archive-lib/src/cpk/reader.rs:382-412 | The loop gives each row its cumulative offset, or fails on overflow |
| Reader.CpkReader.ReadItocEntries | cri-archive-lib/src/cpk/reader.rs:247-293 | Rows sorted by ID, duplicates refused, offsets accumulated |
| Reader.CpkReader.ListFiles | cri-archive-lib/src/cpk/reader.rs:115-136 | The listing of the archive at the start position; the metadata is kept once the header was read |
| Reader.CpkReader.ReadPackedFile | cri-archive-lib/src/cpk/reader.rs:138-152 | The entry's packed bytes, or the error when nothing was listed, the offset overflows or the stream is short |
| Reader.CpkReader.ExtractFileWithPacked | cri-archive-lib/src/cpk/reader.rs:154-168 | The packed bytes and the file they hold, unlocked and expanded; the slab is empty again afterwards |
| UtfBuild.InternKeeps | cri-archive-lib/src/cpk/writer.rs:1023-1036 | Interning keeps every earlier offset; each string sits NUL-terminated at its own, and zero is the empty string alone |
| UtfBuild.PoolCovers | cri-archive-lib/src/cpk/writer.rs:896-918 | The table name, every column name and every string cell are in the pool |
| UtfBuild.CellInRow | cri-archive-lib/src/cpk/writer.rs:993-1015 | Cell j of a row starts at the width of the columns before it |
| UtfBuild.DataInRows | cri-archive-lib/src/cpk/writer.rs:920-933 | A row's data follows that of the rows before it |
| UtfBuild.TableLength | cri-archive-lib/src/cpk/writer.rs:935-961 | The serialised table is as long as its header says |
| UtfBuilder.Interner.InternString | cri-archive-lib/src/cpk/writer.rs:1023-1036 | Returns the offset of a string, adding it if new; fails exactly when a new one would start beyond 32 bits |
| UtfBuilder.GatherData | cri-archive-lib/src/cpk/writer.rs:920-933 | The data pool, and where each cell's data lies in it |
| UtfBuilder.EmitRows | cri-archive-lib/src/cpk/writer.rs:993-1015 | The row section, cell by cell |
| UtfBuilder.BuildTable | cri-archive-lib/src/cpk/writer.rs:873-1020 | Exactly the table's bytes, refusing exactly the tables whose counts or sizes do not fit |
| UtfParse.AcceptedCells | cri-archive-lib/src/schema/rows.rs:67-111 | In every buffer the parser accepts, a stored cell is decoded from its own bytes, which lie inside its row before the string pool; any other cell is its column's default |
| AcceptedTables.TableIff | cri-archive-lib/src/cpk/header.rs:138-191 | Exactly which buffers are tables: magic, size, sections in order through the saturating offsets, columns that end before the rows and are no wider, known types if there are rows, a pool that is empty or ends with a NUL |
| AcceptedTables.AcceptedColumns | cri-archive-lib/src/schema/columns.rs:111-144 | Every column of an accepted table is the one its record holds: flag, name offset and default lie one after the other, the records from 0x20 on and before the rows |
| AcceptedTables.DefaultNumber | cri-archive-lib/src/schema/columns.rs:126-139 | A column not stored per row has in every row the number whose bytes stand after its flag and name |
| AcceptedTables.NamedDefault | cri-archive-lib/src/schema/columns.rs:115-141 | A record with name and default is read as its flag, name offset and the value of its field, and ends after the field |
| AcceptedTables.UnnamedDefault | cri-archive-lib/src/schema/columns.rs:119-139 | Likewise a record without a name, whose name offset is 0xffffffff |
| AcceptedTables.FlagBits | cri-archive-lib/src/schema/columns.rs:11-18 | Name, default and row storage are bits 4, 5 and 6 of the flag |
| AcceptedTables.TypeNumbers | cri-archive-lib/src/schema/columns.rs:20-80 | The low four bits number the thirteen types; the other three numbers are invalid |
| AcceptedTables.ValueStored | cri-archive-lib/src/schema/rows.rs:113-139 | Decoding a cell of any type gives a value of that type, in range, whose stored form is the field |
| AcceptedTables.NumberStored | cri-archive-lib/src/cpk/header.rs:239-251 | An unsigned cell is the big-endian number of its bytes, a signed one when its top bit is clear, and no other cell is a number |
| UtfParser.FindNul | cri-archive-lib/src/schema/strings.rs:83-85 | The first NUL, or none |
| UtfParser.ParsePool | cri-archive-lib/src/schema/strings.rs:78-98 | The offset loop finds exactly the strings that start after a NUL, and fails exactly on an unterminated pool |
| UtfParser.ReadColumnList | cri-archive-lib/src/schema/columns.rs:111-144 | Column records in order, or a failure |
| UtfParser.CreateRow | cri-archive-lib/src/schema/rows.rs:90-111 | The cells of a row, failing exactly when some column type is unsupported |
| UtfParser.NewHighTable | cri-archive-lib/src/cpk/header.rs:138-191 | The parsed table, or nothing when any check fails |
| UtfRoundTrip.HeaderReadBack | cri-archive-lib/src/schema/header.rs:56-87 | The ten header fields as the reader sees them, pool offsets through a saturating add |
| UtfRoundTrip.PoolReadsBack | cri-archive-lib/src/schema/strings.rs:78-98 | Every interned string is found at its offset, cut at its first NUL |
| UtfRoundTrip.WholeIffNulFree | cri-archive-lib/src/schema/strings.rs:84-86 | A string reads back whole exactly when it holds no NUL |
| UtfRoundTrip.CellParses | cri-archive-lib/src/schema/rows.rs:90-139 | Every cell of an accepted table whose bytes parse is read as the value written, saturated offsets or not |
| UtfRoundTrip.TableRoundTrip | cri-archive-lib/src/cpk/header.rs:138-236 | Every accepted table whose pools start within 32 bits parses back whatever follows it, with the same column names, numbers, texts and data |
| TableLimit.ReadsBackIff | cri-archive-lib/src/schema/header.rs:68-74 | Every accepted table reads back, with its columns, numbers, texts and data, exactly when the data pool starts at or below 0xffffffff or everything looked up lies before the cut the saturated offset makes |
| TableLimit.FoundIff | cri-archive-lib/src/schema/strings.rs:78-98 | In a cut pool that still parses, a string is found exactly when it starts before the cut, and then up to its first NUL |
| TableLimit.ParsesBeyond | cri-archive-lib/src/cpk/header.rs:138-191 | A table past the limit still parses when its rows end within 32 bits and the cut falls between two strings |
| TableLimit.PlainReadsBeyond | cri-archive-lib/src/cpk/header.rs:199-203 | A table past the limit that reads back all the same: only its own name is cut off |
| UtfLimits.TextsReadIff | cri-archive-lib/src/schema/header.rs:68-74 | For NUL-free texts, all of them, the table's own name included, are in the parsed pool exactly when the data pool starts at or below 0xffffffff |
| BitStream.TakeConcat | cri-archive-lib/src/cpk/compress/layla.rs:92-203 | Reading m and then n bits is reading m+n bits, so any interleaving of readers agrees |
| LaylaCursor.Cursor.Read1 | cri-archive-lib/src/cpk/compress/layla.rs:92-101 | The next bit; one consumed |
| LaylaCursor.Cursor.Read2 | cri-archive-lib/src/cpk/compress/layla.rs:169-184 | The next 2 bits of the same stream; exactly 2 consumed |
| LaylaCursor.Cursor.Read8 | cri-archive-lib/src/cpk/compress/layla.rs:156-165 | The next 8 bits; exactly 8 consumed |
| LaylaCursor.Cursor.Read13 | cri-archive-lib/src/cpk/compress/layla.rs:103-130 | The next 13 bits over two or three bytes; exactly 13 consumed |
| LaylaCursor.Cursor.ReadMax8 | cri-archive-lib/src/cpk/compress/layla.rs:186-203 | The next 1 to 7 bits; exactly that many consumed |
| LaylaFormat.LengthRoundTrip | cri-archive-lib/src/cpk/compress/layla.rs:239-257 | Any length from 3 up, encoded in front of any bits, decodes to itself and consumes exactly its code |
| LaylaFormat.LengthConsumed | cri-archive-lib/src/cpk/compress/layla.rs:239-257 | Whatever the ladder consumed is the code of the length it returned: the code is a bijection |
| LaylaFormat.TokenConsumed | cri-archive-lib/src/cpk/compress/layla.rs:236-257 | Whatever a token read consumed is that token's own code |
| LaylaFormat.ShortCopyBits | cri-archive-lib/src/cpk/compress/layla.rs:236-243 | Flag 1, 13 bits f and 2 bits l below 3 are a copy from f + 3 of length l + 3, in 16 bits |
| LaylaFormat.SecondLevel | cri-archive-lib/src/cpk/compress/layla.rs:239-246 | Lengths 6 to 12 are 11 and three bits counting from 6 |
| LaylaFormat.ThirdLevel | cri-archive-lib/src/cpk/compress/layla.rs:246-249 | Lengths 13 to 43 are 11 111 and five bits counting from 13 |
| LaylaFormat.LastLevel | cri-archive-lib/src/cpk/compress/layla.rs:249-255 | Lengths from 44 are ten ones, one full byte for every 255 above, and the remaining byte |
| LaylaFormat.LevelStarts | cri-archive-lib/src/cpk/compress/layla.rs:35-44 | The codes of 3, 6, 13 and 44, bit by bit |
| LaylaFormat.CopyExample | cri-archive-lib/src/cpk/compress/layla.rs:236-303 | Four literals, a copy of 3 from 3 and a literal mean 9, 4, 3, 2, 4, 3, 2, 1 |
| LaylaFormat.ExampleExpands | cri-archive-lib/src/cpk/compress/layla.rs:236-305 | Literals 1, 2, 3, 4, the copy of 16 bits with zeros, and literal 9 expand to 9, 4, 3, 2, 4, 3, 2, 1 |
| LaylaFormat.ExpandEncoded | cri-archive-lib/src/cpk/compress/layla.rs:224-305 | Encoding any well-formed token sequence and expanding it gives the tokens' meaning, whatever bits follow |
| LaylaFormat.ExpandedIsEncoded | cri-archive-lib/src/cpk/compress/layla.rs:224-305 | Every bit string that expands begins with the code of a well-formed token sequence with that meaning |
| LaylaFormat.CopyByRepetition | cri-archive-lib/src/cpk/compress/layla.rs:269-296 | A buffer that repeats itself at a distance is the byte-by-byte copy, self-overlap included |
| LaylaFormat.PackReadsBack | cri-archive-lib/src/cpk/compress/layla.rs:20-33 | Packed bits are the first bits a backward reading yields |
| LaylaDecompress.ReadLength | cri-archive-lib/src/cpk/compress/layla.rs:239-257 | The unrolled ladder reads what the reference decoder reads |
| LaylaDecompress.CopyBackward | cri-archive-lib/src/cpk/compress/layla.rs:269-296 | For every length and offset from 3 up, each byte of the window equals the byte that far above it, and no other byte changes |
| LaylaDecompress.DecodeOne | cri-archive-lib/src/cpk/compress/layla.rs:236-303 | One turn of the loop applies one token: bytes above stay, only the token's window is written |
| LaylaDecompress.DecompressInto | cri-archive-lib/src/cpk/compress/layla.rs:224-305 | For every stream the reference decoder accepts the buffer ends as the trailer and the expansion, whatever it held before |
| LaylaFile.EncodedExpands | cri-archive-lib/src/cpk/compress/layla.rs:320-328 | A file made of any well-formed tokens and any trailer has as content the trailer followed by the tokens' meaning |
| LaylaFile.ContentIsMeaning | cri-archive-lib/src/cpk/compress/layla.rs:320-328 | The content of every well-formed file is the meaning of a token sequence its bits begin with |
| LaylaFile.CompressedIff | cri-archive-lib/src/cpk/compress/layla.rs:315-318 | A file is compressed exactly when it has sixteen bytes and begins "CRILAYLA" |
| LaylaFile.HeaderWords | cri-archive-lib/src/cpk/compress/layla.rs:58-70 | The uncompressed size and the trailer offset are the little-endian words at 8 and 12 |
| LaylaFile.ContentStarts | cri-archive-lib/src/cpk/compress/layla.rs:224-235 | The content begins with the 0x100 bytes at the trailer, 0x10 after the stored offset |
| LaylaFile.Decompress | cri-archive-lib/src/cpk/compress/layla.rs:320-328 | The file's content; the slab ends as it started |
| FreeListSpec.SearchIsFirstFit | cri-archive-lib/src/cpk/free_list.rs:17-29 | The search returns the smallest multiple of the request that looks free and none exactly when there is none; up to 64 blocks, looking free is being free |
| FreeListSpec.AllocateKeeps | cri-archive-lib/src/cpk/free_list.rs:182-196 | A request the search can judge keeps the map the disjoint union of live ranges inside the slab |
| FreeListSpec.EveryRun | cri-archive-lib/src/cpk/free_list.rs:182-203 | So does every run of allocations and releases |
| FreeListSpec.AllReleased | cri-archive-lib/src/cpk/free_list.rs:198-203 | Releasing everything restores the empty map |
| FreeListSpec.LongRequestOverlaps | cri-archive-lib/src/cpk/free_list.rs:88-93 | A run after which any request of 65 to 255 blocks overlaps a live one |
| FreeListSpec.AllocationSafeIff | cri-archive-lib/src/cpk/free_list.rs:88-93 | A request size keeps every consistent map consistent exactly when it is at most 64 blocks or cannot fit |
| FreeList.BlockSize | cri-archive-lib/src/cpk/free_list.rs:64-66 | The least number of 256 KB blocks that covers a size |
| FreeList.FreeList.BitOn | cri-archive-lib/src/cpk/free_list.rs:121-149 | Exactly the given blocks become occupied |
| FreeList.FreeList.BitOff | cri-archive-lib/src/cpk/free_list.rs:151-179 | Exactly the given blocks become free |
| FreeList.FreeList.CheckOccupation | cri-archive-lib/src/cpk/free_list.rs:88-119 | Zero exactly when the first 64 blocks of the window are free; no bit is lost in the accumulator |
| FreeList.FreeList.GetFreeBlockIndex | cri-archive-lib/src/cpk/free_list.rs:17-29 | The strided search terminates with the first fit |
| FreeList.FreeList.Allocate | cri-archive-lib/src/cpk/free_list.rs:182-196 | One allocation step of the block-set machine; a managed node lies inside the slab |
| FreeList.FreeList.Deallocate | cri-archive-lib/src/cpk/free_list.rs:198-203 | One release step |
| P5R.TransformInvolution | cri-archive-lib/src/cpk/encrypt/p5r.rs:33-48 | Applying the transform twice gives the file back |
| P5R.XorByteBits | cri-archive-lib/src/cpk/encrypt/p5r.rs:111-123 | The byte operation is exclusive or, bit by bit |
| P5R.TransformBits | cri-archive-lib/src/cpk/encrypt/p5r.rs:33-48 | Each bit of a byte in [0x20, 0x420) of a file of at least 0x820 bytes is flipped exactly when the bit 0x400 bytes further on is set; every other bit stays |
| P5R.TransformFixes | cri-archive-lib/src/cpk/encrypt/p5r.rs:33-48 | The transform changes a file exactly when it has at least 0x820 bytes and a nonzero byte in [0x420, 0x820) |
| P5R.DecryptAvx2 | cri-archive-lib/src/cpk/encrypt/p5r.rs:63-72 | 32-byte blocks: the bytewise transform |
| P5R.DecryptSse3 | cri-archive-lib/src/cpk/encrypt/p5r.rs:79-88 | 16-byte blocks: the same |
| P5R.DecryptU64 | cri-archive-lib/src/cpk/encrypt/p5r.rs:111-123 | 8-byte blocks: the same |
| P5R.DecryptInPlace | cri-archive-lib/src/cpk/encrypt/p5r.rs:33-48 | Every compiled form is the transform, except the scalar one away from x86_64, which does nothing |
| Manifest.ManifestRoundTrip | cri-cpk-cli/src/manifest.rs:51-193 | Reading what was written gives back every manifest whose flags are valid, and refuses the others |
| ManifestFacts.ManifestIff | cri-cpk-cli/src/manifest.rs:51-149 | Exactly which texts are manifests and what each says: the magic line, eleven keys in order, and entry lines of ten fields, with empty lines skipped and the flags consistent |
| ManifestFacts.HeadIff | cri-cpk-cli/src/manifest.rs:57-83 | The twelve leading lines: each key, one tab, and a numeral, a flag or hexadecimal text |
| ManifestFacts.EntryIff | cri-cpk-cli/src/manifest.rs:85-126 | An entry line is exactly ten fields between tabs with these numerals and texts |
| ManifestFacts.NumeralIff | cri-cpk-cli/src/manifest.rs:495-504 | A number is read exactly from its digits in either case, after at most one plus sign, with leading zeros, up to the limit of its type |
| ManifestFacts.HexTextIff | cri-cpk-cli/src/manifest.rs:523-534 | A text field is read exactly from two hexadecimal digits a byte, if the bytes are UTF-8 |
| Utf8.ValidIff | cri-cpk-cli/src/manifest.rs:533-533 | The byte strings accepted as UTF-8 are exactly the encodings of characters, by section 3 of RFC 3629 |
| ManifestFacts.LineBreaks | cri-cpk-cli/src/manifest.rs:51-59 | A line ends at a line feed and loses one carriage return before it; the last line may lack both |
| ManifestFacts.ProfileStored | cri-cpk-cli/src/manifest.rs:195-210 | An archive packed under a manifest's profile has a header with the manifest's version, revision and time, exactly its indexes, and the default version text and comment |
| Manifest.EncodeDecode | cri-cpk-cli/src/manifest.rs:514-534 | An encoded text field decodes to itself |
| Manifest.EntryReadsBack | cri-cpk-cli/src/manifest.rs:85-126 | A printed entry line parses back to the entry |
| Manifest.HeadReadsBack | cri-cpk-cli/src/manifest.rs:57-83 | The twelve leading lines parse back |
| Manifest.EncodeFieldLoop | cri-cpk-cli/src/manifest.rs:514-521 | Two lower-case hexadecimal digits for every byte |
| Manifest.DecodeFieldLoop | cri-cpk-cli/src/manifest.rs:523-534 | The bytes of the digits, refusing odd lengths, bad digits and malformed UTF-8 |
| Manifest.WriteManifest | cri-cpk-cli/src/manifest.rs:151-193 | The manifest's text, line by line |
| Manifest.ReadManifest | cri-cpk-cli/src/manifest.rs:51-149 | The manifest of a text, or a refusal |
| Manifest.ReadManifestHasMode | cri-cpk-cli/src/manifest.rs:195-210 | Every manifest that was read has an index mode, and a direct ITOC only with an ITOC |
| Text.DecimalRoundTrip | cri-cpk-cli/src/manifest.rs:495-499 | A printed decimal parses back up to the limit of its type and no further |
| Text.HexRoundTrip | cri-cpk-cli/src/manifest.rs:501-504 | Padded hexadecimal digits parse back |
| BuildInputs.NewIdsFresh | cri-cpk-cli/src/manifest.rs:285-315 | IDs of new files differ from each other and from all retained ones, and fit 16 bits with an ITOC |
| BuildInputs.ItocIdsSuffice | cri-cpk-cli/src/manifest.rs:285-303 | With an ITOC assignment succeeds exactly when the new files fit into the 16-bit IDs not taken |
| BuildInputs.TocIdsSuffice | cri-cpk-cli/src/manifest.rs:292-315 | Without an ITOC it succeeds exactly when the new files fit after the largest retained ID, and that is not the last one |
| BuildInputs.LastIdBlocks | cri-cpk-cli/src/manifest.rs:292-297 | A retained 0xffffffff refuses any number of new files, even none with every other ID unused |
| BuildInputs.WriterAcceptsIds | cri-archive-lib/src/cpk/writer.rs:520-528 | With an ITOC the writer's range and duplicate checks pass exactly when the retained IDs are unique 16-bit numbers |
| BuildInputs.RetainedInputFacts | cri-cpk-cli/src/manifest.rs:236-277 | A retained file keeps its ID and names; it is taken exactly up to 32-bit sizes; its bytes come from the archive exactly when reuse is asked for and size and hash on disk are the recorded ones, otherwise from disk; its payload is refused only when the packed range lies outside the archive |
| BuildInputs.InputsAre | cri-cpk-cli/src/manifest.rs:220-346 | The inputs of a rebuild: one for every entry whose file is there, in order and with the source just described, then one for every new file with its directory, name and content and its own ID |
| BuildInputs.SkipUsed | cri-cpk-cli/src/manifest.rs:305-309 | The first unused ID from a given one on, or none when all are taken |
| BuildInputs.AssignIds | cri-cpk-cli/src/manifest.rs:285-315 | The queue and the counter give the specified IDs |
| BuildInputs.CollectInputs | cri-cpk-cli/src/manifest.rs:220-346 | The loops over entries and new files give the specified inputs |

## Left out

- File system, paths, argument parsing, progress bar: files are byte sequences, whether an entry's file is present and which files are new is given.
- UTF-8 validation and Shift-JIS decoding of table strings: a pool string is its bytes; the manifest's own UTF-8 check is modelled.
- Reading the manifest file as UTF-8 text as a whole: the parser is given the bytes.
- Slicing a manifest field in the middle of a multi-byte character panics in the source; the model refuses such a field.
- Error messages, and which I/O error it was; bytes already written when a write fails.
- Raw pointers, allocation layouts, `Drop` order and the spin lock: the slab is a range of block numbers, and a decompression buffer is an array with unknown contents.
- LaylaFile.Decompress: assumes a well-formed stream, because the source checks no bounds and reads or writes outside its buffers otherwise.
- Reader.CpkReader.ExtractFileWithPacked: assumes a well-formed stream when the data begins with the compression magic, for the same reason.
- Overflow of `usize` in block counts, table sizes and offsets: sizes are unbounded where the source uses `usize`, 32- and 64-bit fields are bounded.
- SIMD instructions: block forms are block-wise XOR.
- Floating-point cells are kept as bit patterns.
- Directory packing order (`engine_path_key`), the FNV hash, `safe_relative_path`: the hash is a given number.
- ETOC and GTOC chunks, checksums, the ACB reader.
