/** Whole CriLAYLA files: header, compressed bits, uncompressed trailer, and the buffer they are
    expanded into. */
module LaylaFile {
  import opened BitOps
  import opened Bytes
  import opened BitStream
  import opened LaylaFormat
  import opened LaylaDecompress
  import S = FreeListSpec
  import F = FreeList

  const HEADER_SIZE := 0x10
  const LAYLA_HEADER_MAGIC := 0x414C_5941_4C49_5243

  predicate IsCompressed(input: bytes) {
    |input| >= HEADER_SIZE && FromLe(input[..8]) == LAYLA_HEADER_MAGIC
  }

  function UncompressedSize(input: bytes): nat
    requires |input| >= HEADER_SIZE
  {
    FromLe(input[8..12])
  }

  function HeaderOffset(input: bytes): nat
    requires |input| >= HEADER_SIZE
  {
    FromLe(input[12..16])
  }

  /** What the decoder needs and does not check: the trailer is present, and the bits below it
      expand to exactly the declared size. */
  ghost predicate WellFormed(input: bytes) {
    && |input| >= HEADER_SIZE
    && HeaderOffset(input) + UNCOMPRESSED_DATA_SIZE <= |input| - HEADER_SIZE
    && Expand(StreamBits(input[HEADER_SIZE..], HeaderOffset(input)), UncompressedSize(input), []).Some?
  }

  /** The file's content: the trailer, then the expansion. */
  ghost function Content(input: bytes): bytes
    requires WellFormed(input)
  {
    var body, at := input[HEADER_SIZE..], HeaderOffset(input);
    body[at..at + UNCOMPRESSED_DATA_SIZE] + Expand(StreamBits(body, at), UncompressedSize(input), []).value
  }

  // ----- the buffer -----

  lemma {:induction false} GivenBack(s: S.State, blocks: nat)
    requires S.FirstFit(s.used, blocks, 0).Some?
    requires S.Judged(blocks) || s == S.EMPTY
    ensures var s' := S.Step(s, S.Allocate(blocks));
      S.Enabled(s', S.Release(|s.live|)) && S.Step(s', S.Release(|s.live|)) == s
  {
    S.FitInside(s.used, blocks, 0);
    var start := S.FirstFit(s.used, blocks, 0).value;
    var s' := S.Step(s, S.Allocate(blocks));
    assert s'.live[|s.live|] == S.Range(start, blocks);
    assert S.Without(s'.live, |s.live|) == s.live;
    assert s.used !! S.Window(start, blocks) by {
      if s != S.EMPTY && blocks >= 1 {
        assert S.Min(blocks, S.SEARCH_WIDTH) == blocks;
      }
    }
    assert s'.used - S.Window(start, blocks) == s.used;
  }

  /** The expanded file, whatever the buffer held before; the buffer is given back, so the slab
      ends as it started. */
  method Decompress(input: bytes, list: F.FreeList) returns (result: bytes)
    requires list.Valid() && WellFormed(input)
    modifies list.used, list`live
    ensures result == Content(input) && list.Valid()
    ensures old(list.Abs()) == S.EMPTY || S.Judged(F.BlockSize(UncompressedSize(input) + UNCOMPRESSED_DATA_SIZE)) ==>
              list.Abs() == old(list.Abs())
  {
    hide Expand, StreamBits, F.BlockSize;
    var size := UncompressedSize(input) + UNCOMPRESSED_DATA_SIZE;
    ghost var before, blocks := list.Abs(), F.BlockSize(size);
    var node := list.Allocate(size);
    var out := new byte[size];
    DecompressInto(input[HEADER_SIZE..], HeaderOffset(input), UncompressedSize(input), out);
    result := out[..];
    if node.Managed? {
      if before == S.EMPTY || S.Judged(blocks) { GivenBack(before, blocks); }
      list.Deallocate(node, |before.live|);
    }
  }

  // ----- encoding -----

  /** A file as the format describes it: tokens packed backwards, then the trailer. */
  function Encode(ts: seq<Token>, trailer: bytes): bytes
    requires forall t :: t in ts ==> ValidToken(t)
  {
    var packed := Pack(EncodeTokens(ts));
    Le(LAYLA_HEADER_MAGIC, 8) + Le(TotalLength(ts), 4) + Le(|packed|, 4) + packed + trailer
  }

  lemma {:induction false} HeaderSlices(m: bytes, n: bytes, o: bytes, rest: bytes)
    requires |m| == 8 && |n| == |o| == 4
    ensures var f := m + n + o + rest;
      f[..8] == m && f[8..12] == n && f[12..16] == o && f[16..] == rest
  {
  }

  lemma {:induction false} EncodedHeader(ts: seq<Token>, trailer: bytes)
    requires forall t :: t in ts ==> ValidToken(t)
    requires |Pack(EncodeTokens(ts))| <= U32_MAX && TotalLength(ts) <= U32_MAX
    ensures var f, packed := Encode(ts, trailer), Pack(EncodeTokens(ts));
      && |f| >= HEADER_SIZE && IsCompressed(f) && UncompressedSize(f) == TotalLength(ts) && HeaderOffset(f) == |packed|
      && f[HEADER_SIZE..] == packed + trailer
  {
    var f, packed := Encode(ts, trailer), Pack(EncodeTokens(ts));
    var m, n, o := Le(LAYLA_HEADER_MAGIC, 8), Le(TotalLength(ts), 4), Le(|packed|, 4);
    assert f == m + n + o + (packed + trailer);
    hide Encode, Le, FromLe, Pack, TotalLength;
    HeaderSlices(m, n, o, packed + trailer);
    WordSizes();
    LeRoundTrip(LAYLA_HEADER_MAGIC, 8);
    LeRoundTrip(TotalLength(ts), 4);
    LeRoundTrip(|packed|, 4);
  }

  /** Decoder correctness: every well-formed token sequence, encoded with any trailer, expands to
      the trailer followed by the tokens' byte-at-a-time meaning. */
  lemma {:induction false} EncodedExpands(ts: seq<Token>, trailer: bytes)
    requires forall t :: t in ts ==> ValidToken(t)
    requires AllInReach([], ts) && |trailer| == UNCOMPRESSED_DATA_SIZE
    requires |Pack(EncodeTokens(ts))| <= U32_MAX && TotalLength(ts) <= U32_MAX
    ensures WellFormed(Encode(ts, trailer)) && Content(Encode(ts, trailer)) == trailer + Meaning([], ts)
  {
    hide Encode, Pack, EncodeTokens, Expand, BitsBelow, IsCompressed, UncompressedSize, HeaderOffset, ValidToken;
    var f, bits := Encode(ts, trailer), EncodeTokens(ts);
    var packed := Pack(bits);
    EncodedHeader(ts, trailer);
    var body := f[HEADER_SIZE..];
    assert body[..|packed|] == packed && body[|packed|..|packed| + UNCOMPRESSED_DATA_SIZE] == trailer;
    PackReadsBack(bits);
    var stream := BitsBelow(packed, 8 * |packed|);
    assert stream == bits + stream[|bits|..];
    ExpandEncoded(ts, stream[|bits|..], []);
  }

  /** Conversely the content of every well-formed file is the meaning of some token sequence that
      its bits begin with. */
  lemma {:induction false} ContentIsMeaning(input: bytes) returns (ts: seq<Token>)
    requires WellFormed(input)
    ensures (forall t :: t in ts ==> ValidToken(t)) && AllInReach([], ts) && TotalLength(ts) == UncompressedSize(input)
    ensures EncodeTokens(ts) <= StreamBits(input[HEADER_SIZE..], HeaderOffset(input))
    ensures Content(input)[UNCOMPRESSED_DATA_SIZE..] == Meaning([], ts)
  {
    ts := ExpandedIsEncoded(StreamBits(input[HEADER_SIZE..], HeaderOffset(input)), UncompressedSize(input), []);
  }

  // ----- the header in plain numbers -----

  lemma {:induction false} MagicBytes()
    ensures FromLe(Ascii("CRILAYLA")) == LAYLA_HEADER_MAGIC && |Ascii("CRILAYLA")| == 8
  {
    var s := Ascii("CRILAYLA");
    assert s[0] == 0x43 && s[1] == 0x52 && s[2] == 0x49 && s[3] == 0x4c;
    assert s[4] == 0x41 && s[5] == 0x59 && s[6] == 0x4c && s[7] == 0x41;
    hide Ascii;
    FourLe(s[4..]);
    FourLe(s);
    assert s[4..][4..] == [] && FromLe([]) == 0;
  }

  /** Four bytes, the least significant first. */
  function FromBytes(a: int, b: int, c: int, d: int): int {
    a + 0x100 * b + 0x1_0000 * c + 0x100_0000 * d
  }

  lemma {:induction false} FourLe(s: bytes)
    requires |s| >= 4
    ensures FromLe(s) == FromBytes(s[0], s[1], s[2], s[3]) + 0x1_0000_0000 * FromLe(s[4..])
  {
    var a, b, c := s[1..], s[2..], s[3..];
    assert a[1..] == b && b[1..] == c && c[1..] == s[4..];
    assert FromLe(s) == s[0] + 256 * FromLe(a) && FromLe(a) == s[1] + 256 * FromLe(b);
    assert FromLe(b) == s[2] + 256 * FromLe(c) && FromLe(c) == s[3] + 256 * FromLe(s[4..]);
  }

  /** A file is compressed exactly when it has room for the header and begins with the eight
      letters. */
  lemma {:induction false} CompressedIff(input: bytes)
    ensures IsCompressed(input) <==> |input| >= 16 && input[..8] == Ascii("CRILAYLA")
  {
    hide FromLe, Ascii, Le;
    MagicBytes();
    if |input| >= 16 {
      LeOfFromLe(input[..8]);
      LeOfFromLe(Ascii("CRILAYLA"));
    }
  }

  /** Size and trailer offset are the little-endian words at 8 and 12; the offset counts from the
      end of the header. */
  lemma {:induction false} HeaderWords(input: bytes)
    requires |input| >= 16
    ensures UncompressedSize(input) == FromBytes(input[8], input[9], input[10], input[11])
    ensures HeaderOffset(input) == FromBytes(input[12], input[13], input[14], input[15])
  {
    var a, b := input[8..12], input[12..16];
    FourLe(a);
    FourLe(b);
    assert a[4..] == [] && b[4..] == [] && FromLe([]) == 0;
  }

  /** The content begins with the 0x100 bytes that follow the compressed bits, and is as long as the
      header says. */
  lemma {:induction false} ContentStarts(input: bytes)
    requires WellFormed(input)
    ensures |Content(input)| == 0x100 + UncompressedSize(input)
    ensures var at := 0x10 + HeaderOffset(input);
      at + 0x100 <= |input| && Content(input)[..0x100] == input[at..at + 0x100]
  {
    hide Expand, StreamBits, FromLe;
    var body, at := input[HEADER_SIZE..], HeaderOffset(input);
    assert body[at..at + 0x100] == input[0x10 + at..0x10 + at + 0x100];
  }
}
