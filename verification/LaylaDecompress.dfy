/** `LaylaDecompressorImpl::decompress`: the unrolled in-place decoder, proved against the
    reference decoder. */
module LaylaDecompress {
  import opened BitOps
  import opened BitStream
  import opened LaylaCursor
  import opened LaylaFormat
  import opened Wrappers

  const UNCOMPRESSED_DATA_SIZE := 0x100
  const DEFAULT_PIPELINE_LENGTH := 3
  const EXTRA_PIPELINE_LENGTH := 8

  ghost function Unread(c: Cursor): seq<bool>
    requires c.Valid()
    reads c
  {
    BitsBelow(c.data, c.Remaining())
  }

  /** A reader that returned the next n bits is a field read of the reference decoder. */
  lemma {:induction false} FieldRead(data: seq<byte>, r: nat, n: nat)
    requires n <= r <= 8 * |data|
    ensures TakeField(BitsBelow(data, r), n) == Some(Take(data, r, n))
    ensures BitsBelow(data, r)[n..] == BitsBelow(data, r - n)
  {
    AfterReading(data, r, n);
  }

  /** The loop over 8-bit levels. */
  method ReadBytesLevel(c: Cursor) returns (length: nat)
    requires c.Valid() && DecodeBytes(Unread(c)).Some?
    modifies c
    ensures c.Valid() && c.Remaining() <= old(c.Remaining())
    ensures Some(Read(length, old(c.Remaining()) - c.Remaining())) == old(DecodeBytes(Unread(c)))
  {
    length := 0;
    ghost var start := c.Remaining();
    ghost var full := DecodeBytes(Unread(c)).value;
    while true
      invariant c.Valid() && c.Remaining() <= start
      invariant DecodeBytes(Unread(c)).Some?
      invariant full == Read(length + DecodeBytes(Unread(c)).value.value,
              start - c.Remaining() + DecodeBytes(Unread(c)).value.used)
      decreases c.Remaining()
    {
      FieldRead(c.data, c.Remaining(), 8);
      var level := c.Read8();
      length := length + level;
      if level != 0xff { break; }
    }
  }

  /** The unrolled length ladder. */
  method ReadLength(c: Cursor) returns (length: nat)
    requires c.Valid() && DecodeLength(Unread(c)).Some?
    modifies c
    ensures c.Valid() && c.Remaining() <= old(c.Remaining())
    ensures Some(Read(length, old(c.Remaining()) - c.Remaining())) == old(DecodeLength(Unread(c)))
  {
    hide Take, BitsBelow, TakeField, DecodeBytes;
    ghost var data, r := c.data, c.Remaining();
    FieldRead(data, r, 2);
    length := MIN_COPY_LENGTH;
    var level := c.Read2();
    length := length + level;
    if level == 3 {
      FieldRead(data, r - 2, 3);
      level := c.ReadMax8(3);
      length := length + level;
      if level == 7 {
        AfterReading(data, r, 5);
        FieldRead(data, r - 5, 5);
        level := c.ReadMax8(5);
        length := length + level;
        if level == 0x1f {
          AfterReading(data, r, 10);
          level := ReadBytesLevel(c);
          length := length + level;
        }
      }
    }
  }

  /** The window (start-n, start] repeats what lies `offset` places further on, and every byte
      outside it is as it was in `before`. */
  ghost predicate Repeats(now: seq<byte>, before: seq<byte>, start: int, n: int, offset: nat) {
    && |now| == |before| && -1 <= start - n && start + offset < |now|
    && (forall i :: start - n < i <= start ==> now[i] == now[i + offset])
    && (forall i :: 0 <= i < |now| && !(start - n < i <= start) ==> now[i] == before[i])
  }

  /** The straight-line copy of the minimum length. */
  method CopyThree(out: array<byte>, p: nat, offset: nat)
    requires offset >= 3 && p >= 2 && p + offset < out.Length
    modifies out
    ensures Repeats(out[..], old(out[..]), p, 3, offset)
  {
    out[p] := out[p + offset];
    out[p - 1] := out[p - 1 + offset];
    out[p - 2] := out[p - 2 + offset];
  }

  /** One more byte of the overlapping copy. */
  method CopyOne(out: array<byte>, p: nat, n: nat, offset: nat, ghost before: seq<byte>)
    requires offset >= 3 && n <= p
    requires Repeats(out[..], before, p, n, offset)
    modifies out
    ensures Repeats(out[..], before, p, n + 1, offset)
  {
    out[p - n] := out[p - n + offset];
  }

  /** The straight-line continuation to eight bytes. */
  method CopyFiveMore(out: array<byte>, p: nat, offset: nat, ghost before: seq<byte>)
    requires offset >= 3 && p >= 7
    requires Repeats(out[..], before, p, 3, offset)
    modifies out
    ensures Repeats(out[..], before, p, 8, offset)
  {
    hide Repeats;
    CopyOne(out, p, 3, offset, before);
    CopyOne(out, p, 4, offset, before);
    CopyOne(out, p, 5, offset, before);
    CopyOne(out, p, 6, offset, before);
    CopyOne(out, p, 7, offset, before);
  }

  /** The overlapping copy: three bytes, or eight, straight-line, then the rest in a loop. Every
      byte written equals the byte `offset` places further on, and nothing else changes. */
  method CopyBackward(out: array<byte>, start: nat, offset: nat, length: nat) returns (pwrite: int)
    requires offset >= 3 && length >= 3
    requires length <= start + 1 && start + offset < out.Length
    modifies out
    ensures pwrite == start - length
    ensures Repeats(out[..], old(out[..]), start, length, offset)
  {
    pwrite := start;
    CopyThree(out, pwrite, offset);
    if length < EXTRA_PIPELINE_LENGTH {
      pwrite := pwrite - DEFAULT_PIPELINE_LENGTH;
      if length == DEFAULT_PIPELINE_LENGTH { return; }
      for k := 0 to length - DEFAULT_PIPELINE_LENGTH
        invariant pwrite == start - DEFAULT_PIPELINE_LENGTH - k
        invariant Repeats(out[..], old(out[..]), start, DEFAULT_PIPELINE_LENGTH + k, offset)
      {
        out[pwrite] := out[pwrite + offset];
        pwrite := pwrite - 1;
      }
    } else {
      CopyFiveMore(out, pwrite, offset, old(out[..]));
      pwrite := pwrite - EXTRA_PIPELINE_LENGTH;
      for k := 0 to length - EXTRA_PIPELINE_LENGTH
        invariant pwrite == start - EXTRA_PIPELINE_LENGTH - k
        invariant Repeats(out[..], old(out[..]), start, EXTRA_PIPELINE_LENGTH + k, offset)
      {
        out[pwrite] := out[pwrite + offset];
        pwrite := pwrite - 1;
      }
    }
  }

  /** The in-place copy read as a sequence is the byte-by-byte copy to the front. */
  method CopyToFront(out: array<byte>, start: nat, offset: nat, length: nat) returns (pwrite: int)
    requires offset >= 3 && length >= 3
    requires length <= start + 1 && start + offset < out.Length
    modifies out
    ensures pwrite == start - length
    ensures out[pwrite + 1..] == old(CopyFront(out[start + 1..], offset, length))
    ensures out[..pwrite + 1] == old(out[..start - length + 1])
  {
    ghost var before := out[..];
    pwrite := CopyBackward(out, start, offset, length);
    ghost var now := out[..];
    assert now[pwrite + 1..][length..] == before[start + 1..];
    CopyByRepetition(before[start + 1..], offset, length, now[pwrite + 1..]);
    assert out[pwrite + 1..] == now[pwrite + 1..] && old(out[start + 1..]) == before[start + 1..];
    assert out[..pwrite + 1] == now[..pwrite + 1] == before[..pwrite + 1];
  }

  /** One turn of the main loop: one token read and written. */
  method DecodeOne(c: Cursor, out: array<byte>, start: nat) returns (pwrite: int)
    requires c.Valid() && DecodeToken(Unread(c)).Some? && start < out.Length
    requires var t := DecodeToken(Unread(c)).value.value;
      InReach(out[start + 1..], t) && TokenLength(t) <= start + 1
    modifies c, out
    ensures var t := old(DecodeToken(Unread(c)).value);
      && pwrite == start - TokenLength(t.value)
      && out[pwrite + 1..] == Apply(old(out[start + 1..]), t.value)
      && out[..pwrite + 1] == old(out[..start - TokenLength(t.value) + 1])
      && c.Valid() && Unread(c) == old(Unread(c))[t.used..]
  {
    hide Take, BitsBelow, CopyFront, TakeField, DecodeLength;
    ghost var bits, r, tail := Unread(c), c.Remaining(), out[start + 1..];
    var flag := c.Read1();
    AfterReading(c.data, r, 1);
    assert flag == bits[0] && bits[1..] == Unread(c);
    if flag {
      FieldRead(c.data, r - 1, 13);
      var offset := c.Read13();
      AfterReading(c.data, r, 14);
      var length := ReadLength(c);
      AfterReading(c.data, r, r - c.Remaining());
      assert DecodeToken(bits).value == Read(Copy(offset + MIN_COPY_LENGTH, length), r - c.Remaining());
      pwrite := CopyToFront(out, start, offset + MIN_COPY_LENGTH, length);
    } else {
      FieldRead(c.data, r - 1, 8);
      var value := c.Read8();
      assert Pow2(8) == 256;
      AfterReading(c.data, r, 9);
      assert DecodeToken(bits).value == Read(Literal(value), 9);
      out[start] := value;
      pwrite := start - 1;
      assert out[start..] == [value] + tail;
    }
  }

  method CopyTrailer(trailer: seq<byte>, out: array<byte>)
    requires |trailer| <= out.Length
    modifies out
    ensures out[..|trailer|] == trailer
  {
    for i := 0 to |trailer|
      invariant out[..i] == trailer[..i]
    {
      out[i] := trailer[i];
    }
  }

  /** The bits a compressed file holds below its trailer. */
  ghost function StreamBits(input: seq<byte>, headerOffset: nat): seq<bool>
    requires headerOffset <= |input|
  {
    BitsBelow(input[..headerOffset], 8 * headerOffset)
  }

  /** For every stream the reference decoder accepts, the buffer ends up holding the trailer
      followed by the expansion, whatever the buffer held before. */
  method DecompressInto(input: seq<byte>, headerOffset: nat, size: nat, out: array<byte>)
    requires headerOffset + UNCOMPRESSED_DATA_SIZE <= |input|
    requires out.Length == UNCOMPRESSED_DATA_SIZE + size
    requires Expand(StreamBits(input, headerOffset), size, []).Some?
    modifies out
    ensures out[..] == input[headerOffset..headerOffset + UNCOMPRESSED_DATA_SIZE]
                    + Expand(StreamBits(input, headerOffset), size, []).value
  {
    hide Expand, DecodeToken, Apply, InReach, BitsBelow;
    ghost var trailer := input[headerOffset..headerOffset + UNCOMPRESSED_DATA_SIZE];
    CopyTrailer(input[headerOffset..headerOffset + UNCOMPRESSED_DATA_SIZE], out);
    var pwrite := UNCOMPRESSED_DATA_SIZE + size - 1;
    var c := new Cursor(input[..headerOffset]);
    ghost var whole := Expand(Unread(c), size, []);
    assert out[pwrite + 1..] == [];
    while pwrite >= UNCOMPRESSED_DATA_SIZE
      invariant UNCOMPRESSED_DATA_SIZE - 1 <= pwrite < out.Length
      invariant c.Valid() && fresh(c)
      invariant out[..UNCOMPRESSED_DATA_SIZE] == trailer
      invariant Expand(Unread(c), pwrite + 1 - UNCOMPRESSED_DATA_SIZE, out[pwrite + 1..]) == whole
      decreases pwrite
    {
      ghost var front := out[..pwrite + 1];
      ExpandStep(Unread(c), pwrite + 1 - UNCOMPRESSED_DATA_SIZE, out[pwrite + 1..]);
      pwrite := DecodeOne(c, out, pwrite);
      assert out[..UNCOMPRESSED_DATA_SIZE] == out[..pwrite + 1][..UNCOMPRESSED_DATA_SIZE];
      assert front[..pwrite + 1][..UNCOMPRESSED_DATA_SIZE] == trailer;
    }
    ExpandEnd(Unread(c), out[pwrite + 1..]);
    assert out[..] == out[..UNCOMPRESSED_DATA_SIZE] + out[UNCOMPRESSED_DATA_SIZE..];
  }

  lemma {:induction false} ExpandStep(bits: seq<bool>, size: nat, tail: seq<byte>)
    requires Expand(bits, size, tail).Some? && size > 0
    ensures DecodeToken(bits).Some?
    ensures var t := DecodeToken(bits).value;
      && InReach(tail, t.value) && TokenLength(t.value) <= size && t.used <= |bits|
      && Expand(bits, size, tail) == Expand(bits[t.used..], size - TokenLength(t.value), Apply(tail, t.value))
  {
  }

  lemma {:induction false} ExpandEnd(bits: seq<bool>, tail: seq<byte>)
    ensures Expand(bits, 0, tail) == Some(tail)
  {
  }
}
