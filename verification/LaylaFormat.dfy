/** The CriLAYLA format on bit strings: a reference decoder that reads one field at a time and
    writes one byte at a time, and a specification encoder. The library has no compressor. */
module LaylaFormat {
  import opened BitOps
  import opened BitStream
  import opened Wrappers

  const MIN_COPY_LENGTH := 3

  datatype Token = Literal(value: byte) | Copy(offset: nat, length: nat)

  // ----- variable-length copy lengths -----

  datatype Read<+T> = Read(value: T, used: nat)

  function TakeField(bits: seq<bool>, n: nat): (r: Option<nat>)
    ensures r.Some? ==> n <= |bits| && r.value < Pow2(n)
  {
    if n <= |bits| then
      ValueBound(bits[..n]);
      Some(Value(bits[..n]))
    else None
  }

  /** The repeated 8-bit level: sum bytes up to and including the first that is not 0xff. */
  function DecodeBytes(bits: seq<bool>): (r: Option<Read<nat>>)
    ensures r.Some? ==> r.value.used <= |bits|
  {
    var level :- TakeField(bits, 8);
    if level != 0xff then Some(Read(level, 8))
    else
      var rest :- DecodeBytes(bits[8..]);
      Some(Read(0xff + rest.value, 8 + rest.used))
  }

  /** The ladder of 2, 3, 5 and then repeated 8 bits, each level entered when the one before
      it is all ones; the levels add up on top of the minimum length. */
  function DecodeLength(bits: seq<bool>): (r: Option<Read<nat>>)
    ensures r.Some? ==> r.value.used <= |bits| && r.value.value >= MIN_COPY_LENGTH
  {
    var l0 :- TakeField(bits, 2);
    if l0 != 3 then Some(Read(MIN_COPY_LENGTH + l0, 2))
    else
      var l1 :- TakeField(bits[2..], 3);
      if l1 != 7 then Some(Read(MIN_COPY_LENGTH + 3 + l1, 5))
      else
        var l2 :- TakeField(bits[5..], 5);
        if l2 != 0x1f then Some(Read(MIN_COPY_LENGTH + 10 + l2, 10))
        else
          var l3 :- DecodeBytes(bits[10..]);
          Some(Read(MIN_COPY_LENGTH + 41 + l3.value, 10 + l3.used))
  }

  /** The n binary digits of a number, most significant first. */
  function Digits(v: nat, n: nat): (bits: seq<bool>)
    ensures |bits| == n
  {
    if n == 0 then [] else Digits(v / 2, n - 1) + [v % 2 == 1]
  }

  /** A level that is all ones: the next level follows. */
  function Ones(n: nat): (bits: seq<bool>)
    ensures |bits| == n
  {
    seq(n, _ => true)
  }

  function EncodeBytes(v: nat): (bits: seq<bool>) {
    if v < 0xff then Digits(v, 8) else Ones(8) + EncodeBytes(v - 0xff)
  }

  function EncodeLength(length: nat): seq<bool>
    requires length >= MIN_COPY_LENGTH
  {
    var v := length - MIN_COPY_LENGTH;
    if v < 3 then Digits(v, 2)
    else if v < 10 then Ones(2) + Digits(v - 3, 3)
    else if v < 41 then Ones(2) + Ones(3) + Digits(v - 10, 5)
    else Ones(2) + Ones(3) + Ones(5) + EncodeBytes(v - 41)
  }

  lemma {:induction false} ValueOfDigits(v: nat, n: nat)
    requires v < Pow2(n)
    ensures Value(Digits(v, n)) == v
  {
    if n > 0 {
      ValueOfDigits(v / 2, n - 1);
      assert Digits(v, n)[..n - 1] == Digits(v / 2, n - 1);
    }
  }

  lemma {:induction false} DigitsOfValue(bits: seq<bool>)
    ensures Digits(Value(bits), |bits|) == bits
  {
    if bits != [] {
      DigitsOfValue(bits[..|bits| - 1]);
    }
  }

  /** A fixed-width field in front of anything reads back. */
  lemma {:induction false} FieldInFront(v: nat, n: nat, rest: seq<bool>)
    requires v < Pow2(n)
    ensures TakeField(Digits(v, n) + rest, n) == Some(v)
    ensures (Digits(v, n) + rest)[n..] == rest
  {
    ValueOfDigits(v, n);
    assert (Digits(v, n) + rest)[..n] == Digits(v, n);
  }

  lemma {:induction false} ValueOfOnes(n: nat)
    ensures Value(Ones(n)) == Pow2(n) - 1
  {
    if n > 0 {
      ValueOfOnes(n - 1);
      assert Ones(n)[..n - 1] == Ones(n - 1);
    }
  }

  lemma {:induction false} OnesInFront(n: nat, rest: seq<bool>)
    ensures TakeField(Ones(n) + rest, n) == Some(Pow2(n) - 1)
    ensures (Ones(n) + rest)[n..] == rest
  {
    ValueOfOnes(n);
    assert (Ones(n) + rest)[..n] == Ones(n);
  }

  /** What a field read consumed is the field's own digits. */
  lemma {:induction false} FieldConsumed(bits: seq<bool>, n: nat)
    requires n <= |bits|
    ensures TakeField(bits, n).Some? && Digits(TakeField(bits, n).value, n) == bits[..n]
    ensures TakeField(bits, n).value == Pow2(n) - 1 ==> bits[..n] == Ones(n)
  {
    DigitsOfValue(bits[..n]);
    ValueOfOnes(n);
    DigitsOfValue(Ones(n));
  }

  lemma {:induction false} BytesRoundTrip(v: nat, rest: seq<bool>)
    ensures DecodeBytes(EncodeBytes(v) + rest) == Some(Read(v, |EncodeBytes(v)|))
  {
    hide TakeField, Digits, Ones;
    assert Pow2(8) == 256;
    if v < 0xff {
      FieldInFront(v, 8, rest);
    } else {
      var tail := EncodeBytes(v - 0xff);
      assert EncodeBytes(v) == Ones(8) + tail;
      assert EncodeBytes(v) + rest == Ones(8) + (tail + rest);
      OnesInFront(8, tail + rest);
      BytesRoundTrip(v - 0xff, rest);
    }
  }

  lemma {:induction false} BytesConsumed(bits: seq<bool>)
    requires DecodeBytes(bits).Some?
    ensures EncodeBytes(DecodeBytes(bits).value.value) == bits[..DecodeBytes(bits).value.used]
  {
    hide TakeField, Digits, Ones;
    FieldConsumed(bits, 8);
    assert Pow2(8) == 256;
    if TakeField(bits, 8).value == 0xff {
      BytesConsumed(bits[8..]);
      var u := DecodeBytes(bits[8..]).value.used;
      assert bits[..8 + u] == bits[..8] + bits[8..][..u];
    }
  }

  /** The first two levels all ones: the five-bit level follows. */
  lemma {:induction false} LadderTop(tail: seq<bool>)
    ensures var bits := Ones(2) + (Ones(3) + tail);
      TakeField(bits, 2) == Some(3) && TakeField(bits[2..], 3) == Some(7) && bits[5..] == tail
  {
    assert Pow2(2) == 4 && Pow2(3) == 8;
    OnesInFront(2, Ones(3) + tail);
    OnesInFront(3, tail);
  }

  /** The first three levels all ones: the repeated bytes follow. */
  lemma {:induction false} LadderBottom(v: nat, rest: seq<bool>)
    ensures var code := Ones(2) + Ones(3) + Ones(5) + EncodeBytes(v);
      DecodeLength(code + rest) == Some(Read(MIN_COPY_LENGTH + 41 + v, |code|))
  {
    hide TakeField, Ones, DecodeBytes, EncodeBytes;
    var tail := EncodeBytes(v) + rest;
    var bits := Ones(2) + (Ones(3) + (Ones(5) + tail));
    assert Ones(2) + Ones(3) + Ones(5) + EncodeBytes(v) + rest == bits;
    LadderTop(Ones(5) + tail);
    assert Pow2(5) == 32;
    OnesInFront(5, tail);
    assert bits[10..] == bits[5..][5..] == tail;
    BytesRoundTrip(v, rest);
  }

  /** Decoding a length code in front of arbitrary bits returns that length and consumes
      exactly the code: the ladder is prefix free and covers every length from 3 up. */
  lemma {:induction false} LengthRoundTrip(length: nat, rest: seq<bool>)
    requires length >= MIN_COPY_LENGTH
    ensures DecodeLength(EncodeLength(length) + rest) == Some(Read(length, |EncodeLength(length)|))
  {
    hide TakeField, Digits, Ones, DecodeBytes, EncodeBytes;
    var v := length - MIN_COPY_LENGTH;
    if v < 3 {
      FieldInFront(v, 2, rest);
    } else if v < 10 {
      assert EncodeLength(length) + rest == Ones(2) + (Digits(v - 3, 3) + rest);
      assert Pow2(2) == 4 && Pow2(3) == 8;
      OnesInFront(2, Digits(v - 3, 3) + rest);
      FieldInFront(v - 3, 3, rest);
    } else if v < 41 {
      assert EncodeLength(length) + rest == Ones(2) + (Ones(3) + (Digits(v - 10, 5) + rest));
      LadderTop(Digits(v - 10, 5) + rest);
      assert Pow2(5) == 32;
      FieldInFront(v - 10, 5, rest);
    } else {
      LadderBottom(v - 41, rest);
    }
  }

  /** Conversely, whatever the ladder consumed is the code of the length it returned. */
  lemma {:induction false} LengthConsumed(bits: seq<bool>)
    requires DecodeLength(bits).Some?
    ensures EncodeLength(DecodeLength(bits).value.value) == bits[..DecodeLength(bits).value.used]
  {
    hide TakeField, Digits, Ones, DecodeBytes, EncodeBytes;
    assert Pow2(2) == 4 && Pow2(3) == 8 && Pow2(5) == 32;
    FieldConsumed(bits, 2);
    if TakeField(bits, 2).value == 3 {
      FieldConsumed(bits[2..], 3);
      assert bits[..5] == bits[..2] + bits[2..][..3];
      if TakeField(bits[2..], 3).value == 7 {
        FieldConsumed(bits[5..], 5);
        assert bits[..10] == bits[..2] + bits[2..][..3] + bits[5..][..5];
        if TakeField(bits[5..], 5).value == 0x1f {
          BytesConsumed(bits[10..]);
          var u := DecodeBytes(bits[10..]).value.used;
          assert bits[..10 + u] == bits[..10] + bits[10..][..u];
        }
      }
    }
  }

  // ----- tokens -----

  /** One token in front of a bit string. */
  function DecodeToken(bits: seq<bool>): (r: Option<Read<Token>>)
    ensures r.Some? ==> 0 < r.value.used <= |bits|
    ensures r.Some? ==> TokenLength(r.value.value) >= 1
    ensures r.Some? && r.value.value.Copy? ==>
            r.value.value.offset >= MIN_COPY_LENGTH && r.value.value.length >= MIN_COPY_LENGTH
  {
    if bits == [] then None
    else if bits[0] then
      var offset :- TakeField(bits[1..], 13);
      var length :- DecodeLength(bits[14..]);
      Some(Read(Copy(offset + MIN_COPY_LENGTH, length.value), 14 + length.used))
    else
      var value :- TakeField(bits[1..], 8);
      assert Pow2(8) == 256;
      Some(Read(Literal(value), 9))
  }

  /** The tokens a compressor may emit. */
  predicate ValidToken(t: Token) {
    t.Copy? ==> t.length >= MIN_COPY_LENGTH && MIN_COPY_LENGTH <= t.offset < Pow2(13) + MIN_COPY_LENGTH
  }

  function EncodeToken(t: Token): seq<bool>
    requires ValidToken(t)
  {
    match t
    case Literal(value) => [false] + Digits(value, 8)
    case Copy(offset, length) => [true] + Digits(offset - MIN_COPY_LENGTH, 13) + EncodeLength(length)
  }

  function TokenLength(t: Token): nat {
    match t
    case Literal(_) => 1
    case Copy(_, length) => length
  }

  lemma {:induction false} TokenRoundTrip(t: Token, rest: seq<bool>)
    requires ValidToken(t)
    ensures DecodeToken(EncodeToken(t) + rest) == Some(Read(t, |EncodeToken(t)|))
  {
    if t.Copy? {
      CopyRoundTrip(t.offset - MIN_COPY_LENGTH, t.length, rest);
    } else {
      assert Pow2(8) == 256;
      assert (EncodeToken(t) + rest)[1..] == Digits(t.value, 8) + rest;
      FieldInFront(t.value, 8, rest);
    }
  }

  lemma {:induction false} CopyRoundTrip(field: nat, length: nat, rest: seq<bool>)
    requires length >= MIN_COPY_LENGTH && field < Pow2(13)
    ensures var code := [true] + Digits(field, 13) + EncodeLength(length);
      DecodeToken(code + rest) == Some(Read(Copy(field + MIN_COPY_LENGTH, length), |code|))
  {
    hide TakeField, Digits, DecodeLength, EncodeLength;
    var tail := EncodeLength(length) + rest;
    var bits := [true] + Digits(field, 13) + EncodeLength(length) + rest;
    assert bits[1..] == Digits(field, 13) + tail;
    FieldInFront(field, 13, tail);
    assert bits[14..] == tail;
    LengthRoundTrip(length, rest);
  }

  /** Whatever a token read consumed is the token's own code. */
  lemma {:induction false} TokenConsumed(bits: seq<bool>)
    requires DecodeToken(bits).Some?
    ensures ValidToken(DecodeToken(bits).value.value)
    ensures EncodeToken(DecodeToken(bits).value.value) == bits[..DecodeToken(bits).value.used]
  {
    hide TakeField, Digits, DecodeLength, EncodeLength;
    assert Pow2(8) == 256;
    if bits[0] {
      FieldConsumed(bits[1..], 13);
      LengthConsumed(bits[14..]);
      var u := DecodeLength(bits[14..]).value.used;
      assert bits[..14 + u] == [true] + bits[1..][..13] + bits[14..][..u];
    } else {
      FieldConsumed(bits[1..], 8);
      assert bits[..9] == [false] + bits[1..][..8];
    }
  }

  function EncodeTokens(ts: seq<Token>): seq<bool>
    requires forall t :: t in ts ==> ValidToken(t)
  {
    if ts == [] then [] else EncodeToken(ts[0]) + EncodeTokens(ts[1..])
  }

  // ----- output -----

  /** Copy one byte at a time to the front of the output: the byte `offset` places further on. */
  function CopyFront(tail: seq<byte>, offset: nat, n: nat): (out: seq<byte>)
    requires 1 <= offset <= |tail|
    ensures |out| == |tail| + n
    decreases n
  {
    if n == 0 then tail else CopyFront([tail[offset - 1]] + tail, offset, n - 1)
  }

  /** A copy never reaches past the end of what has been written. */
  predicate InReach(tail: seq<byte>, t: Token) {
    t.Copy? ==> 1 <= t.offset <= |tail|
  }

  /** Output is produced back to front. */
  function Apply(tail: seq<byte>, t: Token): (out: seq<byte>)
    requires InReach(tail, t)
    ensures |out| == |tail| + TokenLength(t)
  {
    match t
    case Literal(value) => [value] + tail
    case Copy(offset, length) => CopyFront(tail, offset, length)
  }

  function TotalLength(ts: seq<Token>): nat {
    if ts == [] then 0 else TokenLength(ts[0]) + TotalLength(ts[1..])
  }

  predicate AllInReach(tail: seq<byte>, ts: seq<Token>)
    decreases ts
  {
    ts != [] ==> InReach(tail, ts[0]) && AllInReach(Apply(tail, ts[0]), ts[1..])
  }

  function Meaning(tail: seq<byte>, ts: seq<Token>): (out: seq<byte>)
    requires AllInReach(tail, ts)
    ensures |out| == |tail| + TotalLength(ts)
    decreases ts
  {
    if ts == [] then tail else Meaning(Apply(tail, ts[0]), ts[1..])
  }

  /** The reference decoder: decode tokens until `size` more bytes have been produced. It
      fails when bits run out, a copy reaches too far, or a copy overshoots the size. */
  function Expand(bits: seq<bool>, size: nat, tail: seq<byte>): (r: Option<seq<byte>>)
    ensures r.Some? ==> |r.value| == size + |tail|
    decreases size
  {
    if size == 0 then Some(tail)
    else
      var t :- DecodeToken(bits);
      if InReach(tail, t.value) && TokenLength(t.value) <= size then
        Expand(bits[t.used..], size - TokenLength(t.value), Apply(tail, t.value))
      else None
  }

  /** Encoding any well-formed token sequence and expanding it gives the tokens' meaning,
      whatever bits follow. */
  lemma {:induction false} ExpandEncoded(ts: seq<Token>, rest: seq<bool>, tail: seq<byte>)
    requires forall t :: t in ts ==> ValidToken(t)
    requires AllInReach(tail, ts)
    ensures Expand(EncodeTokens(ts) + rest, TotalLength(ts), tail) == Some(Meaning(tail, ts))
    decreases ts
  {
    hide *;
    NoTokens(tail);
    if ts != [] {
      TokensStep(ts, rest, tail);
      var t, more := ts[0], EncodeTokens(ts[1..]) + rest;
      var code := EncodeToken(t);
      TokenRoundTrip(t, more);
      ExpandEncoded(ts[1..], rest, Apply(tail, t));
      assert (code + more)[|code|..] == more;
      ExpandOne(code + more, TotalLength(ts), tail, t, |code|);
    } else {
      ExpandNothing(rest, tail);
      assert [] + rest == rest;
    }
  }

  lemma {:induction false} NoTokens(tail: seq<byte>)
    ensures EncodeTokens([]) == [] && TotalLength([]) == 0 && AllInReach(tail, []) && Meaning(tail, []) == tail
  {
  }

  lemma {:induction false} ExpandNothing(bits: seq<bool>, tail: seq<byte>)
    ensures Expand(bits, 0, tail) == Some(tail)
  {
  }

  /** The first token and the rest. */
  lemma {:induction false} TokensStep(ts: seq<Token>, rest: seq<bool>, tail: seq<byte>)
    requires ts != [] && (forall t :: t in ts ==> ValidToken(t)) && AllInReach(tail, ts)
    ensures ValidToken(ts[0]) && (forall t :: t in ts[1..] ==> ValidToken(t))
    ensures InReach(tail, ts[0]) && AllInReach(Apply(tail, ts[0]), ts[1..])
    ensures EncodeTokens(ts) + rest == EncodeToken(ts[0]) + (EncodeTokens(ts[1..]) + rest)
    ensures TotalLength(ts) == TokenLength(ts[0]) + TotalLength(ts[1..]) && TokenLength(ts[0]) >= 1
    ensures Meaning(tail, ts) == Meaning(Apply(tail, ts[0]), ts[1..])
  {
    hide EncodeToken, Apply, InReach;
    assert ts[0] in ts;
  }

  lemma {:induction false} ExpandOne(bits: seq<bool>, size: nat, tail: seq<byte>, t: Token, used: nat)
    requires DecodeToken(bits) == Some(Read(t, used)) && used <= |bits| && InReach(tail, t) && TokenLength(t) <= size
    requires size > 0
    ensures Expand(bits, size, tail) == Expand(bits[used..], size - TokenLength(t), Apply(tail, t))
  {
    hide DecodeToken, Apply, InReach;
  }

  /** Conversely every bit string that expands is the code of a well-formed token sequence
      followed by unread bits, and the result is that sequence's meaning. */
  lemma {:induction false} ExpandedIsEncoded(bits: seq<bool>, size: nat, tail: seq<byte>) returns (ts: seq<Token>)
    requires Expand(bits, size, tail).Some?
    ensures forall t :: t in ts ==> ValidToken(t)
    ensures AllInReach(tail, ts) && TotalLength(ts) == size
    ensures EncodeTokens(ts) <= bits
    ensures Expand(bits, size, tail) == Some(Meaning(tail, ts))
    decreases size
  {
    hide DecodeToken, EncodeToken, Apply, InReach;
    if size == 0 {
      ts := [];
    } else {
      var t := DecodeToken(bits).value;
      TokenConsumed(bits);
      var more := ExpandedIsEncoded(bits[t.used..], size - TokenLength(t.value), Apply(tail, t.value));
      ts := [t.value] + more;
      assert ts[1..] == more;
      assert bits == bits[..t.used] + bits[t.used..];
    }
  }

  // ----- the copy, seen from the finished output -----

  /** A sequence that repeats itself `offset` places further on over its first n bytes and then
      continues with `tail` is the byte-by-byte copy. */
  lemma {:induction false} CopyByRepetition(tail: seq<byte>, offset: nat, n: nat, out: seq<byte>)
    requires 1 <= offset <= |tail| && |out| == |tail| + n
    requires out[n..] == tail
    requires forall i :: 0 <= i < n ==> out[i] == out[i + offset]
    ensures out == CopyFront(tail, offset, n)
    decreases n
  {
    if n > 0 {
      assert out[n - 1] == out[n - 1 + offset] == tail[offset - 1];
      assert out[n - 1..] == [tail[offset - 1]] + tail;
      CopyByRepetition([tail[offset - 1]] + tail, offset, n - 1, out);
    }
  }

  // ----- packing bits into bytes -----

  /** Eight bits of a bit string, padded with zero bits, as a byte. */
  function PackByte(bits: seq<bool>): (b: byte)
    requires |bits| == 8
  {
    ValueBound(bits);
    assert Pow2(8) == 256;
    Value(bits)
  }

  /** The byte string whose backward bit reading starts with `bits`. */
  function Pack(bits: seq<bool>): (data: seq<byte>)
    ensures |bits| <= 8 * |data|
  {
    if bits == [] then []
    else if |bits| < 8 then [PackByte(bits + seq(8 - |bits|, _ => false))]
    else Pack(bits[8..]) + [PackByte(bits[..8])]
  }

  lemma {:induction false} BitOfValue(bits: seq<bool>, i: nat)
    requires i < |bits|
    ensures Bit(Value(bits), i) == bits[|bits| - 1 - i]
  {
    var front, last := bits[..|bits| - 1], bits[|bits| - 1];
    var v := Value(front);
    assert Value(bits) == 2 * v + (if last then 1 else 0);
    assert Value(bits) / 2 == v;
    if i > 0 {
      BitOfValue(front, i - 1);
      assert Bit(Value(bits), i) == Bit(v, i - 1);
    }
  }

  /** Reading a byte string backwards: first the bits of its last byte, then the rest. */
  lemma {:induction false} BitsOfLastByte(data: seq<byte>, bits: seq<bool>)
    requires |bits| == 8
    ensures var d := data + [PackByte(bits)];
      BitsBelow(d, 8 * |d|) == bits + BitsBelow(data, 8 * |data|)
  {
    var d := data + [PackByte(bits)];
    var left, right := BitsBelow(d, 8 * |d|), bits + BitsBelow(data, 8 * |data|);
    forall i | 0 <= i < |left| ensures left[i] == right[i] {
      if i < 8 {
        BitOfValue(bits, 7 - i);
        assert left[i] == BitAt(d, 8 * |data| + (7 - i));
      } else {
        var r := 8 * |data| - 1 - (i - 8);
        assert left[i] == BitAt(d, r);
        assert right[i] == BitsBelow(data, 8 * |data|)[i - 8] == BitAt(data, r);
        assert r / 8 < |data|;
      }
    }
  }

  lemma {:induction false} PackReadsBack(bits: seq<bool>)
    ensures bits <= BitsBelow(Pack(bits), 8 * |Pack(bits)|)
  {
    if bits == [] {
    } else if |bits| < 8 {
      BitsOfLastByte([], bits + seq(8 - |bits|, _ => false));
      assert [] + Pack(bits) == Pack(bits);
    } else {
      PackReadsBack(bits[8..]);
      BitsOfLastByte(Pack(bits[8..]), bits[..8]);
      assert bits == bits[..8] + bits[8..];
    }
  }

  // ----- the format in plain numbers -----

  /** A literal: a clear flag and eight bits. */
  lemma {:induction false} LiteralBits(v: byte, rest: seq<bool>)
    ensures DecodeToken([false] + Digits(v, 8) + rest) == Some(Read(Literal(v), 9))
  {
    hide TakeField, Digits;
    var bits := [false] + Digits(v, 8) + rest;
    assert bits[1..] == Digits(v, 8) + rest;
    assert Pow2(8) == 256;
    FieldInFront(v, 8, rest);
  }

  lemma {:induction false} OffsetBits(f: nat, code: seq<bool>, rest: seq<bool>, length: nat)
    requires f < 0x2000 && DecodeLength(code + rest) == Some(Read(length, |code|))
    ensures DecodeToken([true] + Digits(f, 13) + code + rest) == Some(Read(Copy(f + 3, length), 14 + |code|))
  {
    hide TakeField, Digits, DecodeLength;
    var tail := code + rest;
    var bits := [true] + Digits(f, 13) + code + rest;
    assert bits[1..] == Digits(f, 13) + tail;
    assert Pow2(13) == 0x2000;
    FieldInFront(f, 13, tail);
    assert bits[14..] == tail;
  }

  /** A shortest copy: a set flag, thirteen offset bits counted from 3 and two length bits counted
      from 3. */
  lemma {:induction false} ShortCopyBits(f: nat, l: nat, rest: seq<bool>)
    requires f < 0x2000 && l < 3
    ensures DecodeToken([true] + Digits(f, 13) + Digits(l, 2) + rest) == Some(Read(Copy(f + 3, l + 3), 16))
  {
    hide DecodeToken, Digits;
    FirstLevel(l, rest);
    OffsetBits(f, Digits(l, 2), rest, l + 3);
  }

  lemma {:induction false} FirstLevel(l: nat, rest: seq<bool>)
    requires l < 3
    ensures DecodeLength(Digits(l, 2) + rest) == Some(Read(l + 3, 2))
  {
    hide TakeField, Digits, DecodeBytes;
    assert Pow2(2) == 4;
    FieldInFront(l, 2, rest);
  }

  /** Two ones lead to three bits that count from 6. */
  lemma {:induction false} SecondLevel(l: nat, rest: seq<bool>)
    requires l < 7
    ensures DecodeLength([true, true] + Digits(l, 3) + rest) == Some(Read(l + 6, 5))
  {
    hide TakeField, Digits, DecodeBytes;
    assert Pow2(2) == 4 && Pow2(3) == 8;
    assert Ones(2) == [true, true];
    assert [true, true] + Digits(l, 3) + rest == Ones(2) + (Digits(l, 3) + rest);
    OnesInFront(2, Digits(l, 3) + rest);
    FieldInFront(l, 3, rest);
  }

  /** Five ones lead to five bits that count from 13. */
  lemma {:induction false} ThirdLevel(l: nat, rest: seq<bool>)
    requires l < 31
    ensures DecodeLength([true, true, true, true, true] + Digits(l, 5) + rest) == Some(Read(l + 13, 10))
  {
    assert Ones(2) + Ones(3) == [true, true, true, true, true];
    hide TakeField, Digits, DecodeBytes, Ones;
    var tail := Digits(l, 5) + rest;
    assert [true, true, true, true, true] + Digits(l, 5) + rest == Ones(2) + (Ones(3) + tail);
    LadderTop(tail);
    assert Pow2(5) == 32;
    FieldInFront(l, 5, rest);
  }

  /** Ten ones lead to bytes that count from 44; each 0xff adds 255 and leads to another. */
  lemma {:induction false} LastLevel(n: nat, l: nat, rest: seq<bool>)
    requires l < 255
    ensures DecodeLength(Ones(10 + 8 * n) + Digits(l, 8) + rest) == Some(Read(44 + 255 * n + l, 18 + 8 * n))
  {
    hide *;
    var tail := Ones(8 * n) + Digits(l, 8) + rest;
    FullBytes(n, l, rest);
    MoreOnes(2, 8 + 8 * n);
    MoreOnes(3, 5 + 8 * n);
    MoreOnes(5, 8 * n);
    Regroup(Ones(2), Ones(3), Ones(5), Ones(8 * n), Digits(l, 8), rest);
    LastStep(tail, 255 * n + l, 8 + 8 * n);
  }

  lemma {:induction false} MoreOnes(a: nat, b: nat)
    ensures Ones(a + b) == Ones(a) + Ones(b)
  {
  }

  lemma {:induction false} Regroup<T>(a: seq<T>, b: seq<T>, c: seq<T>, d: seq<T>, e: seq<T>, f: seq<T>)
    ensures (a + (b + (c + d))) + e + f == a + (b + (c + (d + e + f)))
  {
    assert (c + d) + e + f == c + (d + e + f);
    assert (b + (c + d)) + e + f == b + ((c + d) + e + f);
  }

  lemma {:induction false} LastStep(tail: seq<bool>, v: nat, n: nat)
    requires DecodeBytes(tail) == Some(Read(v, n))
    ensures DecodeLength(Ones(2) + (Ones(3) + (Ones(5) + tail))) == Some(Read(44 + v, 10 + n))
  {
    hide TakeField, DecodeBytes, Ones;
    var bits := Ones(2) + (Ones(3) + (Ones(5) + tail));
    LadderTop(Ones(5) + tail);
    assert Pow2(5) == 32;
    OnesInFront(5, tail);
    assert bits[10..] == bits[5..][5..] == tail;
  }

  lemma {:induction false} FullBytes(n: nat, l: nat, rest: seq<bool>)
    requires l < 255
    ensures DecodeBytes(Ones(8 * n) + Digits(l, 8) + rest) == Some(Read(255 * n + l, 8 + 8 * n))
  {
    assert Pow2(8) == 256;
    var bits := Ones(8 * n) + Digits(l, 8) + rest;
    if n == 0 {
      assert bits == Digits(l, 8) + rest;
      FieldInFront(l, 8, rest);
    } else {
      var more := Ones(8 * (n - 1)) + Digits(l, 8) + rest;
      assert Ones(8 * n) == Ones(8) + Ones(8 * (n - 1));
      assert bits == Ones(8) + more;
      hide Digits, Ones, TakeField;
      OnesInFront(8, more);
      FullBytes(n - 1, l, rest);
    }
  }

  /** The codes of the lengths at which the four levels start. */
  lemma {:induction false} LevelStarts()
    ensures EncodeLength(3) == [false, false]
    ensures EncodeLength(6) == [true, true, false, false, false]
    ensures EncodeLength(13) == [true, true, true, true, true, false, false, false, false, false]
    ensures EncodeLength(44) == Ones(10) + [false, false, false, false, false, false, false, false]
  {
    NoDigits(2);
    NoDigits(3);
    NoDigits(5);
    NoDigits(8);
    assert Ones(2) == [true, true] && Ones(2) + Ones(3) == [true, true, true, true, true];
    assert Ones(10) == Ones(2) + Ones(3) + Ones(5);
  }

  lemma {:induction false} NoDigits(n: nat)
    ensures Digits(0, n) == seq(n, _ => false)
  {
    if n > 0 {
      NoDigits(n - 1);
      assert Digits(0, n) == Digits(0, n - 1) + [false];
    }
  }

  lemma {:induction false} FirstToken(tail: seq<byte>, t: Token, more: seq<Token>)
    requires InReach(tail, t) && AllInReach(Apply(tail, t), more)
    ensures AllInReach(tail, [t] + more) && Meaning(tail, [t] + more) == Meaning(Apply(tail, t), more)
    ensures TotalLength([t] + more) == TokenLength(t) + TotalLength(more)
  {
    hide Apply, InReach;
    var ts := [t] + more;
    assert ts[0] == t && ts[1..] == more;
  }

  lemma {:induction false} ThreeBytesBack()
    ensures CopyFront([4, 3, 2, 1], 3, 3) == [4, 3, 2, 4, 3, 2, 1]
  {
    var tail: seq<byte> := [4, 3, 2, 1];
    assert CopyFront(tail, 3, 3) == CopyFront([2] + tail, 3, 2);
    assert CopyFront([2] + tail, 3, 2) == CopyFront([3] + ([2] + tail), 3, 1);
    assert CopyFront([3] + ([2] + tail), 3, 1) == [4] + ([3] + ([2] + tail));
  }

  function ExampleTokens(): seq<Token> {
    [Literal(1)] + ([Literal(2)] + ([Literal(3)] + ([Literal(4)] + ([Copy(3, 3)] + ([Literal(9)] + [])))))
  }

  /** Four literals, a copy of three bytes from three places further on, and a literal. */
  lemma {:induction false} CopyExample()
    ensures AllInReach([], ExampleTokens()) && TotalLength(ExampleTokens()) == 8
    ensures Meaning([], ExampleTokens()) == [9, 4, 3, 2, 4, 3, 2, 1]
  {
    var copied, all: seq<byte> := [4, 3, 2, 4, 3, 2, 1], [9, 4, 3, 2, 4, 3, 2, 1];
    NoTokens(all);
    ThreeBytesBack();
    assert [9] + copied == all && [4] + [3, 2, 1] == [4, 3, 2, 1] && [3] + [2, 1] == [3, 2, 1];
    hide CopyFront, AllInReach, Meaning, TotalLength;
    FirstToken(copied, Literal(9), []);
    FirstToken([4, 3, 2, 1], Copy(3, 3), [Literal(9)] + []);
    var t2 := [Copy(3, 3)] + ([Literal(9)] + []);
    FirstToken([3, 2, 1], Literal(4), t2);
    FirstToken([2, 1], Literal(3), [Literal(4)] + t2);
    assert [2] + [1] == [2, 1];
    FirstToken([1], Literal(2), [Literal(3)] + ([Literal(4)] + t2));
    assert Apply([], Literal(1)) == [1];
    FirstToken([], Literal(1), [Literal(2)] + ([Literal(3)] + ([Literal(4)] + t2)));
  }

  /** A literal in front of more bits. */
  function LiteralCode(v: byte, rest: seq<bool>): seq<bool> {
    [false] + Digits(v, 8) + rest
  }

  /** A copy with two length bits in front of more bits. */
  function CopyCode(f: nat, l: nat, rest: seq<bool>): seq<bool> {
    [true] + Digits(f, 13) + Digits(l, 2) + rest
  }

  lemma {:induction false} LiteralFirst(v: byte, rest: seq<bool>, size: nat, tail: seq<byte>)
    requires size > 0
    ensures Expand(LiteralCode(v, rest), size, tail) == Expand(rest, size - 1, [v] + tail)
  {
    hide DecodeToken, Digits, Expand;
    var bits := LiteralCode(v, rest);
    LiteralBits(v, rest);
    assert bits[9..] == rest;
    ExpandOne(bits, size, tail, Literal(v), 9);
  }

  lemma {:induction false} CopyFirst(f: nat, l: nat, rest: seq<bool>, size: nat, tail: seq<byte>)
    requires f < 0x2000 && l < 3 && l + 3 <= size && f + 3 <= |tail|
    ensures Expand(CopyCode(f, l, rest), size, tail) == Expand(rest, size - (l + 3), CopyFront(tail, f + 3, l + 3))
  {
    hide DecodeToken, Digits, Expand, CopyFront;
    var bits := CopyCode(f, l, rest);
    ShortCopyBits(f, l, rest);
    assert bits[16..] == rest;
    ExpandOne(bits, size, tail, Copy(f + 3, l + 3), 16);
  }

  /** The same content as bits: the decoder reads four literals, a copy with offset and length bits
      all zero, and a literal. */
  lemma {:induction false} ExampleExpands(rest: seq<bool>)
    ensures Expand(LiteralCode(1, LiteralCode(2, LiteralCode(3, LiteralCode(4, CopyCode(0, 0, LiteralCode(9, rest)))))),
              8, []) == Some([9, 4, 3, 2, 4, 3, 2, 1])
  {
    ThreeBytesBack();
    hide *;
    var b6 := LiteralCode(9, rest);
    var b5 := CopyCode(0, 0, b6);
    var b4 := LiteralCode(4, b5);
    var b3 := LiteralCode(3, b4);
    var b2 := LiteralCode(2, b3);
    LiteralFirst(1, b2, 8, []);
    LiteralFirst(2, b3, 7, [1] + []);
    LiteralFirst(3, b4, 6, [2] + ([1] + []));
    LiteralFirst(4, b5, 5, [3] + ([2] + ([1] + [])));
    var tail: seq<byte> := [4] + ([3] + ([2] + ([1] + [])));
    assert tail == [4, 3, 2, 1];
    CopyFirst(0, 0, b6, 4, tail);
    LiteralFirst(9, rest, 1, [4, 3, 2, 4, 3, 2, 1]);
    ExpandNothing(rest, [9] + [4, 3, 2, 4, 3, 2, 1]);
    assert [9] + [4, 3, 2, 4, 3, 2, 1] == [9, 4, 3, 2, 4, 3, 2, 1];
  }
}
