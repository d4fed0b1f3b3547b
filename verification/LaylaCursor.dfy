/** The compressed part of a CriLAYLA file is one string of bits read from its end:
    last byte first, highest bit of each byte first. */
module BitStream {
  import opened BitOps

  /** Bit number r, counted from the lowest bit of the first byte. */
  predicate BitAt(data: seq<byte>, r: nat)
    requires r < 8 * |data|
  {
    Bit(data[r / 8], r % 8)
  }

  /** The r bits below the cursor in reading order. */
  function BitsBelow(data: seq<byte>, r: nat): (bits: seq<bool>)
    requires r <= 8 * |data|
    ensures |bits| == r
  {
    seq(r, i requires 0 <= i < r => BitAt(data, r - 1 - i))
  }

  /** The number whose binary digits are `bits`, most significant first. */
  function Value(bits: seq<bool>): nat {
    if bits == [] then 0
    else 2 * Value(bits[..|bits| - 1]) + (if bits[|bits| - 1] then 1 else 0)
  }

  /** The next n bits as a number: what n single-bit reads put together. */
  function Take(data: seq<byte>, r: nat, n: nat): nat
    requires n <= r <= 8 * |data|
  {
    Value(BitsBelow(data, r)[..n])
  }

  lemma {:induction false} AfterReading(data: seq<byte>, r: nat, n: nat)
    requires n <= r <= 8 * |data|
    ensures BitsBelow(data, r)[n..] == BitsBelow(data, r - n)
  {
  }

  /** One more single-bit read. */
  lemma {:induction false} TakeOneMore(data: seq<byte>, r: nat, n: nat)
    requires n < r <= 8 * |data|
    ensures Take(data, r, n + 1) == 2 * Take(data, r, n) + (if BitAt(data, r - n - 1) then 1 else 0)
  {
    var bits := BitsBelow(data, r);
    assert bits[..n + 1][..n] == bits[..n];
  }

  lemma {:induction false} ValueConcat(a: seq<bool>, b: seq<bool>)
    ensures Value(a + b) == Shl(Value(a), |b|) + Value(b)
  {
    if b == [] {
      assert a + b == a;
    } else {
      var b' := b[..|b| - 1];
      assert (a + b)[..|a + b| - 1] == a + b';
      ValueConcat(a, b');
    }
  }

  lemma {:induction false} ValueBound(bits: seq<bool>)
    ensures Value(bits) < Pow2(|bits|)
  {
    if bits != [] {
      ValueBound(bits[..|bits| - 1]);
    }
  }

  /** Reading m bits and then n bits is reading m+n bits. */
  lemma {:induction false} TakeConcat(data: seq<byte>, r: nat, m: nat, n: nat)
    requires m + n <= r <= 8 * |data|
    ensures Take(data, r, m + n) == Shl(Take(data, r, m), n) + Take(data, r - m, n)
    ensures Take(data, r - m, n) < Pow2(n)
  {
    var bits := BitsBelow(data, r);
    AfterReading(data, r, m);
    assert bits[..m + n] == bits[..m] + bits[m..][..n];
    ValueConcat(bits[..m], bits[m..][..n]);
    ValueBound(bits[m..][..n]);
  }

  /** Bits taken inside one byte are that byte shifted down and masked. */
  lemma {:induction false} TakeInByte(data: seq<byte>, c: nat, have: nat, n: nat)
    requires c < |data| && n <= have <= 8
    ensures Take(data, 8 * c + have, n) == Low(Shr(data[c], have - n), n)
  {
    if n == 0 {
      assert Take(data, 8 * c + have, 0) == 0;
    } else {
      var x, k := data[c] as nat, have - n;
      hide Take, Bit, Low, Shr, BitAt;
      TakeInByte(data, c, have, n - 1);
      TakeOneMore(data, 8 * c + have, n - 1);
      ShrBit(x, k);
      BitInByte(data, c, k);
      LowStep(Shr(x, k), n);
    }
  }

  lemma {:induction false} LowStep(y: nat, n: nat)
    requires n > 0
    ensures Low(y, n) == y % 2 + 2 * Low(y / 2, n - 1)
  {
  }

  lemma {:induction false} BitInByte(data: seq<byte>, c: nat, i: nat)
    requires c < |data| && i < 8
    ensures BitAt(data, 8 * c + i) == Bit(data[c], i)
  {
    assert (8 * c + i) / 8 == c && (8 * c + i) % 8 == i;
  }
}

/** `LaylaDecompressorCursor`: five hand-unrolled readers over that bit string. */
module LaylaCursor {
  import opened BitOps
  import opened BitStream

  /** The table the readers index for a mask of n ones. */
  const BIT_MASK: seq<nat> :=
    [0x0000, 0x0001, 0x0003, 0x0007, 0x000f, 0x001f, 0x003f, 0x007f,
     0x00ff, 0x01ff, 0x03ff, 0x07ff, 0x0fff, 0x1fff, 0x3fff, 0x7fff]

  lemma {:induction false} MaskIsOnes(n: nat)
    requires n <= 8
    ensures BIT_MASK[n] == Pow2(n) - 1
  {
    assert Pow2(8) == 256 && Pow2(7) == 128 && Pow2(6) == 64 && Pow2(5) == 32;
    assert Pow2(4) == 16 && Pow2(3) == 8 && Pow2(2) == 4 && Pow2(1) == 2;
  }

  /** `(byte >> (have - n)) & BIT_MASK[n]`: the top n of the `have` unread bits of a byte. */
  function Field(b: byte, have: nat, n: nat): nat
    requires n <= have <= 8
  {
    And(Shr(b, have - n), BIT_MASK[n])
  }

  lemma {:induction false} FieldIsTake(data: seq<byte>, c: nat, have: nat, n: nat)
    requires c < |data| && n <= have <= 8
    ensures Field(data[c], have, n) == Take(data, 8 * c + have, n)
  {
    MaskIsOnes(n);
    AndMask(Shr(data[c], have - n), n);
    TakeInByte(data, c, have, n);
  }

  /** All unread bits of a byte: no shift is needed. */
  lemma {:induction false} RestOfByte(data: seq<byte>, c: nat, have: nat)
    requires c < |data| && have <= 8
    ensures And(data[c], BIT_MASK[have]) == Take(data, 8 * c + have, have)
  {
    FieldIsTake(data, c, have, have);
  }

  /** A shift inside a word loses nothing while the joined value fits the word. */
  lemma {:induction false} ShiftFits(data: seq<byte>, r: nat, m: nat, n: nat, width: nat)
    requires m + n <= r <= 8 * |data| && m + n <= width
    ensures ShlW(Take(data, r, m), n, width) == Shl(Take(data, r, m), n)
  {
    var x := Take(data, r, m);
    ValueBound(BitsBelow(data, r)[..m]);
    ShlBound(x, m, n);
    Pow2Monotonic(m + n, width);
    LowOfSmall(Shl(x, n), width);
  }

  /** Shifting the m bits read so far up and OR-ing in the next n joins the two reads. */
  lemma {:induction false} ReadOn(data: seq<byte>, r: nat, m: nat, c: nat, have: nat, n: nat, width: nat)
    requires c < |data| && n <= have <= 8 && r == 8 * c + have + m <= 8 * |data|
    requires m + n <= width
    ensures Or(ShlW(Take(data, r, m), n, width), Field(data[c], have, n)) == Take(data, r, m + n)
  {
    FieldIsTake(data, c, have, n);
    ShiftFits(data, r, m, n, width);
    TakeConcat(data, r, m, n);
    OrDisjoint(Take(data, r, m), Take(data, r - m, n), n);
  }

  lemma {:induction false} TakeWord(data: seq<byte>, r: nat, n: nat)
    requires n <= r <= 8 * |data|
    ensures Take(data, r, n) < Pow2(n)
  {
    ValueBound(BitsBelow(data, r)[..n]);
  }

  class Cursor {
    const data: seq<byte>
    var cdata: nat
    var bitsLeft: nat

    ghost predicate Valid()
      reads this
    {
      bitsLeft <= 7 && 8 * cdata + bitsLeft <= 8 * |data|
    }

    ghost function Remaining(): (r: nat)
      reads this
    {
      8 * cdata + bitsLeft
    }

    constructor (data: seq<byte>)
      ensures Valid() && this.data == data && Remaining() == 8 * |data|
    {
      this.data := data;
      cdata, bitsLeft := |data|, 0;
    }

    method Read1() returns (bit: bool)
      requires Valid() && Remaining() >= 1
      modifies this
      ensures Valid() && Remaining() == old(Remaining()) - 1
      ensures (if bit then 1 else 0) == Take(data, old(Remaining()), 1)
      ensures bit == BitsBelow(data, old(Remaining()))[0]
    {
      if bitsLeft != 0 {
        bitsLeft := bitsLeft - 1;
      } else {
        cdata := cdata - 1;
        bitsLeft := 7;
      }
      bit := And(Shr(data[cdata], bitsLeft), 1) != 0;
      AndMask(Shr(data[cdata], bitsLeft), 1);
      assert Pow2(1) == 2;
      TakeInByte(data, cdata, bitsLeft + 1, 1);
      TakeOneMore(data, Remaining() + 1, 0);
    }

    method Read2() returns (res: nat)
      requires Valid() && Remaining() >= 2
      modifies this
      ensures Valid() && Remaining() == old(Remaining()) - 2
      ensures res == Take(data, old(Remaining()), 2)
    {
      hide Take, Or, ShlW, Pow2, BitsBelow;
      var newByte := bitsLeft == 0;
      if bitsLeft >= 2 || newByte {
        bitsLeft := if newByte then 6 else bitsLeft - 2;
        cdata := cdata - (if newByte then 1 else 0);
        res := And(Shr(data[cdata], bitsLeft), 3);
        FieldIsTake(data, cdata, bitsLeft + 2, 2);
        return;
      }
      res := Or(ShlW(And(data[cdata], 1), 1, 8), Shr(data[cdata - 1], 7));
      RestOfByte(data, cdata, 1);
      TopBit(data[cdata - 1]);
      ReadOn(data, Remaining(), 1, cdata - 1, 8, 1, 8);
      bitsLeft := 7;
      cdata := cdata - 1;
    }

    method Read8() returns (res: nat)
      requires Valid() && Remaining() >= 8
      modifies this
      ensures Valid() && Remaining() == old(Remaining()) - 8
      ensures res == Take(data, old(Remaining()), 8) < Pow2(8)
    {
      hide Take, Field, Or, ShlW, And, Pow2, BitsBelow;
      TakeWord(data, Remaining(), 8);
      cdata := cdata - 1;
      if bitsLeft != 0 {
        var extra := 8 - bitsLeft;
        RestOfByte(data, cdata + 1, bitsLeft);
        ReadOn(data, Remaining() + 8, bitsLeft, cdata, 8, extra, 8);
        res := Or(ShlW(And(data[cdata + 1], BIT_MASK[bitsLeft]), extra, 8), Field(data[cdata], 8, extra));
      } else {
        FieldIsTake(data, cdata, 8, 8);
        WholeByte(data[cdata]);
        res := data[cdata];
      }
    }

    method Read13() returns (res: nat)
      requires Valid() && Remaining() >= 13
      modifies this
      ensures Valid() && Remaining() == old(Remaining()) - 13
      ensures res == Take(data, old(Remaining()), 13)
    {
      hide Take, Field, Or, ShlW, Pow2, And;
      ghost var r := Remaining();
      if bitsLeft == 0 {
        cdata := cdata - 1;
        bitsLeft := 8;
      }
      assert Remaining() == r && 1 <= bitsLeft <= 8;
      var c, bits := cdata, 13 - bitsLeft;
      RestOfByte(data, c, bitsLeft);
      res := And(data[c], BIT_MASK[bitsLeft]);
      c := c - 1;
      var bitRound := if bits <= 8 then bits else 8;
      ReadOn(data, r, 13 - bits, c, 8, bitRound, 32);
      res := Or(ShlW(res, bitRound, 32), Field(data[c], 8, bitRound));
      bits := bits - bitRound;
      assert res == Take(data, r, 13 - bits) && 8 * c + 8 - bitRound == r - (13 - bits);
      if bits == 0 {
        cdata, bitsLeft := c, 8 - bitRound;
        return;
      }
      c := c - 1;
      ReadOn(data, r, 13 - bits, c, 8, bits, 32);
      res := Or(ShlW(res, bits, 32), Field(data[c], 8, bits));
      cdata, bitsLeft := c, 8 - bits;
    }

    method ReadMax8(n: nat) returns (res: nat)
      requires Valid() && 1 <= n <= 7 && Remaining() >= n
      modifies this
      ensures Valid() && Remaining() == old(Remaining()) - n
      ensures res == Take(data, old(Remaining()), n)
    {
      hide Field, Or, ShlW, Pow2, And;
      ghost var r := Remaining();
      var bits := n;
      cdata := cdata - (if bitsLeft == 0 then 1 else 0);
      if bitsLeft == 0 { bitsLeft := 8; }
      res := 0;
      var round := 0;
      while round < 2
        invariant 0 <= round <= 1
        invariant 1 <= bits <= n && 1 <= bitsLeft <= 8
        invariant Remaining() == r - (n - bits) >= bits
        invariant res == Take(data, r, n - bits)
        invariant round == 1 ==> bitsLeft == 8
      {
        var bitRound := if bits <= bitsLeft then bits else bitsLeft;
        ReadOn(data, r, n - bits, cdata, bitsLeft, bitRound, 8);
        res := Or(ShlW(res, bitRound, 8), Field(data[cdata], bitsLeft, bitRound));
        bits := bits - bitRound;
        assert res == Take(data, r, n - bits);
        if bits == 0 {
          bitsLeft := bitsLeft - bitRound;
          return;
        }
        cdata := cdata - 1;
        bitsLeft := 8;
        round := round + 1;
      }
    }
  }

  lemma {:induction false} TopBit(b: byte)
    ensures Shr(b, 7) == Field(b, 8, 1)
  {
    ShrOfByte(b, 7, 1);
    AndMask(Shr(b, 7), 1);
    LowOfSmall(Shr(b, 7), 1);
  }

  lemma {:induction false} WholeByte(b: byte)
    ensures b == Field(b, 8, 8)
  {
    MaskIsOnes(8);
    AndMask(b, 8);
    LowOfSmall(b, 8);
  }

  lemma {:induction false} ShrOfByte(x: nat, k: nat, n: nat)
    requires x < Pow2(k + n)
    ensures Shr(x, k) < Pow2(n)
  {
    if k > 0 {
      ShrOfByte(x / 2, k - 1, n);
    }
  }
}
