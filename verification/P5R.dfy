/** Persona 5 Royal's file transform: bytes [0x20, 0x420) are XORed with [0x420, 0x820). */
module P5R {
  import opened BitOps

  const MINIMUM_SIZE := 0x820

  function XorByte(x: byte, y: byte): (r: byte) {
    assert Pow2(8) == 256;
    XorBound(x, y, 8);
    Xor(x, y)
  }

  /** Each bit of the result tells whether the two bits differ. */
  lemma {:induction false} XorByteBits(x: byte, y: byte, i: nat)
    requires i < 8
    ensures Bit(XorByte(x, y), i) <==> Bit(x, i) != Bit(y, i)
  {
    XorBit(x, y, i);
  }

  /** The transform on a whole file; files too short to hold both windows are left alone. */
  function Transform(data: seq<byte>): (r: seq<byte>)
    ensures |r| == |data|
  {
    if |data| < MINIMUM_SIZE then data
    else data[..0x20] + XorFront(data[0x20..0x420], data[0x420..0x820]) + data[0x420..]
  }

  function XorFront(front: seq<byte>, back: seq<byte>): (r: seq<byte>)
    requires |front| == |back|
    ensures |r| == |front|
  {
    seq(|front|, i requires 0 <= i < |front| => XorByte(front[i], back[i]))
  }

  lemma {:induction false} XorFrontTwice(front: seq<byte>, back: seq<byte>)
    requires |front| == |back|
    ensures XorFront(XorFront(front, back), back) == front
  {
    forall i | 0 <= i < |front| ensures XorFront(XorFront(front, back), back)[i] == front[i] {
      XorInvolution(front[i], back[i]);
    }
  }

  /** The three parts of a transformed file. */
  lemma {:induction false} TransformParts(data: seq<byte>)
    requires |data| >= MINIMUM_SIZE
    ensures var r := Transform(data);
      && r[..0x20] == data[..0x20] && r[0x420..] == data[0x420..] && r[0x420..0x820] == data[0x420..0x820]
      && r[0x20..0x420] == XorFront(data[0x20..0x420], data[0x420..0x820])
  {
    hide XorFront;
    var r, mid := Transform(data), XorFront(data[0x20..0x420], data[0x420..0x820]);
    assert r == data[..0x20] + mid + data[0x420..];
    assert r[0x420..] == data[0x420..];
    assert r[0x420..0x820] == r[0x420..][..0x400] && data[0x420..0x820] == data[0x420..][..0x400];
  }

  /** Applying the transform twice gives the file back. */
  lemma {:induction false} TransformInvolution(data: seq<byte>)
    ensures Transform(Transform(data)) == data
  {
    if |data| >= MINIMUM_SIZE {
      var once := Transform(data);
      var twice := Transform(once);
      TransformParts(data);
      TransformParts(once);
      XorFrontTwice(data[0x20..0x420], data[0x420..0x820]);
      hide *;
      ThreeParts(data);
      ThreeParts(twice);
    }
  }

  lemma {:induction false} ThreeParts(data: seq<byte>)
    requires |data| >= MINIMUM_SIZE
    ensures data == data[..0x20] + data[0x20..0x420] + data[0x420..]
  {
  }

  /** Files the transform leaves alone: too short, or nothing but zeros in the key window. */
  predicate Unmoved(data: seq<byte>) {
    |data| < MINIMUM_SIZE || forall i :: 0x420 <= i < 0x820 ==> data[i] == 0
  }

  lemma {:induction false} TransformAt(data: seq<byte>, i: nat)
    requires |data| >= MINIMUM_SIZE && 0x20 <= i < 0x420
    ensures Transform(data)[i] == XorByte(data[i], data[i + 0x400])
  {
    TransformParts(data);
    hide Transform;
    assert Transform(data)[i] == Transform(data)[0x20..0x420][i - 0x20];
  }

  /** The transform, bit by bit and in plain numbers: in files of at least 0x820 bytes the bits of
      byte i of [0x20, 0x420) are flipped where byte i + 0x400 has ones; every other byte, and every
      shorter file, stays. */
  lemma {:induction false} TransformBits(data: seq<byte>, i: nat, b: nat)
    requires i < |data| && b < 8
    ensures |Transform(data)| == |data|
    ensures |data| >= 0x820 && 0x20 <= i < 0x420 ==>
              (Bit(Transform(data)[i], b) <==> Bit(data[i], b) != Bit(data[i + 0x400], b))
    ensures |data| < 0x820 || i < 0x20 || i >= 0x420 ==> Transform(data)[i] == data[i]
  {
    if |data| >= 0x820 {
      if 0x20 <= i < 0x420 {
        TransformAt(data, i);
        XorByteBits(data[i], data[i + 0x400], b);
      } else {
        TransformParts(data);
        var r := Transform(data);
        hide Transform;
        assert i < 0x20 ==> r[i] == r[..0x20][i] && data[i] == data[..0x20][i];
        assert i >= 0x420 ==> r[i] == r[0x420..][i - 0x420] && data[i] == data[0x420..][i - 0x420];
      }
    }
  }

  /** The transform changes a file exactly when the file is long enough and its key window holds a
      nonzero byte. */
  lemma {:induction false} TransformFixes(data: seq<byte>)
    ensures Transform(data) == data <==> Unmoved(data)
  {
    if |data| >= MINIMUM_SIZE {
      forall i | 0x20 <= i < 0x420 ensures Transform(data)[i] == data[i] <==> data[i + 0x400] == 0 {
        TransformAt(data, i);
        XorFixes(data[i], data[i + 0x400]);
      }
      TransformParts(data);
      FixedByParts(data, Transform(data));
    }
  }

  lemma {:induction false} FixedByParts(data: seq<byte>, r: seq<byte>)
    requires |data| == |r| >= MINIMUM_SIZE && r[..0x20] == data[..0x20] && r[0x420..] == data[0x420..]
    requires forall i :: 0x20 <= i < 0x420 ==> (r[i] == data[i] <==> data[i + 0x400] == 0)
    ensures r == data <==> Unmoved(data)
  {
    if Unmoved(data) {
      forall i | 0 <= i < |data| ensures r[i] == data[i] {
        if i < 0x20 {
          assert r[i] == r[..0x20][i] && data[i] == data[..0x20][i];
        } else if i >= 0x420 {
          assert r[i] == r[0x420..][i - 0x420] && data[i] == data[0x420..][i - 0x420];
        } else {
          var k := i + 0x400;
          assert data[k] == 0;
        }
      }
    } else {
      var i :| 0x420 <= i < 0x820 && data[i] != 0;
      assert r[i - 0x400] != data[i - 0x400];
    }
  }

  /** The code path the compiler selects. The scalar form does its work only on x86_64. */
  datatype Target = Avx2 | Sse3 | Neon | ScalarX64 | ScalarElsewhere

  /** The first n bytes of the window have been transformed. */
  ghost predicate Partly(now: seq<byte>, before: seq<byte>, n: nat) {
    && |now| == |before| && |before| >= MINIMUM_SIZE && n <= 0x400
    && (forall i :: 0x20 <= i < 0x20 + n ==> now[i] == XorByte(before[i], before[i + 0x400]))
    && (forall i :: 0 <= i < |now| && !(0x20 <= i < 0x20 + n) ==> now[i] == before[i])
  }

  lemma {:induction false} Completely(now: seq<byte>, before: seq<byte>)
    requires Partly(now, before, 0x400)
    ensures now == Transform(before)
  {
    var t := Transform(before);
    forall i | 0 <= i < |now| ensures now[i] == t[i] {
      if 0x20 <= i < 0x420 {
        assert t[i] == XorFront(before[0x20..0x420], before[0x420..0x820])[i - 0x20];
      }
    }
  }

  /** Load a block and its partner, store their XOR: one vector or word operation. */
  method XorBlock(a: array<byte>, done: nat, width: nat, ghost before: seq<byte>)
    requires Partly(a[..], before, done) && done + width <= 0x400
    modifies a
    ensures Partly(a[..], before, done + width)
  {
    forall k | 0 <= k < width {
      a[0x20 + done + k] := XorByte(a[0x20 + done + k], a[0x420 + done + k]);
    }
  }

  method DecryptAvx2(a: array<byte>)
    requires a.Length >= MINIMUM_SIZE
    modifies a
    ensures a[..] == Transform(old(a[..]))
  {
    ghost var before := a[..];
    for i := 0 to 0x20
      invariant Partly(a[..], before, 32 * i)
    {
      XorBlock(a, 32 * i, 32, before);
    }
    Completely(a[..], before);
  }

  method DecryptSse3(a: array<byte>)
    requires a.Length >= MINIMUM_SIZE
    modifies a
    ensures a[..] == Transform(old(a[..]))
  {
    ghost var before := a[..];
    for i := 0 to 0x40
      invariant Partly(a[..], before, 16 * i)
    {
      XorBlock(a, 16 * i, 16, before);
    }
    Completely(a[..], before);
  }

  method DecryptU64(a: array<byte>)
    requires a.Length >= MINIMUM_SIZE
    modifies a
    ensures a[..] == Transform(old(a[..]))
  {
    ghost var before := a[..];
    for i := 0 to 0x80
      invariant Partly(a[..], before, 8 * i)
    {
      XorBlock(a, 8 * i, 8, before);
    }
    Completely(a[..], before);
  }

  /** What packing and extraction do to a marked file on each target. */
  function TransformOn(target: Target, data: seq<byte>): (r: seq<byte>)
    ensures |r| == |data|
  {
    if target.ScalarElsewhere? then data else Transform(data)
  }

  /** The 8-, 16- and 32-byte forms are the same transform; where the scalar form is compiled
      out, marked files pass through unchanged. */
  method DecryptInPlace(a: array<byte>, target: Target)
    modifies a
    ensures a[..] == TransformOn(target, old(a[..]))
  {
    if a.Length < MINIMUM_SIZE { return; }
    match target
    case Avx2 => DecryptAvx2(a);
    case Sse3 => DecryptSse3(a);
    case Neon => DecryptSse3(a);
    case ScalarX64 => DecryptU64(a);
    case ScalarElsewhere =>
  }
}
