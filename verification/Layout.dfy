/** Alignment arithmetic of the writer (mask) and the reader (remainder), and the payload layout
    both sides derive from it. */
module Layout {
  import opened BitOps
  import opened Wrappers

  /** Least multiple of `a` that is at least v. */
  function Up(v: nat, a: nat): (r: nat)
    requires a > 0
    ensures v <= r < v + a
  {
    if v % a == 0 then v else v + (a - v % a)
  }

  predicate Aligned(v: nat, a: nat) {
    a > 0 && v % a == 0
  }

  predicate IsPowerOfTwo(a: nat) {
    a == 1 || (a > 0 && a % 2 == 0 && IsPowerOfTwo(a / 2))
  }

  lemma {:induction false} Exponent(a: nat) returns (k: nat)
    requires IsPowerOfTwo(a)
    ensures a == Pow2(k)
  {
    if a == 1 {
      k := 0;
    } else {
      k := Exponent(a / 2);
      k := k + 1;
    }
  }

  lemma {:induction false} UpIsAligned(v: nat, a: nat)
    requires a > 0
    ensures Aligned(Up(v, a), a)
  {
    var q := v / a;
    assert v == q * a + v % a;
    if v % a != 0 {
      DivModUnique(Up(v, a), a, q + 1, 0);
    }
  }

  /** An aligned base can be moved out of the rounding. */
  lemma {:induction false} UpFromAligned(c: nat, v: nat, a: nat)
    requires Aligned(c, a)
    ensures Up(c + v, a) == c + Up(v, a)
  {
    var p, q := c / a, v / a;
    assert c == p * a && v == q * a + v % a;
    assert (p + q) * a == p * a + q * a;
    DivModUnique(c + v, a, p + q, v % a);
  }

  lemma {:induction false} AlignedSum(c: nat, v: nat, a: nat)
    requires Aligned(c, a) && Aligned(v, a)
    ensures Aligned(c + v, a)
  {
    UpFromAligned(c, v, a);
    UpIsAligned(c + v, a);
  }

  // ----- the writer's mask and the reader's remainder -----

  /** `value.checked_add(mask)? & !mask` on 64 bits. */
  function WriterAlignUp(value: nat, alignment: nat): Option<nat>
    requires alignment >= 1
  {
    var mask := alignment - 1;
    if value + mask > U64_MAX then None
    else Some(And(value + mask, U64_MAX - mask))
  }

  function ReaderAlignUp(value: nat, alignment: nat): Option<nat> {
    if alignment <= 1 then Some(value)
    else
      var remainder := value % alignment;
      if remainder == 0 then Some(value)
      else if value + (alignment - remainder) > U64_MAX then None
      else Some(value + (alignment - remainder))
  }

  /** Adding a-1 and dropping the remainder rounds up. */
  lemma {:induction false} RoundByDropping(v: nat, a: nat)
    requires a > 0
    ensures v + (a - 1) - (v + (a - 1)) % a == Up(v, a)
  {
    var q, r := v / a, v % a;
    assert v == q * a + r;
    assert (q + 1) * a == q * a + a;
    if r == 0 {
      DivModUnique(v + (a - 1), a, q, a - 1);
    } else {
      DivModUnique(v + (a - 1), a, q + 1, r - 1);
    }
  }

  /** For every power of two the mask rounds up to the next multiple. */
  lemma {:induction false} MaskRoundsUp(v: nat, a: nat)
    requires IsPowerOfTwo(a) && a <= U16_MAX
    ensures v + (a - 1) <= U64_MAX ==> WriterAlignUp(v, a) == Some(Up(v, a))
    ensures v + (a - 1) > U64_MAX ==> WriterAlignUp(v, a) == None
  {
    hide *;
    var k := Exponent(a);
    ExponentBound(k);
    if v + (a - 1) <= U64_MAX {
      MaskDrops(v + (a - 1), k, a);
      RoundByDropping(v, a);
    }
    WriterAlignIs(v, a);
  }

  lemma {:induction false} WriterAlignIs(v: nat, a: nat)
    requires a >= 1
    ensures v + (a - 1) <= U64_MAX ==> WriterAlignUp(v, a) == Some(And(v + (a - 1), U64_MAX - (a - 1)))
    ensures v + (a - 1) > U64_MAX ==> WriterAlignUp(v, a) == None
  {
    hide And;
  }

  lemma {:induction false} MaskDrops(x: nat, k: nat, a: nat)
    requires a == Pow2(k) && k <= 64 && x <= U64_MAX && a - 1 <= U64_MAX && a >= 1
    ensures And(x, U64_MAX - (a - 1)) == x - x % a
  {
    hide And, Pow2, Low, Shr, Shl;
    FullWord();
    AndNotMask(x, k, 64);
    ShiftBy(x, k, a);
  }

  lemma {:induction false} FullWord()
    ensures Pow2(64) == U64_MAX + 1
  {
    assert Pow2(8) == 0x100;
    assert Pow2(16) == 0x1_0000;
    assert Pow2(24) == 0x100_0000;
    assert Pow2(32) == 0x1_0000_0000;
    assert Pow2(40) == 0x100_0000_0000;
    assert Pow2(48) == 0x1_0000_0000_0000;
    assert Pow2(56) == 0x100_0000_0000_0000;
  }

  lemma {:induction false} ExponentBound(k: nat)
    requires Pow2(k) <= U16_MAX
    ensures k <= 64 && U16_MAX < U64_MAX
  {
    if k > 64 {
      Pow2Monotonic(64, k);
      FullWord();
    }
  }

  lemma {:induction false} RemainderRoundsUp(v: nat, a: nat)
    requires a > 0 && Up(v, a) <= U64_MAX
    ensures ReaderAlignUp(v, a) == Some(Up(v, a))
  {
    if a == 1 {
      assert v % 1 == 0;
    }
  }

  // ----- payload starts -----

  /** Where payload k starts: each earlier payload takes its size rounded up. */
  function Start(sizes: seq<nat>, base: nat, a: nat, k: nat): (s: nat)
    requires k <= |sizes| && a > 0
    ensures s >= base
  {
    if k == 0 then base else Start(sizes, base, a, k - 1) + Up(sizes[k - 1], a)
  }

  lemma {:induction false} StartAligned(sizes: seq<nat>, base: nat, a: nat, k: nat)
    requires k <= |sizes| && Aligned(base, a)
    ensures Aligned(Start(sizes, base, a, k), a)
  {
    if k > 0 {
      StartAligned(sizes, base, a, k - 1);
      UpIsAligned(sizes[k - 1], a);
      AlignedSum(Start(sizes, base, a, k - 1), Up(sizes[k - 1], a), a);
    }
  }

  /** The writer's absolute cursor makes the same step: rounding the end of a payload. */
  lemma {:induction false} CursorStep(sizes: seq<nat>, base: nat, a: nat, k: nat)
    requires k < |sizes| && Aligned(base, a)
    ensures Up(Start(sizes, base, a, k) + sizes[k], a) == Start(sizes, base, a, k + 1)
  {
    StartAligned(sizes, base, a, k);
    UpFromAligned(Start(sizes, base, a, k), sizes[k], a);
  }

  /** Payload ranges follow one another without overlapping. */
  lemma {:induction false} StartsOrdered(sizes: seq<nat>, base: nat, a: nat, i: nat, j: nat)
    requires i < j <= |sizes| && a > 0
    ensures Start(sizes, base, a, i) + sizes[i] <= Start(sizes, base, a, j)
  {
    if i < j - 1 {
      StartsOrdered(sizes, base, a, i, j - 1);
    }
  }

  lemma {:induction false} StartShift(sizes: seq<nat>, base: nat, a: nat, k: nat)
    requires k <= |sizes| && a > 0
    ensures Start(sizes, base, a, k) == base + Start(sizes, 0, a, k)
  {
    if k > 0 {
      StartShift(sizes, base, a, k - 1);
    }
  }
}
