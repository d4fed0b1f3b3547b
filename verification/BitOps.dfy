/** Bitwise operators on natural numbers, defined bit by bit, and the facts that turn
    masks, shifts and disjoint ORs into division, remainder and addition. */
module BitOps {

  type byte = x: int | 0 <= x < 0x100
  type u16 = x: int | 0 <= x < 0x1_0000
  type u32 = x: int | 0 <= x < 0x1_0000_0000
  type u64 = x: int | 0 <= x < 0x1_0000_0000_0000_0000

  const U16_MAX := 0xffff
  const U32_MAX := 0xffff_ffff
  const U64_MAX := 0xffff_ffff_ffff_ffff

  function Pow2(n: nat): (p: nat)
    ensures p >= 1
  {
    if n == 0 then 1 else 2 * Pow2(n - 1)
  }

  predicate Bit(x: nat, i: nat) {
    if i == 0 then x % 2 == 1 else Bit(x / 2, i - 1)
  }

  function And(x: nat, y: nat): nat {
    if x == 0 || y == 0 then 0
    else (if x % 2 == 1 && y % 2 == 1 then 1 else 0) + 2 * And(x / 2, y / 2)
  }

  function Or(x: nat, y: nat): nat {
    if x == 0 then y
    else if y == 0 then x
    else (if x % 2 == 1 || y % 2 == 1 then 1 else 0) + 2 * Or(x / 2, y / 2)
  }

  function Xor(x: nat, y: nat): nat {
    if x == 0 then y
    else if y == 0 then x
    else (if x % 2 != y % 2 then 1 else 0) + 2 * Xor(x / 2, y / 2)
  }

  function Shr(x: nat, k: nat): nat {
    if k == 0 then x else Shr(x / 2, k - 1)
  }

  function Shl(x: nat, k: nat): nat {
    if k == 0 then x else 2 * Shl(x, k - 1)
  }

  /** The low n bits of a number. */
  function Low(x: nat, n: nat): (r: nat)
    ensures r < Pow2(n) && r <= x
  {
    if n == 0 then 0 else x % 2 + 2 * Low(x / 2, n - 1)
  }

  /** Left shift in an unsigned word of `width` bits: bits pushed out are lost. */
  function ShlW(x: nat, k: nat, width: nat): nat {
    Low(Shl(x, k), width)
  }

  // ----- division -----

  lemma {:induction false} SmallMultiple(a: int, d: int)
    requires d > 0 && -d < a * d < d
    ensures a == 0
  {
    assert a >= 1 ==> a * d >= d;
    assert a <= -1 ==> a * d <= -d;
  }

  lemma {:induction false} DivModUnique(x: int, d: int, q: int, r: int)
    requires d > 0 && x == q * d + r && 0 <= r < d
    ensures x / d == q && x % d == r
  {
    var q', r' := x / d, x % d;
    assert x == q' * d + r' && 0 <= r' < d;
    assert (q - q') * d == q * d - q' * d == r' - r;
    SmallMultiple(q - q', d);
  }

  /** The lowest bit splits off a remainder by an even power. */
  lemma {:induction false} ModDouble(x: nat, p: nat)
    requires p > 0
    ensures x % (2 * p) == 2 * ((x / 2) % p) + x % 2
    ensures x / (2 * p) == (x / 2) / p
  {
    var q, r := (x / 2) / p, (x / 2) % p;
    assert x / 2 == q * p + r;
    assert x == q * (2 * p) + (2 * r + x % 2);
    DivModUnique(x, 2 * p, q, 2 * r + x % 2);
  }

  /** Shifts and low bits in terms of multiplication, division and remainder. */
  lemma {:induction false} ShiftIsArithmetic(x: nat, n: nat)
    ensures Shr(x, n) == x / Pow2(n)
    ensures Low(x, n) == x % Pow2(n)
    ensures Shl(x, n) == x * Pow2(n)
  {
    if n > 0 {
      ShiftIsArithmetic(x / 2, n - 1);
      ModDouble(x, Pow2(n - 1));
      ShlIsMul(x, n);
    } else {
      assert x / 1 == x && x % 1 == 0;
    }
  }

  /** The same with the power of two worked out. */
  lemma {:induction false} ShiftBy(x: nat, n: nat, p: nat)
    requires Pow2(n) == p
    ensures Shr(x, n) == x / p && Low(x, n) == x % p && Shl(x, n) == x * p
  {
    ShiftIsArithmetic(x, n);
  }

  lemma {:induction false} ShlIsMul(x: nat, n: nat)
    ensures Shl(x, n) == x * Pow2(n)
  {
    if n > 0 {
      ShlIsMul(x, n - 1);
      assert x * (2 * Pow2(n - 1)) == 2 * (x * Pow2(n - 1));
    }
  }

  lemma {:induction false} ShrBit(x: nat, k: nat)
    ensures Bit(x, k) <==> Shr(x, k) % 2 == 1
    ensures Shr(x, k) / 2 == Shr(x, k + 1)
  {
    if k > 0 {
      ShrBit(x / 2, k - 1);
    }
  }

  lemma {:induction false} ShlBound(x: nat, m: nat, n: nat)
    requires x < Pow2(m)
    ensures Shl(x, n) < Pow2(m + n)
  {
    if n > 0 {
      ShlBound(x, m, n - 1);
    }
  }

  lemma {:induction false} LowOfSmall(x: nat, n: nat)
    requires x < Pow2(n)
    ensures Low(x, n) == x
  {
    if n > 0 {
      LowOfSmall(x / 2, n - 1);
    }
  }

  // ----- masks -----

  /** Masking with n ones keeps the low n bits. */
  lemma {:induction false} AndMask(x: nat, n: nat)
    ensures And(x, Pow2(n) - 1) == Low(x, n)
  {
    if n > 0 {
      AndMask(x / 2, n - 1);
      assert (Pow2(n) - 1) / 2 == Pow2(n - 1) - 1;
    }
  }

  /** Masking with the complement of k ones clears the low k bits. */
  lemma {:induction false} AndNotMask(x: nat, k: nat, n: nat)
    requires k <= n && x < Pow2(n)
    ensures Pow2(k) <= Pow2(n)
    ensures And(x, Pow2(n) - Pow2(k)) == x - Low(x, k)
  {
    hide And;
    Pow2Monotonic(k, n);
    if k == 0 {
      AndMask(x, n);
      LowOfSmall(x, n);
    } else {
      AndNotMask(x / 2, k - 1, n - 1);
      var y := Pow2(n - 1) - Pow2(k - 1);
      assert Pow2(n) - Pow2(k) == 2 * y && Low(x, k) == 2 * Low(x / 2, k - 1) + x % 2;
      hide Pow2, Low;
      AndEven(x, y);
    }
  }

  lemma {:induction false} AndEven(x: nat, y: nat)
    ensures And(x, 2 * y) == 2 * And(x / 2, y)
  {
    if x == 0 || y == 0 {
      assert And(x / 2, y) == 0;
    } else {
      assert 2 * y / 2 == y && 2 * y % 2 == 0;
    }
  }

  lemma {:induction false} Pow2Monotonic(m: nat, n: nat)
    requires m <= n
    ensures Pow2(m) <= Pow2(n)
    decreases n
  {
    if m < n {
      Pow2Monotonic(m, n - 1);
    }
  }

  /** OR of a number shifted past a smaller one is their sum. */
  lemma {:induction false} OrDisjoint(h: nat, l: nat, k: nat)
    requires l < Pow2(k)
    ensures Or(Shl(h, k), l) == Shl(h, k) + l
  {
    if k > 0 {
      OrDisjoint(h, l / 2, k - 1);
      assert Shl(h, k) / 2 == Shl(h, k - 1);
    }
  }

  // ----- bit membership -----

  lemma {:induction false} BitZero(i: nat)
    ensures !Bit(0, i)
  {
    if i > 0 {
      BitZero(i - 1);
    }
  }

  lemma {:induction false} OrBit(x: nat, y: nat, i: nat)
    ensures Bit(Or(x, y), i) <==> Bit(x, i) || Bit(y, i)
  {
    BitZero(i);
    if i > 0 && x != 0 && y != 0 {
      OrBit(x / 2, y / 2, i - 1);
    }
  }

  lemma {:induction false} AndBit(x: nat, y: nat, i: nat)
    ensures Bit(And(x, y), i) <==> Bit(x, i) && Bit(y, i)
  {
    BitZero(i);
    if i > 0 && x != 0 && y != 0 {
      AndBit(x / 2, y / 2, i - 1);
    }
  }

  lemma {:induction false} XorBit(x: nat, y: nat, i: nat)
    ensures Bit(Xor(x, y), i) <==> Bit(x, i) != Bit(y, i)
  {
    BitZero(i);
    if i > 0 && x != 0 && y != 0 {
      XorBit(x / 2, y / 2, i - 1);
    }
  }

  /** A run of d ones shifted up by b holds exactly the bits [b, b+d). */
  lemma {:induction false} MaskBit(d: nat, b: nat, i: nat)
    ensures Pow2(d) - 1 >= 0
    ensures Bit(Shl(Pow2(d) - 1, b), i) <==> b <= i < b + d
  {
    var x := Pow2(d) - 1;
    if b > 0 {
      if i > 0 {
        assert Shl(x, b) / 2 == Shl(x, b - 1);
        MaskBit(d, b - 1, i - 1);
      }
    } else if d == 0 {
      BitZero(i);
    } else if i > 0 {
      assert x / 2 == Pow2(d - 1) - 1;
      MaskBit(d - 1, 0, i - 1);
    }
  }

  /** Complement within n bits flips exactly the bits below n. */
  lemma {:induction false} NotBit(x: nat, n: nat, i: nat)
    requires x < Pow2(n) && i < n
    ensures Bit(Pow2(n) - 1 - x, i) <==> !Bit(x, i)
  {
    if i > 0 {
      var p := Pow2(n - 1);
      assert (2 * p - 1 - x) / 2 == p - 1 - x / 2;
      NotBit(x / 2, n - 1, i - 1);
    }
  }

  /** A number is zero exactly when none of its bits below its width is set. */
  lemma {:induction false} ZeroByBits(x: nat, n: nat)
    requires x < Pow2(n)
    requires forall i: nat :: i < n ==> !Bit(x, i)
    ensures x == 0
  {
    if n > 0 {
      forall i: nat | i < n - 1 ensures !Bit(x / 2, i) {
        assert Bit(x / 2, i) == Bit(x, i + 1);
      }
      ZeroByBits(x / 2, n - 1);
      assert !Bit(x, 0);
    }
  }

  // ----- bounds -----

  lemma {:induction false} OrBound(x: nat, y: nat, n: nat)
    requires x < Pow2(n) && y < Pow2(n)
    ensures Or(x, y) < Pow2(n)
  {
    if n > 0 && x != 0 && y != 0 {
      OrBound(x / 2, y / 2, n - 1);
    }
  }

  lemma {:induction false} AndBound(x: nat, y: nat)
    ensures And(x, y) <= x && And(x, y) <= y
  {
    if x != 0 && y != 0 {
      AndBound(x / 2, y / 2);
    }
  }

  lemma {:induction false} XorBound(x: nat, y: nat, n: nat)
    requires x < Pow2(n) && y < Pow2(n)
    ensures Xor(x, y) < Pow2(n)
  {
    if n > 0 && x != 0 && y != 0 {
      XorBound(x / 2, y / 2, n - 1);
    }
  }

  /** Halving an XOR halves both sides; its last bit tells whether the last bits differ. */
  lemma {:induction false} XorHalves(x: nat, y: nat)
    ensures Xor(x, y) / 2 == Xor(x / 2, y / 2)
    ensures Xor(x, y) % 2 == if x % 2 != y % 2 then 1 else 0
  {
    if x != 0 && y != 0 {
      var bit, rest := if x % 2 != y % 2 then 1 else 0, Xor(x / 2, y / 2);
      assert Xor(x, y) == bit + 2 * rest;
    }
  }

  /** XOR by the same number twice is the identity. */
  lemma {:induction false} XorInvolution(x: nat, y: nat)
    ensures Xor(Xor(x, y), y) == x
    decreases x + y
  {
    if x == 0 && y == 0 {
      assert Xor(0, 0) == 0;
    } else {
      hide Xor;
      XorInvolution(x / 2, y / 2);
      XorHalves(x, y);
      XorHalves(Xor(x, y), y);
      SameHalves(Xor(Xor(x, y), y), x);
    }
  }

  lemma {:induction false} SameHalves(m: nat, n: nat)
    requires m / 2 == n / 2 && m % 2 == n % 2
    ensures m == n
  {
  }

  /** XOR changes a number unless the other one is zero. */
  lemma {:induction false} XorFixes(x: nat, y: nat)
    ensures Xor(x, y) == x <==> y == 0
    decreases x + y
  {
    if y == 0 {
      assert Xor(x, 0) == x;
    } else if x != 0 {
      hide Xor;
      XorFixes(x / 2, y / 2);
      XorHalves(x, y);
    }
  }
}
