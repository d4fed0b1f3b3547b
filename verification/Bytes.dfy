/** Byte strings: integers in either byte order, zero padding, and ASCII literals. */
module Bytes {
  import opened BitOps

  type bytes = seq<byte>

  /** 256^n. */
  function Pow256(n: nat): (p: nat)
    ensures p >= 1
  {
    if n == 0 then 1 else 256 * Pow256(n - 1)
  }

  /** The low n bytes of a number, most significant first. */
  function Be(v: nat, n: nat): (s: bytes)
    ensures |s| == n
  {
    if n == 0 then [] else Be(v / 256, n - 1) + [v % 256]
  }

  function FromBe(s: bytes): nat {
    if s == [] then 0 else FromBe(s[..|s| - 1]) * 256 + s[|s| - 1]
  }

  /** The low n bytes of a number, least significant first. */
  function Le(v: nat, n: nat): (s: bytes)
    ensures |s| == n
  {
    if n == 0 then [] else [v % 256] + Le(v / 256, n - 1)
  }

  function FromLe(s: bytes): nat {
    if s == [] then 0 else s[0] + 256 * FromLe(s[1..])
  }

  lemma {:induction false} BeRoundTrip(v: nat, n: nat)
    requires v < Pow256(n)
    ensures FromBe(Be(v, n)) == v
  {
    if n > 0 {
      BeRoundTrip(v / 256, n - 1);
    }
  }

  lemma {:induction false} LeRoundTrip(v: nat, n: nat)
    requires v < Pow256(n)
    ensures FromLe(Le(v, n)) == v
  {
    if n > 0 {
      LeRoundTrip(v / 256, n - 1);
      assert Le(v, n)[1..] == Le(v / 256, n - 1);
    }
  }

  /** Eight little-endian bytes are determined by their number. */
  lemma {:induction false} LeOfFromLe(s: bytes)
    ensures Le(FromLe(s), |s|) == s
  {
    if s != [] {
      LeOfFromLe(s[1..]);
      assert FromLe(s) % 256 == s[0] && FromLe(s) / 256 == FromLe(s[1..]);
    }
  }

  lemma {:induction false} BeOfFromBe(s: bytes)
    ensures Be(FromBe(s), |s|) == s
  {
    if s != [] {
      BeOfFromBe(s[..|s| - 1]);
      assert FromBe(s) / 256 == FromBe(s[..|s| - 1]) && FromBe(s) % 256 == s[|s| - 1];
    }
  }

  lemma {:induction false} FromBeBound(s: bytes)
    ensures FromBe(s) < Pow256(|s|)
  {
    if s != [] {
      FromBeBound(s[..|s| - 1]);
    }
  }

  lemma {:induction false} WordSizes()
    ensures Pow256(1) == 0x100 && Pow256(2) == 0x1_0000
    ensures Pow256(4) == 0x1_0000_0000 && Pow256(8) == 0x1_0000_0000_0000_0000
  {
    assert Pow256(1) == 0x100;
    assert Pow256(2) == 0x1_0000;
    assert Pow256(3) == 0x100_0000;
    assert Pow256(4) == 0x1_0000_0000;
    assert Pow256(5) == 0x100_0000_0000;
    assert Pow256(6) == 0x1_0000_0000_0000;
    assert Pow256(7) == 0x100_0000_0000_0000;
  }

  /** A u16, u32 or u64 in big-endian order, and back. */
  lemma {:induction false} BeWord(v: nat)
    ensures v < 0x1_0000 ==> FromBe(Be(v, 2)) == v
    ensures v < 0x1_0000_0000 ==> FromBe(Be(v, 4)) == v
    ensures v < 0x1_0000_0000_0000_0000 ==> FromBe(Be(v, 8)) == v
  {
    WordSizes();
    if v < 0x1_0000 { BeRoundTrip(v, 2); }
    if v < 0x1_0000_0000 { BeRoundTrip(v, 4); }
    if v < 0x1_0000_0000_0000_0000 { BeRoundTrip(v, 8); }
  }

  function Zeros(n: nat): (s: bytes)
    ensures |s| == n
  {
    seq(n, _ => 0)
  }

  /** Append zeros up to length n. */
  function PadTo(s: bytes, n: nat): (r: bytes)
    ensures s <= r
    ensures |r| == if |s| < n then n else |s|
  {
    if |s| < n then s + Zeros(n - |s|) else s
  }

  /** The byte string x lies in s at offset o. */
  ghost predicate At(s: bytes, o: nat, x: bytes) {
    o + |x| <= |s| && forall k :: o <= k < o + |x| ==> s[k] == x[k - o]
  }

  lemma {:induction false} AtSlice(s: bytes, o: nat, x: bytes)
    requires At(s, o, x)
    ensures s[o..o + |x|] == x
  {
  }

  lemma {:induction false} AtLeft(a: bytes, b: bytes, o: nat, x: bytes)
    requires At(a, o, x)
    ensures At(a + b, o, x)
  {
  }

  lemma {:induction false} AtEnd(a: bytes, b: bytes)
    ensures At(a + b, |a|, b)
  {
  }

  lemma {:induction false} AtInside(s: bytes, o: nat, x: bytes, p: nat, y: bytes)
    requires At(s, o, x) && At(x, p, y)
    ensures At(s, o + p, y)
  {
    forall k | o + p <= k < o + p + |y| ensures s[k] == y[k - (o + p)] {
      assert s[k] == x[k - o];
    }
  }

  lemma {:induction false} PrefixTransitive(a: bytes, b: bytes, c: bytes)
    requires a <= b && b <= c
    ensures a <= c
  {
  }

  lemma {:induction false} AtPrefix(s: bytes, r: bytes, o: nat, x: bytes)
    requires At(s, o, x) && s <= r
    ensures At(r, o, x)
  {
    assert r == s + r[|s|..];
    AtLeft(s, r[|s|..], o, x);
  }

  /** The product w * n, spelled as n additions. */
  function Times(w: nat, n: nat): nat {
    if n == 0 then 0 else Times(w, n - 1) + w
  }

  lemma {:induction false} TimesIsProduct(w: nat, n: nat)
    ensures Times(w, n) == w * n
  {
    if n > 0 {
      TimesIsProduct(w, n - 1);
    }
  }

  lemma {:induction false} TimesBelow(w: nat, i: nat, n: nat)
    requires i < n
    ensures Times(w, i) + w <= Times(w, n)
  {
    if i < n - 1 {
      TimesBelow(w, i, n - 1);
    }
  }

  // ----- concatenation of chunks -----

  function Concat(chunks: seq<bytes>): bytes {
    if chunks == [] then [] else Concat(chunks[..|chunks| - 1]) + chunks[|chunks| - 1]
  }

  lemma {:induction false} ConcatSnoc(chunks: seq<bytes>, j: nat)
    requires j < |chunks|
    ensures Concat(chunks[..j + 1]) == Concat(chunks[..j]) + chunks[j]
  {
    assert chunks[..j + 1][..j] == chunks[..j];
  }

  /** Chunk j lies after the concatenation of the chunks before it. */
  lemma {:induction false} ChunkAt(chunks: seq<bytes>, j: nat)
    requires j < |chunks|
    ensures At(Concat(chunks), |Concat(chunks[..j])|, chunks[j])
  {
    var k := |chunks| - 1;
    if j == k {
      AtEnd(Concat(chunks[..k]), chunks[k]);
    } else {
      ChunkAt(chunks[..k], j);
      assert chunks[..k][..j] == chunks[..j];
      AtLeft(Concat(chunks[..k]), chunks[k], |Concat(chunks[..j])|, chunks[j]);
    }
  }

  /** Chunks of one width. */
  lemma {:induction false} ConcatWidth(chunks: seq<bytes>, w: nat)
    requires forall j :: 0 <= j < |chunks| ==> |chunks[j]| == w
    ensures |Concat(chunks)| == Times(w, |chunks|)
  {
    if chunks != [] {
      ConcatWidth(chunks[..|chunks| - 1], w);
    }
  }

  /** The bytes of an ASCII literal. */
  function Ascii(s: string): (b: bytes)
    ensures |b| == |s| && 0 !in b
  {
    seq(|s|, i requires 0 <= i < |s| => if '\0' < s[i] < 128 as char then s[i] as int else 0x3f)
  }
}
