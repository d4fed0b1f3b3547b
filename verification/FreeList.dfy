/** `FreeList`: a 256-bit occupancy map updated byte by byte, refining a set of block numbers. */
module FreeList {
  import opened BitOps
  import opened Wrappers
  import opened FreeListSpec

  const BLOCK_SHIFT := 0x12
  const SLAB_SIZE := 0x400_0000
  const MAP_BYTES := 32

  const BIT_MASK_U8: seq<nat> := [0x00, 0x01, 0x03, 0x07, 0x0f, 0x1f, 0x3f, 0x7f, 0xff]

  lemma {:induction false} MaskIsOnes(n: nat)
    requires n <= 8
    ensures BIT_MASK_U8[n] == Pow2(n) - 1
  {
    assert Pow2(8) == 256 && Pow2(7) == 128 && Pow2(6) == 64 && Pow2(5) == 32;
    assert Pow2(4) == 16 && Pow2(3) == 8 && Pow2(2) == 4 && Pow2(1) == 2;
  }

  // ----- one byte -----

  /** `(BIT_MASK_U8[d] << bit) as u8`: ones at [bit, bit+d). */
  function RunMask(d: nat, bit: nat): (m: byte)
    requires bit + d <= 8
    ensures forall i: nat :: i < 8 ==> (Bit(m, i) <==> bit <= i < bit + d)
  {
    var m := ShlW(BIT_MASK_U8[d], bit, 8);
    MaskIsOnes(d);
    ShlBound(Pow2(d) - 1, d, bit);
    Pow2Monotonic(d + bit, 8);
    LowOfSmall(Shl(Pow2(d) - 1, bit), 8);
    assert forall i: nat :: i < 8 ==> (Bit(m, i) <==> bit <= i < bit + d) by {
      forall i: nat | i < 8 ensures Bit(m, i) <==> bit <= i < bit + d {
        MaskBit(d, bit, i);
      }
    }
    assert Pow2(8) == 256;
    m
  }

  function SetIn(b: byte, m: byte): (r: byte)
    ensures forall i: nat :: i < 8 ==> (Bit(r, i) <==> Bit(b, i) || Bit(m, i))
  {
    assert Pow2(8) == 256;
    OrBound(b, m, 8);
    var r := Or(b, m);
    assert forall i: nat :: i < 8 ==> (Bit(r, i) <==> Bit(b, i) || Bit(m, i)) by {
      forall i: nat | i < 8 ensures Bit(r, i) <==> Bit(b, i) || Bit(m, i) {
        OrBit(b, m, i);
      }
    }
    r
  }

  /** `*byte & !m`. */
  function ClearIn(b: byte, m: byte): (r: byte)
    ensures forall i: nat :: i < 8 ==> (Bit(r, i) <==> Bit(b, i) && !Bit(m, i))
  {
    assert Pow2(8) == 256;
    AndBound(b, 0xff - m);
    var r := And(b, 0xff - m);
    assert forall i: nat :: i < 8 ==> (Bit(r, i) <==> Bit(b, i) && !Bit(m, i)) by {
      forall i: nat | i < 8 ensures Bit(r, i) <==> Bit(b, i) && !Bit(m, i) {
        AndBit(b, 0xff - m, i);
        NotBit(m, 8, i);
      }
    }
    r
  }

  lemma {:induction false} FullByte(i: nat)
    requires i < 8
    ensures Bit(0xff, i) && !Bit(0, i)
  {
    MaskBit(8, 0, i);
    assert Shl(0xff, 0) == 0xff && Pow2(8) == 256;
    BitZero(i);
  }

  // ----- the map -----

  predicate Used(bitmap: seq<byte>, k: nat)
    requires |bitmap| == MAP_BYTES && k < 256
  {
    Bit(bitmap[k / 8], k % 8)
  }

  function Blocks(bitmap: seq<byte>): set<nat>
    requires |bitmap| == MAP_BYTES
  {
    set k: nat | k < 256 && Used(bitmap, k)
  }

  /** The blocks [lo, hi) have been switched to `on`; no other block changed. */
  ghost predicate Switched(now: seq<byte>, before: seq<byte>, lo: nat, hi: nat, on: bool)
    requires |now| == |before| == MAP_BYTES
  {
    forall k: nat :: k < 256 ==> Used(now, k) == if lo <= k < hi then on else Used(before, k)
  }

  /** One byte of the map rewritten continues a switched run. */
  lemma {:induction false} ExtendRun(now: seq<byte>, mid: seq<byte>, before: seq<byte>, lo: nat, c: nat, from: nat,
        to: nat, on: bool)
    requires |now| == |mid| == |before| == MAP_BYTES && c < MAP_BYTES
    requires lo <= from <= to && 8 * c <= from && to <= 8 * c + 8
    requires Switched(mid, before, lo, from, on)
    requires forall j :: 0 <= j < MAP_BYTES && j != c ==> now[j] == mid[j]
    requires forall i: nat :: i < 8 ==> Bit(now[c], i) == if from <= 8 * c + i < to then on else Bit(mid[c], i)
    ensures Switched(now, before, lo, to, on)
  {
    forall k: nat | k < 256 ensures Used(now, k) == if lo <= k < to then on else Used(before, k) {
      if k / 8 == c {
        assert 8 * c + k % 8 == k;
        assert Used(mid, k) == Bit(mid[c], k % 8);
      } else {
        assert Used(now, k) == Used(mid, k);
      }
    }
  }

  lemma {:induction false} SwitchedSelf(bitmap: seq<byte>, lo: nat, on: bool)
    requires |bitmap| == MAP_BYTES
    ensures Switched(bitmap, bitmap, lo, lo, on)
  {
  }

  /** No block of [lo, hi) is in use. */
  ghost predicate FreeRun(bitmap: seq<byte>, lo: nat, hi: nat)
    requires |bitmap| == MAP_BYTES && hi <= 256
  {
    forall k: nat :: lo <= k < hi ==> !Used(bitmap, k)
  }

  /** No bit of a byte in [lo, hi) is set. */
  ghost predicate Clear(b: byte, lo: int, hi: int) {
    forall i: nat :: i < 8 && lo <= i < hi ==> !Bit(b, i)
  }

  lemma {:induction false} ExtendFreeRun(bitmap: seq<byte>, lo: nat, c: nat, from: nat, to: nat)
    requires |bitmap| == MAP_BYTES && c < MAP_BYTES
    requires lo <= from <= to && 8 * c <= from && to <= 8 * c + 8
    ensures FreeRun(bitmap, lo, to) <==>
            FreeRun(bitmap, lo, from) && Clear(bitmap[c], from - 8 * c, to - 8 * c)
  {
    if FreeRun(bitmap, lo, to) {
      forall i: nat | i < 8 && from <= 8 * c + i < to ensures !Bit(bitmap[c], i) {
        assert !Used(bitmap, 8 * c + i);
      }
    }
    if FreeRun(bitmap, lo, from) && Clear(bitmap[c], from - 8 * c, to - 8 * c) {
      forall k: nat | lo <= k < to ensures !Used(bitmap, k) {
        if k >= from {
          assert k / 8 == c && 8 * c + k % 8 == k;
        }
      }
    }
  }

  /** A masked byte is zero exactly when no masked bit is set. */
  lemma {:induction false} MaskedZero(b: byte, d: nat, bit: nat)
    requires bit + d <= 8
    ensures And(b, RunMask(d, bit)) < 256
    ensures And(b, RunMask(d, bit)) == 0 <==> Clear(b, bit, bit + d)
  {
    var m := RunMask(d, bit);
    AndBound(b, m);
    ByteZero(And(b, m));
    forall i: nat | i < 8 ensures Bit(And(b, m), i) <==> Bit(b, i) && bit <= i < bit + d {
      AndBit(b, m, i);
    }
    assert Clear(And(b, m), 0, 8) ==> Clear(b, bit, bit + d) by {
      if Clear(And(b, m), 0, 8) {
        forall i: nat | i < 8 && bit <= i < bit + d ensures !Bit(b, i) {
          assert !Bit(And(b, m), i);
        }
      }
    }
  }

  lemma {:induction false} ByteZero(b: byte)
    ensures b == 0 <==> Clear(b, 0, 8)
  {
    assert Pow2(8) == 256;
    if b == 0 {
      forall i: nat | i < 8 ensures !Bit(b, i) { BitZero(i); }
    } else if Clear(b, 0, 8) {
      ZeroByBits(b, 8);
    }
  }

  lemma {:induction false} OrZero(x: nat, y: nat)
    ensures Or(x, y) == 0 <==> x == 0 && y == 0
  {
    if x != 0 && y != 0 {
      OrZero(x / 2, y / 2);
    }
  }

  lemma {:induction false} ShlZero(x: nat, k: nat)
    ensures Shl(x, k) == 0 <==> x == 0
  {
    if k > 0 {
      ShlZero(x, k - 1);
    }
  }

  /** Shifting the accumulator loses no bit while everything gathered fits 64 bits. */
  lemma {:induction false} Accumulate(res: nat, m: nat, shift: nat, b: nat)
    requires res < Pow2(m) && m + shift <= 64 && b < Pow2(m + shift)
    ensures var r := Or(ShlW(res, shift, 64), b);
      r < Pow2(m + shift) && (r == 0 <==> res == 0 && b == 0)
  {
    hide Or, Shl, Low, Pow2;
    ShlBound(res, m, shift);
    Pow2Monotonic(m + shift, 64);
    LowOfSmall(Shl(res, shift), 64);
    OrBound(Shl(res, shift), b, m + shift);
    ShlZero(res, shift);
    OrZero(Shl(res, shift), b);
  }

  datatype Node = Managed(ptr: nat, size: nat) | Unmanaged(size: nat)

  /** One block: 2^18 bytes. */
  const BLOCK := 0x4_0000

  lemma {:induction false} BlockIsShift(n: nat)
    ensures Shl(n, BLOCK_SHIFT) == n * BLOCK && Shr(n, BLOCK_SHIFT) == n / BLOCK
  {
    assert Pow2(6) == 64;
    assert Pow2(12) == 4096;
    assert Pow2(18) == 0x4_0000;
    ShiftBy(n, BLOCK_SHIFT, BLOCK);
  }

  /** Whole blocks that cover a size: the least n with size <= n * 2^18. */
  function BlockSize(size: nat): (blocks: nat)
    ensures size <= blocks * 0x4_0000 < size + 0x4_0000
  {
    BlockIsShift(size + BLOCK - 1);
    Shr(size + BLOCK - 1, BLOCK_SHIFT)
  }

  class FreeList {
    const used: array<byte>

    /** The nodes handed out from the slab and not dropped yet, as block ranges. */
    ghost var live: seq<Range>

    ghost predicate Valid()
      reads this
    {
      && used.Length == MAP_BYTES
      && forall i :: 0 <= i < |live| ==> live[i].start + live[i].blocks <= LAST_BLOCK
    }

    ghost function Abs(): State
      requires Valid()
      reads this, used
    {
      State(Occupied(), live)
    }

    /** The occupied blocks. */
    ghost function Occupied(): set<nat>
      requires Valid()
      reads this, used
    {
      Blocks(used[..])
    }

    constructor ()
      ensures Valid() && fresh(used) && Abs() == EMPTY
    {
      var a := new byte[MAP_BYTES](_ => 0);
      used := a;
      live := [];
      new;
      forall k: nat | k < 256 ensures !Used(used[..], k) {
        BitZero(k % 8);
      }
    }

    predicate OutOfBounds(start: nat, len: nat) {
      len == 0 || start + len > LAST_BLOCK
    }

    method BitOn(start: nat, length: nat)
      requires Valid()
      modifies used
      ensures var end := if length == 0 || start + length > 255 then start else start + length;
        Switched(used[..], old(used[..]), start, end, true)
    {
      hide Switched, SetIn, RunMask, Bit;
      SwitchedSelf(used[..], start, true);
      if OutOfBounds(start, length) { return; }
      ghost var before := used[..];
      var len, c, bit := length, start / 8, start % 8;
      ghost var pos := start;
      if bit != 0 {
        ghost var mid := used[..];
        var diff := Min(len, 8 - bit);
        used[c] := SetIn(used[c], RunMask(diff, bit));
        ExtendRun(used[..], mid, before, start, c, pos, pos + diff, true);
        c := c + 1;
        len := len - diff;
        pos := pos + diff;
      }
      for n := 0 to len / 8
        invariant len - 8 * n > 0 ==> pos == 8 * c
        invariant pos == start + length - (len - 8 * n)
        invariant Switched(used[..], before, start, pos, true)
      {
        ghost var mid := used[..];
        used[c] := 0xff;
        forall i: nat | i < 8 ensures Bit(0xff, i) { FullByte(i); }
        ExtendRun(used[..], mid, before, start, c, pos, pos + 8, true);
        c := c + 1;
        pos := pos + 8;
      }
      bit := len % 8;
      if bit != 0 {
        ghost var mid := used[..];
        used[c] := SetIn(used[c], RunMask(bit, 0));
        ExtendRun(used[..], mid, before, start, c, pos, pos + bit, true);
      }
    }

    method BitOff(start: nat, length: nat)
      requires Valid()
      modifies used
      ensures var end := if length == 0 || start + length > 255 then start else start + length;
        Switched(used[..], old(used[..]), start, end, false)
    {
      hide Switched, ClearIn, RunMask, Bit;
      SwitchedSelf(used[..], start, false);
      if OutOfBounds(start, length) { return; }
      ghost var before := used[..];
      var len, c, bit := length, start / 8, start % 8;
      ghost var pos := start;
      if bit != 0 {
        ghost var mid := used[..];
        var diff := Min(len, 8 - bit);
        used[c] := ClearIn(used[c], RunMask(diff, bit));
        ExtendRun(used[..], mid, before, start, c, pos, pos + diff, false);
        c := c + 1;
        len := len - diff;
        pos := pos + diff;
      }
      for n := 0 to len / 8
        invariant len - 8 * n > 0 ==> pos == 8 * c
        invariant pos == start + length - (len - 8 * n)
        invariant Switched(used[..], before, start, pos, false)
      {
        ghost var mid := used[..];
        used[c] := 0;
        forall i: nat | i < 8 ensures !Bit(0, i) { FullByte(i); }
        ExtendRun(used[..], mid, before, start, c, pos, pos + 8, false);
        c := c + 1;
        pos := pos + 8;
      }
      bit := len % 8;
      if bit != 0 {
        ghost var mid := used[..];
        used[c] := ClearIn(used[c], RunMask(bit, 0));
        ExtendRun(used[..], mid, before, start, c, pos, pos + bit, false);
      }
    }

    /** The byte-wise part of the check: every whole byte is shifted into the accumulator. `m`
        bounds the accumulator, which never outgrows 64 bits. */
    method GatherBytes(first: nat, count: nat, acc: nat, shift: nat, ghost start: nat, ghost m0: nat)
      returns (res: nat, ghost m: nat)
      requires Valid() && first + count <= MAP_BYTES && start <= 8 * first
      requires acc < Pow2(m0) && (acc == 0 <==> FreeRun(used[..], start, 8 * first))
      requires count > 0 ==> m0 + shift >= 8 && m0 + shift + 8 * (count - 1) <= 64
      ensures res < Pow2(m) && m == if count == 0 then m0 else m0 + shift + 8 * (count - 1)
      ensures res == 0 <==> FreeRun(used[..], start, 8 * (first + count))
    {
      hide FreeRun, Or, ShlW, Clear;
      var c, diff := first, shift;
      res, m := acc, m0;
      for n := 0 to count
        invariant c == first + n
        invariant if n == 0 then m == m0 && diff == shift else m == m0 + shift + 8 * (n - 1) && diff == 8
        invariant res < Pow2(m)
        invariant res == 0 <==> FreeRun(used[..], start, 8 * c)
      {
        Pow2Monotonic(8, m + diff);
        assert Pow2(8) == 256;
        Accumulate(res, m, diff, used[c]);
        ByteZero(used[c]);
        ExtendFreeRun(used[..], start, c, 8 * c, 8 * c + 8);
        res := Or(ShlW(res, diff, 64), used[c]);
        c := c + 1;
        m := m + diff;
        diff := 8;
      }
    }

    /** The end bits of the check. */
    method GatherEnd(c: nat, acc: nat, bit: nat, ghost start: nat, ghost m: nat) returns (res: nat)
      requires Valid() && bit < 8 && start <= 8 * c && (bit != 0 ==> c < MAP_BYTES) && c <= MAP_BYTES
      requires acc < Pow2(m) && m + bit <= 64 && (acc == 0 <==> FreeRun(used[..], start, 8 * c))
      ensures res == 0 <==> FreeRun(used[..], start, 8 * c + bit)
    {
      if bit == 0 { return acc; }
      MaskedZero(used[c], bit, 0);
      LowMask(used[c], bit);
      Pow2Monotonic(bit, m + bit);
      Accumulate(acc, m, bit, And(used[c], RunMask(bit, 0)));
      ExtendFreeRun(used[..], start, c, 8 * c, 8 * c + bit);
      res := Or(ShlW(acc, bit, 64), And(used[c], RunMask(bit, 0)));
    }

    /** Zero exactly when the first 64 blocks of the window are free: the accumulator loses
        no bit. */
    method CheckOccupation(start: nat, length: nat) returns (res: nat)
      requires Valid()
      ensures length == 0 || start + length > 255 ==> res == 0
      ensures length > 0 && start + length <= 255 ==>
                (res == 0 <==> FreeRun(used[..], start, start + Min(length, 64)))
    {
      if OutOfBounds(start, length) { return 0; }
      hide FreeRun, And, Clear;
      res := 0;
      var len, c, bit := Min(length, 64), start / 8, start % 8;
      var diff := Min(len, 8 - bit);
      ghost var m: nat := 0;
      if bit != 0 {
        MaskedZero(used[c], diff, bit);
        ExtendFreeRun(used[..], start, c, start, start + diff);
        res := And(used[c], RunMask(diff, bit));
        m := 8;
        assert Pow2(8) == 256;
        c := c + 1;
        len := len - diff;
        if len == 0 { return; }
      }
      res, m := GatherBytes(c, len / 8, res, diff, start, m);
      res := GatherEnd(c + len / 8, res, len % 8, start, m);
    }

    /** The sliding search. `None` stands for `usize::MAX`. */
    method GetFreeBlockIndex(size: nat) returns (r: Option<nat>)
      requires Valid()
      ensures r == FirstFit(Occupied(), size, 0)
    {
      var start := 0;
      while true
        invariant FirstFit(Occupied(), size, start) == FirstFit(Occupied(), size, 0)
        decreases 512 - start
      {
        var occupation := CheckOccupation(start, size);
        if occupation == 0 { break; }
        SeesFree(used[..], start, size);
        start := start + size;
      }
      if start + size <= LAST_BLOCK {
        if size != 0 { SeesFree(used[..], start, size); }
        r := Some(start);
      } else {
        r := None;
      }
    }

    /** One allocation step of the block-set machine; a managed node lies inside the slab. */
    method Allocate(size: nat) returns (node: Node)
      requires Valid()
      modifies used, `live
      ensures Valid() && Abs() == Step(old(Abs()), Op.Allocate(BlockSize(size)))
      ensures match old(FirstFit(Occupied(), BlockSize(size), 0))
        case None => node == Unmanaged(size)
        case Some(start) => node == Managed(start * 0x4_0000, size) && node.ptr + node.size <= 0x400_0000
    {
      var blocks := BlockSize(size);
      var r := GetFreeBlockIndex(blocks);
      if r.None? { return Unmanaged(size); }
      var start := r.value;
      FitInside(Occupied(), blocks, 0);
      ghost var before := used[..];
      BitOn(start, blocks);
      SwitchedOn(used[..], before, start, blocks);
      live := live + [Range(start, blocks)];
      node := Managed(Shl(start, BLOCK_SHIFT), size);
      InsideSlab(start, blocks);
    }

    /** Dropping the i-th live node is the release step for its range. */
    method Deallocate(p: Node, ghost i: nat)
      requires Valid() && p.Managed? && i < |live|
      requires p.ptr == live[i].start * 0x4_0000 && BlockSize(p.size) == live[i].blocks
      modifies used, `live
      ensures Valid() && Abs() == Step(old(Abs()), Release(i))
    {
      var blocks := BlockSize(p.size);
      ghost var before, start := used[..], live[i].start;
      BlockIsShift(start);
      ShrShl(start, BLOCK_SHIFT);
      BitOff(Shr(p.ptr, BLOCK_SHIFT), blocks);
      SwitchedOff(used[..], before, start, blocks);
      live := Without(live, i);
    }
  }

  lemma {:induction false} LowMask(b: byte, n: nat)
    requires n <= 8
    ensures And(b, RunMask(n, 0)) < Pow2(n)
  {
    MaskIsOnes(n);
    Pow2Monotonic(n, 8);
    LowOfSmall(Pow2(n) - 1, 8);
    assert RunMask(n, 0) == Pow2(n) - 1;
    AndBound(b, RunMask(n, 0));
  }

  /** What the check sees of the bytes is what the search sees of the set. */
  lemma {:induction false} SeesFree(bitmap: seq<byte>, start: nat, blocks: nat)
    requires |bitmap| == MAP_BYTES && start + blocks <= LAST_BLOCK
    ensures FreeRun(bitmap, start, start + Min(blocks, 64)) <==> LooksFree(Blocks(bitmap), start, blocks)
  {
    if LooksFree(Blocks(bitmap), start, blocks) {
      forall k: nat | start <= k < start + Min(blocks, 64) ensures !Used(bitmap, k) {
        assert k !in Blocks(bitmap);
      }
    }
  }

  lemma {:induction false} SwitchedOn(now: seq<byte>, before: seq<byte>, start: nat, blocks: nat)
    requires |now| == |before| == MAP_BYTES && start + blocks <= LAST_BLOCK
    requires Switched(now, before, start, if blocks == 0 then start else start + blocks, true)
    ensures Blocks(now) == Blocks(before) + Window(start, blocks)
  {
  }

  lemma {:induction false} SwitchedOff(now: seq<byte>, before: seq<byte>, start: nat, blocks: nat)
    requires |now| == |before| == MAP_BYTES && start + blocks <= LAST_BLOCK
    requires Switched(now, before, start, if blocks == 0 then start else start + blocks, false)
    ensures Blocks(now) == Blocks(before) - Window(start, blocks)
  {
  }

  lemma {:induction false} ShrShl(x: nat, k: nat)
    ensures Shr(Shl(x, k), k) == x
  {
    if k > 0 {
      ShrShl(x, k - 1);
      assert Shl(x, k) / 2 == Shl(x, k - 1);
    }
  }

  lemma {:induction false} InsideSlab(start: nat, blocks: nat)
    requires start + blocks <= LAST_BLOCK
    ensures Shl(start, BLOCK_SHIFT) == start * 0x4_0000 && start * 0x4_0000 + blocks * 0x4_0000 <= SLAB_SIZE
  {
    BlockIsShift(start);
  }
}
