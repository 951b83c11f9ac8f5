/**
 The dynamic shared-memory layout, computed twice: the offsets the device code adds up,
 in wrapping 32-bit arithmetic with masks, and the size the host asks for.
 */
module SharedLayout {
  import opened Arith
  import Int64

  /** Element count, element size in bytes, and whether every warp has its own copy. */
  datatype Array = Array(count: nat, bytes: nat, perWarp: bool)

  const BITS: nat := 32
  const WORD: nat := 0x1_0000_0000

  ghost predicate IsPow2(b: nat) { exists e: nat :: b == Int64.Pow2(e) }

  ghost predicate Valid(arrays: seq<Array>) {
    forall i :: 0 <= i < |arrays| ==> IsPow2(arrays[i].bytes) && 0 < arrays[i].bytes <= WORD
  }

  // ----- what each side computes -----

  /** `(blockDim.x * blockDim.y * blockDim.z + 31u) / 32u`. */
  function DeviceWarps(threads: nat): nat { (threads + 31) % WORD / 32 }

  function HostWarps(threads: nat): nat {
    var w := threads / 32 + (if threads % 32 > 0 then 1 else 0);
    if w < 1 then 1 else w
  }

  /** `(so + m) & ~m` with `m = bytes - 1`. */
  function MaskUp(so: nat, bytes: nat): nat
    requires 0 < bytes <= WORD
  {
    Int64.BitAnd((so + (bytes - 1)) % WORD, WORD - bytes)
  }

  function NextMultipleOf(x: nat, b: nat): nat
    requires b > 0
  {
    if x % b == 0 then x else x + (b - x % b)
  }

  function Copies(a: Array, warps: nat): nat { if a.perWarp then warps else 1 }
  function Size(a: Array, warps: nat): nat { Copies(a, warps) * a.count * a.bytes }

  /** Where the array after the first n starts being placed, without any wrap-around. */
  function End(arrays: seq<Array>, warps: nat, n: nat): nat
    requires n <= |arrays| && forall i :: 0 <= i < |arrays| ==> 0 < arrays[i].bytes
    decreases n, 0
  {
    if n == 0 then 0 else Base(arrays, warps, n - 1) + Size(arrays[n - 1], warps)
  }

  function Base(arrays: seq<Array>, warps: nat, n: nat): nat
    requires n < |arrays| && forall i :: 0 <= i < |arrays| ==> 0 < arrays[i].bytes
    decreases n, 1
  {
    NextMultipleOf(End(arrays, warps, n), arrays[n].bytes)
  }

  // ----- rounding up with a mask -----

  lemma ModDouble(x: nat, p: nat)
    requires p > 0
    ensures x % (2 * p) == 2 * (x / 2 % p) + x % 2
  {
    var h := x / 2;
    assert x == 2 * h + x % 2 && h == p * (h / p) + h % p;
    assert x == (2 * p) * (h / p) + (2 * (h % p) + x % 2);
    DivMod(2 * p, h / p, 2 * (h % p) + x % 2);
  }

  lemma {:induction false} AndOnes(x: nat, n: nat)
    requires x < Int64.Pow2(n)
    ensures Int64.BitAnd(x, Int64.Pow2(n) - 1) == x
  {
    if n > 0 {
      AndOnes(x / 2, n - 1);
      assert (Int64.Pow2(n) - 1) / 2 == Int64.Pow2(n - 1) - 1 && (Int64.Pow2(n) - 1) % 2 == 1;
    }
  }

  /** Clearing the low e bits. */
  lemma {:induction false} AndMask(x: nat, e: nat, n: nat)
    requires x < Int64.Pow2(n) && e <= n
    ensures Int64.Pow2(e) <= Int64.Pow2(n)
    ensures Int64.BitAnd(x, Int64.Pow2(n) - Int64.Pow2(e)) == x - x % Int64.Pow2(e)
    decreases n
  {
    if e == 0 {
      AndOnes(x, n);
    } else {
      AndMask(x / 2, e - 1, n - 1);
      var p, q := Int64.Pow2(e - 1), Int64.Pow2(n - 1);
      ModDouble(x, p);
      assert Int64.Pow2(n) - Int64.Pow2(e) == 2 * (q - p);
      AndEven(x, q - p);
    }
  }

  lemma AndEven(x: nat, y: nat)
    ensures Int64.BitAnd(x, 2 * y) == 2 * Int64.BitAnd(x / 2, y)
  {
    if x != 0 && y != 0 { assert 2 * y / 2 == y && 2 * y % 2 == 0; }
  }

  lemma WordIsPow2()
    ensures Int64.Pow2(BITS) == WORD
  {
    assert Int64.Pow2(8) == 256;
    Int64.Pow2Adds(8, 8);
    Int64.Pow2Adds(16, 16);
  }

  lemma {:induction false} Pow2Fits(e: nat, n: nat)
    requires Int64.Pow2(e) <= Int64.Pow2(n)
    ensures e <= n
    decreases n
  {
    if e > 0 && n > 0 { Pow2Fits(e - 1, n - 1); }
  }

  /** The largest multiple not above x + b - 1 is the smallest not below x. */
  lemma RoundingUp(x: nat, b: nat)
    requires b > 0
    ensures (x + (b - 1)) - (x + (b - 1)) % b == NextMultipleOf(x, b)
    ensures NextMultipleOf(x, b) % b == 0 && x <= NextMultipleOf(x, b)
  {
    var q, r := x / b, x % b;
    assert x == b * q + r;
    if r == 0 {
      DivMod(b, q, b - 1);
      DivMod(b, q, 0);
    } else {
      assert x + (b - 1) == b * (q + 1) + (r - 1);
      DivMod(b, q + 1, r - 1);
      assert NextMultipleOf(x, b) == b * (q + 1) + 0;
      DivMod(b, q + 1, 0);
    }
  }

  lemma RoundedBound(x: nat, b: nat)
    requires b > 0
    ensures x + (b - 1) < NextMultipleOf(x, b) + b
  {
  }

  /** Below the word size the mask form rounds up exactly as the host does. */
  lemma MaskRounds(so: nat, bytes: nat)
    requires IsPow2(bytes) && 0 < bytes <= WORD && NextMultipleOf(so, bytes) < WORD
    ensures MaskUp(so, bytes) == NextMultipleOf(so, bytes)
  {
    WordIsPow2();
    var e: nat :| bytes == Int64.Pow2(e);
    hide Int64.BitAnd, Int64.Pow2, IsPow2, NextMultipleOf, MaskUp;
    Pow2Fits(e, BITS);
    RoundingUp(so, bytes);
    NoCarry(NextMultipleOf(so, bytes), e);
    RoundedBound(so, bytes);
    MaskUpIs(so, bytes);
    AndMask(so + (bytes - 1), e, BITS);
  }

  lemma MaskUpIs(so: nat, bytes: nat)
    requires 0 < bytes <= WORD && so + (bytes - 1) < WORD
    ensures MaskUp(so, bytes) == Int64.BitAnd(so + (bytes - 1), WORD - bytes)
  {
    DivMod(WORD, 0, so + (bytes - 1));
  }

  lemma MultipleBelow(x: nat, b: nat, c: nat)
    requires b > 0 && x % b == 0 && x < b * c
    ensures x + b <= b * c
  {
    DivBelow(x, b, c);
    MulOrder(b, x / b + 1, c);
    assert x == b * (x / b) + x % b;
    assert b * (x / b + 1) == b * (x / b) + b;
  }

  /** A multiple of a power of two below the word size leaves room for one more. */
  lemma NoCarry(x: nat, e: nat)
    requires e <= BITS && x < WORD && x % Int64.Pow2(e) == 0
    ensures x + Int64.Pow2(e) <= WORD
  {
    WordIsPow2();
    Int64.Pow2Adds(e, BITS - e);
    MultipleBelow(x, Int64.Pow2(e), Int64.Pow2(BITS - e));
  }

  // ----- only powers of two can be rounded with a mask -----

  lemma {:induction false} AndComplement(h: nat, k: nat)
    requires h < Int64.Pow2(k)
    ensures Int64.BitAnd(h, Int64.Pow2(k) - 1 - h) == 0
  {
    if k > 0 {
      AndComplement(h / 2, k - 1);
      var c := Int64.Pow2(k) - 1 - h;
      assert c / 2 == Int64.Pow2(k - 1) - 1 - h / 2 && h % 2 * (c % 2) == 0;
    }
  }

  lemma {:induction false} LowestBit(b: nat, n: nat)
    requires 0 < b < Int64.Pow2(n) && Int64.BitAnd(b, Int64.Pow2(n) - b) == b
    ensures IsPow2(b)
  {
    var h, half := b / 2, Int64.Pow2(n - 1);
    if b % 2 == 0 {
      assert Int64.Pow2(n) - b == 2 * (half - h);
      AndEven(b, half - h);
      LowestBit(h, n - 1);
      var e: nat :| h == Int64.Pow2(e);
      assert b == Int64.Pow2(e + 1);
    } else {
      AndComplement(h, n - 1);
      OddAnd(b, half - 1 - h);
      assert b == Int64.Pow2(0);
    }
  }

  lemma OddAnd(b: nat, c: nat)
    requires b % 2 == 1
    ensures Int64.BitAnd(b, 2 * c + 1) == 1 + 2 * Int64.BitAnd(b / 2, c)
  {
    assert (2 * c + 1) / 2 == c && (2 * c + 1) % 2 == 1;
  }

  ghost predicate MaskAgrees(bytes: nat)
    requires 0 < bytes <= WORD
  {
    forall so: nat :: NextMultipleOf(so, bytes) < WORD ==> MaskUp(so, bytes) == NextMultipleOf(so, bytes)
  }

  /** The two roundings agree on every offset exactly for element sizes that are powers of two. */
  lemma MaskAgreesIff(bytes: nat)
    requires 0 < bytes <= WORD
    ensures MaskAgrees(bytes) <==> IsPow2(bytes)
  {
    if IsPow2(bytes) {
      hide Int64.BitAnd;
      forall so: nat | NextMultipleOf(so, bytes) < WORD ensures MaskUp(so, bytes) == NextMultipleOf(so, bytes) {
        MaskRounds(so, bytes);
      }
    } else {
      OffsetOneDiffers(bytes);
    }
  }

  lemma OffsetOneDiffers(bytes: nat)
    requires 0 < bytes <= WORD && !IsPow2(bytes)
    ensures NextMultipleOf(1, bytes) == bytes < WORD && MaskUp(1, bytes) != bytes
  {
    WordIsPow2();
    assert bytes != 1 by { assert Int64.Pow2(0) == 1; }
    assert bytes != WORD;
    hide Int64.BitAnd, IsPow2, Int64.Pow2;
    DivMod(bytes, 0, 1);
    DivMod(WORD, 0, bytes);
    if Int64.BitAnd(bytes, WORD - bytes) == bytes { LowestBit(bytes, BITS); }
  }

  // ----- in lockstep -----

  /** The two warp counts agree exactly when there is a thread. */
  lemma WarpsAgree(threads: nat)
    requires threads + 31 < WORD
    ensures DeviceWarps(threads) == HostWarps(threads) <==> threads >= 1
  {
    var q, r := threads / 32, threads % 32;
    if r == 0 { DivMod(32, q, 31); } else { DivMod(32, q + 1, r - 1); }
    DivMod(WORD, 0, threads + 31);
  }

  lemma {:induction false} EndsGrow(arrays: seq<Array>, warps: nat, i: nat, n: nat)
    requires i <= n <= |arrays| && forall i :: 0 <= i < |arrays| ==> 0 < arrays[i].bytes
    ensures End(arrays, warps, i) <= End(arrays, warps, n)
    ensures i < n ==> End(arrays, warps, i) <= Base(arrays, warps, i) <= Base(arrays, warps, i) + Size(arrays[i], warps) <= End(arrays, warps, n)
    decreases n
  {
    if i < n {
      EndsGrow(arrays, warps, i, n - 1);
      RoundingUp(End(arrays, warps, n - 1), arrays[n - 1].bytes);
      RoundingUp(End(arrays, warps, i), arrays[i].bytes);
    }
  }

  // ----- the regions -----

  /** Bytes of one copy of array i. */
  function Piece(a: Array): nat { a.count * a.bytes }

  /** Start of copy w of a region. */
  function SliceStart(base: nat, piece: nat, w: nat): nat { base + piece * w }

  lemma SliceFits(base: nat, piece: nat, w: nat, copies: nat)
    requires w < copies
    ensures base <= SliceStart(base, piece, w)
    ensures SliceStart(base, piece, w) + piece <= base + piece * copies
  {
    MulOrder(piece, w + 1, copies);
    assert piece * (w + 1) == piece * w + piece;
  }

  lemma SliceAligned(base: nat, count: nat, bytes: nat, w: nat)
    requires bytes > 0 && base % bytes == 0
    ensures SliceStart(base, count * bytes, w) % bytes == 0
  {
    var q := base / bytes;
    assert base == bytes * q;
    assert (count * bytes) * w == bytes * (count * w);
    assert base + (count * bytes) * w == bytes * (q + count * w);
    DivMod(bytes, q + count * w, 0);
  }

  lemma SizeOfCopies(a: Array, warps: nat)
    ensures Size(a, warps) == Piece(a) * Copies(a, warps)
  {
    assert Copies(a, warps) * a.count * a.bytes == (a.count * a.bytes) * Copies(a, warps);
  }

  /** Every copy of every array is aligned and lies inside the total. */
  lemma SliceInside(arrays: seq<Array>, warps: nat, i: nat, w: nat)
    requires Valid(arrays) && i < |arrays| && w < Copies(arrays[i], warps)
    ensures var start := SliceStart(Base(arrays, warps, i), Piece(arrays[i]), w);
            && start % arrays[i].bytes == 0
            && End(arrays, warps, i) <= start
            && start + Piece(arrays[i]) <= End(arrays, warps, i + 1) <= End(arrays, warps, |arrays|)
  {
    hide SliceStart, Copies, Size;
    RoundingUp(End(arrays, warps, i), arrays[i].bytes);
    EndsGrow(arrays, warps, i + 1, |arrays|);
    SizeOfCopies(arrays[i], warps);
    SliceFits(Base(arrays, warps, i), Piece(arrays[i]), w, Copies(arrays[i], warps));
    SliceAligned(Base(arrays, warps, i), arrays[i].count, arrays[i].bytes, w);
  }

  /** No two copies overlap. */
  lemma SlicesDisjoint(arrays: seq<Array>, warps: nat, i: nat, w: nat, j: nat, v: nat)
    requires Valid(arrays) && i < |arrays| && j < |arrays| && w < Copies(arrays[i], warps) && v < Copies(arrays[j], warps)
    requires i < j || (i == j && w < v)
    ensures SliceStart(Base(arrays, warps, i), Piece(arrays[i]), w) + Piece(arrays[i])
            <= SliceStart(Base(arrays, warps, j), Piece(arrays[j]), v)
  {
    if i < j {
      SliceInside(arrays, warps, i, w);
      SliceInside(arrays, warps, j, v);
      EndsGrow(arrays, warps, i + 1, j);
      hide Base, End, SliceStart, Piece;
    } else {
      SliceFits(Base(arrays, warps, i), Piece(arrays[i]), w, v);
    }
  }

  // ----- the layout in terms of threads and bytes -----

  /** Who has a copy of the array: every warp that has a thread, or the group as a whole. */
  predicate HasCopy(a: Array, threads: nat, w: nat) {
    if a.perWarp then 32 * w < threads else w == 0
  }

  /** Copy w of an array that starts at base, as first byte and byte after the last. */
  function CopyFrom(a: Array, base: nat, w: nat): nat { base + a.count * a.bytes * w }
  function CopyTo(a: Array, base: nat, w: nat): nat { base + a.count * a.bytes * w + a.count * a.bytes }

  predicate CopyInside(a: Array, base: nat, total: nat, w: nat)
    requires a.bytes > 0
  {
    CopyFrom(a, base, w) % a.bytes == 0 && CopyTo(a, base, w) <= total
  }

  predicate CopiesApart(a: Array, base: nat, w: nat, b: Array, base': nat, v: nat) {
    CopyTo(a, base, w) <= CopyFrom(b, base', v) || CopyTo(b, base', v) <= CopyFrom(a, base, w)
  }

  /** Every copy of every array is aligned and inside the allocation, and no two overlap. */
  ghost predicate LaidOut(arrays: seq<Array>, threads: nat, bases: seq<nat>, total: nat)
    requires |bases| == |arrays| && forall i :: 0 <= i < |arrays| ==> 0 < arrays[i].bytes
  {
    && (forall i, w: nat :: 0 <= i < |arrays| && HasCopy(arrays[i], threads, w) ==> CopyInside(arrays[i], bases[i], total, w))
    && (forall i, w: nat, j, v: nat ::
          (0 <= i < |arrays| && 0 <= j < |arrays| && HasCopy(arrays[i], threads, w) && HasCopy(arrays[j], threads, v)
           && (i != j || w != v)) ==>
            CopiesApart(arrays[i], bases[i], w, arrays[j], bases[j], v))
  }

  lemma CopyExists(a: Array, threads: nat, w: nat)
    requires HasCopy(a, threads, w)
    ensures w < Copies(a, HostWarps(threads))
  {
  }

  lemma OneOrder(arrays: seq<Array>, threads: nat, i: nat, w: nat, j: nat, v: nat)
    requires Valid(arrays) && i < |arrays| && j < |arrays| && HasCopy(arrays[i], threads, w) && HasCopy(arrays[j], threads, v)
    requires i < j || (i == j && w < v)
    ensures CopyTo(arrays[i], Base(arrays, HostWarps(threads), i), w) <= CopyFrom(arrays[j], Base(arrays, HostWarps(threads), j), v)
  {
    CopyExists(arrays[i], threads, w);
    CopyExists(arrays[j], threads, v);
    SlicesDisjoint(arrays, HostWarps(threads), i, w, j, v);
    hide Base, HostWarps, HasCopy;
  }

  lemma BasesLaidOut(arrays: seq<Array>, threads: nat, bases: seq<nat>)
    requires Valid(arrays) && |bases| == |arrays|
    requires forall i :: 0 <= i < |arrays| ==> bases[i] == Base(arrays, HostWarps(threads), i)
    ensures LaidOut(arrays, threads, bases, End(arrays, HostWarps(threads), |arrays|))
  {
    var warps := HostWarps(threads);
    hide HostWarps, Base, End, HasCopy, Copies;
    forall i, w: nat | 0 <= i < |arrays| && HasCopy(arrays[i], threads, w)
      ensures CopyInside(arrays[i], bases[i], End(arrays, warps, |arrays|), w)
    {
      CopyExists(arrays[i], threads, w);
      SliceInside(arrays, warps, i, w);
    }
    hide CopyTo, CopyFrom;
    forall i, w: nat, j, v: nat
      | 0 <= i < |arrays| && 0 <= j < |arrays| && HasCopy(arrays[i], threads, w) && HasCopy(arrays[j], threads, v) && (i != j || w != v)
      ensures CopiesApart(arrays[i], bases[i], w, arrays[j], bases[j], v)
    {
      if i < j || (i == j && w < v) {
        OneOrder(arrays, threads, i, w, j, v);
      } else {
        OneOrder(arrays, threads, j, v, i, w);
      }
    }
  }

  /** n is the number of warps that have a thread. */
  predicate Fills(n: nat, threads: nat) { 32 * (n - 1) < threads <= 32 * n }

  /** What one array takes: one copy, or one for each warp that has a thread. */
  ghost predicate TakesOnly(a: Array, threads: nat, total: nat) {
    if !a.perWarp then total == a.count * a.bytes
    else forall n: nat :: threads >= 1 && Fills(n, threads) ==> total == n * a.count * a.bytes
  }

  lemma OneArray(a: Array, threads: nat)
    requires 0 < a.bytes
    ensures TakesOnly(a, threads, End([a], HostWarps(threads), 1))
  {
    assert Base([a], HostWarps(threads), 0) == 0;
    forall n: nat | threads >= 1 && Fills(n, threads) ensures HostWarps(threads) == n {}
  }

  // ----- both sides -----

  /** The offsets the device code computes, `_so` last. */
  method DeviceOffsets(arrays: seq<Array>, threads: nat) returns (bases: seq<nat>, so: nat)
    requires Valid(arrays) && 1 <= threads && threads + 31 < WORD
    requires End(arrays, HostWarps(threads), |arrays|) < WORD
    ensures |bases| == |arrays| && so == End(arrays, HostWarps(threads), |arrays|)
    ensures forall i :: 0 <= i < |arrays| ==> bases[i] == Base(arrays, HostWarps(threads), i)
    ensures LaidOut(arrays, threads, bases, so)
  {
    var nw := DeviceWarps(threads);
    WarpsAgree(threads);
    hide DeviceWarps, HostWarps, MaskUp, Size, NextMultipleOf, LaidOut;
    bases, so := [], 0;
    for i := 0 to |arrays|
      invariant |bases| == i && so == End(arrays, nw, i)
      invariant forall j :: 0 <= j < i ==> bases[j] == Base(arrays, nw, j)
    {
      EndsGrow(arrays, nw, i, |arrays|);
      var base;
      base, so := Place(arrays[i], nw, so);
      bases := bases + [base];
    }
    BasesLaidOut(arrays, threads, bases);
  }

  /** One array: align `_so`, take it as the base, add `wf * count * sizeof(T)`, whose first
      product is taken in 32 bits. */
  method Place(a: Array, nw: nat, so: nat) returns (base: nat, so': nat)
    requires IsPow2(a.bytes) && 0 < a.bytes <= WORD && NextMultipleOf(so, a.bytes) + Size(a, nw) < WORD
    ensures base == NextMultipleOf(so, a.bytes) && so' == base + Size(a, nw)
  {
    MaskRounds(so, a.bytes);
    base := if a.bytes > 1 then MaskUp(so, a.bytes) else so;
    hide MaskUp, IsPow2;
    var elems := Copies(a, nw) * a.count;
    MulLeast(elems, a.bytes);
    DivMod(WORD, 0, elems);
    DivMod(WORD, 0, base + elems * a.bytes);
    so' := (base + elems % WORD * a.bytes) % WORD;
  }

  /** `shared_bytes`. */
  method HostBytes(arrays: seq<Array>, threads: nat) returns (total: nat)
    requires Valid(arrays)
    ensures total == End(arrays, HostWarps(threads), |arrays|)
    ensures |arrays| == 1 ==> TakesOnly(arrays[0], threads, total)
  {
    var nw := HostWarps(threads);
    total := 0;
    for i := 0 to |arrays|
      invariant total == End(arrays, nw, i)
    {
      if arrays[i].bytes > 1 { total := NextMultipleOf(total, arrays[i].bytes); }
      total := total + Copies(arrays[i], nw) * arrays[i].count * arrays[i].bytes;
    }
    if |arrays| == 1 {
      OneArray(arrays[0], threads);
      assert arrays == [arrays[0]];
    }
  }

  /** A launch: the host sizes the allocation, the device places the arrays in it. */
  method Launch(arrays: seq<Array>, threads: nat) returns (bases: seq<nat>, total: nat)
    requires Valid(arrays) && 1 <= threads && threads + 31 < WORD
    requires End(arrays, HostWarps(threads), |arrays|) < WORD
    ensures |bases| == |arrays| && LaidOut(arrays, threads, bases, total)
  {
    total := HostBytes(arrays, threads);
    var so;
    bases, so := DeviceOffsets(arrays, threads);
  }
}
