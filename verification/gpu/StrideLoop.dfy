/**
 The strided loops by which the threads of a group share one row: the 4-wide form of the
 MSL backend and the grid-stride form of the CUDA backend.
 */
module StrideLoop {
  import opened Folds
  import opened Arith
  import ReduceProtocol

  /** Which thread visits an index. */
  type Owner = nat -> nat

  /** The indices of [lo, hi) that thread t owns, in order. */
  function Owned(own: Owner, lo: nat, hi: nat, t: nat): (r: seq<nat>)
    ensures Within(r, hi)
  {
    if hi <= lo then [] else
    Owned(own, lo, hi - 1, t) + (if own(hi - 1) == t then [hi - 1] else [])
  }

  lemma {:induction false} OwnedSkip(own: Owner, lo: nat, mid: nat, hi: nat, t: nat)
    requires lo <= mid <= hi && forall i: nat :: mid <= i < hi ==> own(i) != t
    ensures Skips(own, lo, mid, hi, t)
    decreases hi - mid
  {
    if mid < hi { OwnedSkip(own, lo, mid, hi - 1, t); }
  }

  /** Thread t owns nothing in [mid, hi). */
  ghost predicate Skips(own: Owner, lo: nat, mid: nat, hi: nat, t: nat) {
    Owned(own, lo, hi, t) == Owned(own, lo, mid, t)
  }

  /** An index belongs to its owner's list exactly once and to no other list. */
  lemma {:induction false} OwnedOnce(own: Owner, lo: nat, hi: nat, t: nat, i: nat)
    ensures multiset(Owned(own, lo, hi, t))[i] == if lo <= i < hi && own(i) == t then 1 else 0
    decreases hi
  {
    if lo < hi {
      OwnedOnce(own, lo, hi - 1, t, i);
      var a: seq<nat>, b: seq<nat> := Owned(own, lo, hi - 1, t), if own(hi - 1) == t then [hi - 1] else [];
      assert Owned(own, lo, hi, t) == a + b;
      hide Owned;
      assert multiset(a + b)[i] == multiset(a)[i] + multiset(b)[i];
    }
  }

  // ----- the threads together -----

  /** What thread t accumulates: the fold of its own elements, in order. */
  function Mine<T>(m: Monoid<T>, src: seq<T>, own: Owner, lo: nat, hi: nat, t: nat): T
    requires hi <= |src|
  {
    Fold(m, Pick(src, Owned(own, lo, hi, t)))
  }

  function Shares<T>(m: Monoid<T>, src: seq<T>, own: Owner, lo: nat, hi: nat, n: nat): (r: seq<T>)
    requires hi <= |src|
    ensures |r| == n
  {
    seq(n, t requires 0 <= t < n => Mine(m, src, own, lo, hi, t))
  }

  lemma FoldUpdate<T(!new)>(m: Monoid<T>, s: seq<T>, t: nat, x: T)
    requires Lawful(m) && t < |s|
    ensures Fold(m, s[t := m.op(s[t], x)]) == m.op(Fold(m, s), x)
  {
    var a, b := s[..t], s[t + 1..];
    assert s == a + [s[t]] + b && s[t := m.op(s[t], x)] == a + [m.op(s[t], x)] + b;
    hide Lawful, Fold;
    FoldMove(m, a, s[t], b);
    FoldMove(m, a, m.op(s[t], x), b);
    Exchange(m, Fold(m, a + b), s[t], x);
  }

  /** Folding every thread's own indices and then the threads is folding the row. */
  lemma {:induction false} SharesFold<T(!new)>(m: Monoid<T>, src: seq<T>, own: Owner, lo: nat, hi: nat, n: nat)
    requires Lawful(m) && lo <= hi <= |src| && forall i: nat :: own(i) < n
    ensures Fold(m, Shares(m, src, own, lo, hi, n)) == Fold(m, src[lo..hi])
    decreases hi
  {
    hide Lawful, Fold, Mine, Shares;
    if hi == lo {
      NoShares(m, src, own, lo, n);
    } else {
      SharesFold(m, src, own, lo, hi - 1, n);
      NextShares(m, src, own, lo, hi, n);
      assert src[lo..hi] == src[lo..hi - 1] + [src[hi - 1]];
      FoldSnoc(m, src[lo..hi - 1], src[hi - 1]);
      FoldUpdate(m, Shares(m, src, own, lo, hi - 1, n), own(hi - 1), src[hi - 1]);
    }
  }

  lemma NoShares<T(!new)>(m: Monoid<T>, src: seq<T>, own: Owner, lo: nat, n: nat)
    requires Lawful(m) && lo <= |src|
    ensures Fold(m, Shares(m, src, own, lo, lo, n)) == m.unit == Fold(m, src[lo..lo])
  {
    ReduceProtocol.FoldUnits(m, Shares(m, src, own, lo, lo, n));
  }

  lemma NextShares<T>(m: Monoid<T>, src: seq<T>, own: Owner, lo: nat, hi: nat, n: nat)
    requires lo < hi <= |src| && own(hi - 1) < n
    ensures var before, t := Shares(m, src, own, lo, hi - 1, n), own(hi - 1);
            Shares(m, src, own, lo, hi, n) == before[t := m.op(before[t], src[hi - 1])]
  {
    hide Mine;
    var before, t := Shares(m, src, own, lo, hi - 1, n), own(hi - 1);
    forall u | 0 <= u < n ensures Shares(m, src, own, lo, hi, n)[u] == before[t := m.op(before[t], src[hi - 1])][u] {
      NextShare(m, src, own, lo, hi, u);
    }
  }

  lemma MineSkips<T>(m: Monoid<T>, src: seq<T>, own: Owner, lo: nat, mid: nat, hi: nat, t: nat)
    requires mid <= |src| && hi <= |src| && Skips(own, lo, mid, hi, t)
    ensures Mine(m, src, own, lo, hi, t) == Mine(m, src, own, lo, mid, t)
    ensures hi <= lo ==> Mine(m, src, own, lo, hi, t) == m.unit
    ensures mid <= lo ==> Mine(m, src, own, lo, mid, t) == m.unit
  {
  }

  lemma NextShare<T>(m: Monoid<T>, src: seq<T>, own: Owner, lo: nat, hi: nat, u: nat)
    requires lo < hi <= |src|
    ensures var before := Mine(m, src, own, lo, hi - 1, u);
            Mine(m, src, own, lo, hi, u) == if own(hi - 1) == u then m.op(before, src[hi - 1]) else before
  {
    var p := Owned(own, lo, hi - 1, u);
    if own(hi - 1) != u {
      assert p + [] == p;
    } else {
      assert Pick(src, p + [hi - 1]) == Pick(src, p) + [src[hi - 1]];
      FoldSnoc(m, Pick(src, p), src[hi - 1]);
    }
  }

  // ----- who owns what -----

  /** Slot x of a round-robin over n threads, in rows of n. */
  lemma RoundRobin(n: nat, b: nat, r: nat)
    requires r < n
    ensures (n * b + r) % n == r
  {
    DivMod(n, b, r);
  }

  /** Between two visits of a thread come the other threads. */
  lemma OthersBetween(n: nat, b: nat, r: nat, x: nat)
    requires r < n && n * b + r < x < n * b + r + n
    ensures x % n != r
  {
    if x < n * b + n {
      RoundRobin(n, b, x - n * b);
    } else {
      assert n * (b + 1) == n * b + n;
      RoundRobin(n, b + 1, x - n * (b + 1));
    }
  }

  /** Threads take turns index by index. */
  function GridOwner(off: nat, lsize: nat): (own: Owner)
    requires lsize > 0
    ensures forall i: nat :: own(i) < lsize
  {
    (i: nat) => if i < off then 0 else (i - off) % lsize
  }

  /** Threads take turns in groups of four indices. */
  function QuadOwner(off: nat, lsize: nat): (own: Owner)
    requires lsize > 0
    ensures forall i: nat :: own(i) < lsize
  {
    (i: nat) => if i < off then 0 else ((i - off) / 4) % lsize
  }

  lemma GridGap(off: nat, lsize: nat, b: nat, tid: nat, hi: nat)
    requires tid < lsize
    requires var i := off + lsize * b + tid; i < hi <= i + lsize
    ensures var own, i := GridOwner(off, lsize), off + lsize * b + tid;
            own(i) == tid && Skips(own, off, i + 1, hi, tid)
  {
    var own, i := GridOwner(off, lsize), off + lsize * b + tid;
    RoundRobin(lsize, b, tid);
    forall j: nat | i + 1 <= j < hi ensures own(j) != tid { OthersBetween(lsize, b, tid, j - off); }
    OwnedSkip(own, off, i + 1, hi, tid);
  }

  lemma GridStart(off: nat, lsize: nat, tid: nat, hi: nat)
    requires tid < lsize && off <= hi <= off + tid
    ensures Skips(GridOwner(off, lsize), off, off, hi, tid)
  {
    var own := GridOwner(off, lsize);
    forall j: nat | off <= j < hi ensures own(j) != tid { RoundRobin(lsize, 0, j - off); }
    OwnedSkip(own, off, off, hi, tid);
  }

  /** `for (i = off + tid; i < end; i += lsize)`. */
  method GridStride<T>(m: Monoid<T>, src: seq<T>, off: nat, end: nat, lsize: nat, tid: nat) returns (acc: T)
    requires tid < lsize && off <= end <= |src|
    ensures acc == Mine(m, src, GridOwner(off, lsize), off, end, tid)
  {
    hide Fold, Owned, Mine, GridOwner;
    acc := m.unit;
    var i := off + tid;
    ghost var own, b := GridOwner(off, lsize), 0;
    GridStart(off, lsize, tid, Min(i, end));
    MineSkips(m, src, own, off, off, Min(i, end), tid);
    while i < end
      invariant i == off + lsize * b + tid
      invariant acc == Mine(m, src, own, off, Min(i, end), tid)
      decreases end - i
    {
      acc := m.op(acc, src[i]);
      NextShare(m, src, own, off, i + 1, tid);
      GridGap(off, lsize, b, tid, Min(i + lsize, end));
      MineSkips(m, src, own, off, i + 1, Min(i + lsize, end), tid);
      assert lsize * (b + 1) == lsize * b + lsize;
      b := b + 1;
      i := i + lsize;
    }
  }

  function Min(a: nat, b: nat): nat { if a < b then a else b }

  function QuadStart(off: nat, lsize: nat, b: nat, tid: nat): nat { off + 4 * (lsize * b + tid) }

  /** The four indices of a group belong to its thread; the next ones do not. */
  lemma QuadGroup(off: nat, lsize: nat, b: nat, tid: nat, k: nat)
    requires tid < lsize && k < 4
    ensures QuadOwner(off, lsize)(QuadStart(off, lsize, b, tid) + k) == tid
  {
    var x := lsize * b + tid;
    assert (4 * x + k) / 4 == x;
    RoundRobin(lsize, b, tid);
  }

  lemma QuadOthers(off: nat, lsize: nat, b: nat, tid: nat, hi: nat)
    requires tid < lsize && hi <= QuadStart(off, lsize, b, tid) + 4 * lsize
    ensures forall j: nat :: QuadStart(off, lsize, b, tid) + 4 <= j < hi ==> QuadOwner(off, lsize)(j) != tid
  {
    forall j: nat | QuadStart(off, lsize, b, tid) + 4 <= j < hi ensures QuadOwner(off, lsize)(j) != tid {
      OthersBetween(lsize, b, tid, (j - off) / 4);
    }
  }

  lemma QuadOthersBefore(off: nat, lsize: nat, tid: nat, hi: nat)
    requires tid < lsize && hi <= off + 4 * tid
    ensures forall j: nat :: off <= j < hi ==> QuadOwner(off, lsize)(j) != tid
  {
    forall j: nat | off <= j < hi ensures QuadOwner(off, lsize)(j) != tid { RoundRobin(lsize, 0, (j - off) / 4); }
  }

  lemma QuadGap(off: nat, lsize: nat, b: nat, tid: nat, hi: nat)
    requires tid < lsize
    requires var i := QuadStart(off, lsize, b, tid); i + 4 <= hi <= i + 4 * lsize
    ensures var own := QuadOwner(off, lsize);
            Skips(own, off, QuadStart(off, lsize, b, tid) + 4, hi, tid)
  {
    var own, i := QuadOwner(off, lsize), QuadStart(off, lsize, b, tid);
    QuadOthers(off, lsize, b, tid, hi);
    OwnedSkip(own, off, i + 4, hi, tid);
  }

  lemma QuadBefore(off: nat, lsize: nat, tid: nat, hi: nat)
    requires tid < lsize && off <= hi <= off + 4 * tid
    ensures Skips(QuadOwner(off, lsize), off, off, hi, tid)
  {
    QuadOthersBefore(off, lsize, tid, hi);
    OwnedSkip(QuadOwner(off, lsize), off, off, hi, tid);
  }

  lemma NextStart(off: nat, lsize: nat, b: nat, tid: nat)
    ensures QuadStart(off, lsize, b + 1, tid) == QuadStart(off, lsize, b, tid) + 4 * lsize
    ensures QuadStart(off, lsize, 0, tid) == off + 4 * tid
  {
    assert lsize * (b + 1) == lsize * b + lsize;
  }

  lemma StartOrder(off: nat, lsize: nat, a: nat, b: nat, tid: nat)
    requires a <= b
    ensures off <= QuadStart(off, lsize, a, tid) <= QuadStart(off, lsize, b, tid)
  {
    MulOrder(lsize, a, b);
  }

  /** The counters of the 4-wide loop: how many whole groups, and how many left over. */
  method Counters(off: nat, end: nat, lsize: nat, tid: nat) returns (full: nat, xtra: int)
    requires tid < lsize && off <= end
    ensures xtra < 4
    ensures if xtra > 0 then QuadStart(off, lsize, full, tid) + xtra == end else QuadStart(off, lsize, full, tid) >= end
    ensures full > 0 ==> QuadStart(off, lsize, full - 1, tid) + 4 <= end
  {
    var sz := end - off;
    full := sz / (lsize * 4);
    xtra := sz - full * lsize * 4 - tid * 4;
    var row := lsize * 4;
    assert sz == row * full + sz % row;
    assert row * full == 4 * (lsize * full) == full * lsize * 4;
    if full > 0 { NextStart(off, lsize, full - 1, tid); }
    if xtra >= 4 {
      NextStart(off, lsize, full, tid);
      full, xtra := full + 1, 0;
    }
  }

  /** The 4-wide loop of one thread. */
  method QuadStride<T>(m: Monoid<T>, src: seq<T>, off: nat, end: nat, lsize: nat, tid: nat) returns (acc: T)
    requires tid < lsize && off <= end <= |src|
    ensures acc == Mine(m, src, QuadOwner(off, lsize), off, end, tid)
  {
    hide Fold, Owned, Mine, QuadOwner, QuadStart;
    acc := m.unit;
    var full, xtra := Counters(off, end, lsize, tid);
    var base := off + tid * 4;
    ghost var own := QuadOwner(off, lsize);
    NextStart(off, lsize, 0, tid);
    StartOrder(off, lsize, 0, full, tid);
    QuadBefore(off, lsize, tid, Min(base, end));
    MineSkips(m, src, own, off, off, Min(base, end), tid);
    for b := 0 to full
      invariant base == QuadStart(off, lsize, b, tid)
      invariant acc == Mine(m, src, own, off, Min(base, end), tid)
    {
      StartOrder(off, lsize, b, full - 1, tid);
      for k := 0 to 4
        invariant acc == Mine(m, src, own, off, base + k, tid)
      {
        acc := m.op(acc, src[base + k]);
        QuadGroup(off, lsize, b, tid, k);
        NextShare(m, src, own, off, base + k + 1, tid);
      }
      QuadGap(off, lsize, b, tid, Min(base + 4 * lsize, end));
      MineSkips(m, src, own, off, base + 4, Min(base + 4 * lsize, end), tid);
      NextStart(off, lsize, b, tid);
      base := base + lsize * 4;
    }
    var k := 0;
    while k < xtra
      invariant 0 <= k && (xtra > 0 ==> k <= xtra)
      invariant acc == Mine(m, src, own, off, Min(base + k, end), tid)
    {
      acc := m.op(acc, src[base + k]);
      QuadGroup(off, lsize, full, tid, k);
      NextShare(m, src, own, off, base + k + 1, tid);
      k := k + 1;
    }
  }

  // ----- the reduction of a row -----

  /** Both lowerings of a strided reduction give the plain fold of the row once the threads' results
      are combined. */
  lemma BothLoopsFold<T(!new)>(m: Monoid<T>, src: seq<T>, off: nat, end: nat, lsize: nat)
    requires Lawful(m) && lsize > 0 && off <= end <= |src|
    ensures Fold(m, Shares(m, src, QuadOwner(off, lsize), off, end, lsize)) == Fold(m, src[off..end])
    ensures Fold(m, Shares(m, src, GridOwner(off, lsize), off, end, lsize)) == Fold(m, src[off..end])
  {
    SharesFold(m, src, QuadOwner(off, lsize), off, end, lsize);
    SharesFold(m, src, GridOwner(off, lsize), off, end, lsize);
  }

  /** With one warp its own fold is already the result: the single-simdgroup form. */
  lemma SingleWarp<T(!new)>(c: ReduceProtocol.Config<T>, t: nat)
    requires ReduceProtocol.Valid(c) && c.warps == 1
    ensures ReduceProtocol.Partial(c, t, 0) == ReduceProtocol.Total(c, t)
  {
    assert ReduceProtocol.Share(c, t, 0) == c.input(t);
  }

  /** Strided loop and two-level reduction together: under every schedule, what a warp
      reads in iteration t is the plain fold of row t. */
  lemma RowIsReduced<T(!new)>(c: ReduceProtocol.Config<T>, rows: nat -> seq<T>, off: nat, end: nat, quads: bool,
                              s: ReduceProtocol.Sys<T>, schedule: seq<nat>, w: nat, t: nat)
    requires ReduceProtocol.Valid(c) && ReduceProtocol.Reentrant(c) && ReduceProtocol.Start(c, s)
    requires off <= end && forall u :: end <= |rows(u)|
    requires forall u :: c.input(u) ==
               Shares(c.m, rows(u), if quads then QuadOwner(off, Threads(c)) else GridOwner(off, Threads(c)), off, end, Threads(c))
    requires w < c.warps && t < |ReduceProtocol.After(c, s, schedule).out[w]|
    ensures ReduceProtocol.After(c, s, schedule).out[w][t] == Fold(c.m, rows(t)[off..end])
  {
    ReduceProtocol.ReductionIsCorrect(c);
    BothLoopsFold(c.m, rows(t), off, end, Threads(c));
    assert ReduceProtocol.Total(c, t) == Fold(c.m, rows(t)[off..end]);
  }

  function Threads<T(!new)>(c: ReduceProtocol.Config<T>): (n: nat)
    ensures c.warps > 0 && c.lanes > 0 ==> n > 0
  {
    if c.warps > 0 then MulLeast(c.lanes, c.warps); c.warps * c.lanes else 0
  }

  // ----- the strided store -----

  /** The cells of [lo, mid) that thread tid owns have been written, and no others. */
  ghost predicate Written<T(!new)>(now: seq<T>, was: seq<T>, out: seq<T>, own: Owner, lo: nat, mid: nat, tid: nat) {
    && |now| == |was| == |out|
    && forall i: nat :: i < |now| ==> now[i] == if lo <= i < mid && own(i) == tid then out[i] else was[i]
  }

  lemma WrittenSkips<T(!new)>(now: seq<T>, was: seq<T>, out: seq<T>, own: Owner, lo: nat, mid: nat, hi: nat, tid: nat)
    requires Written(now, was, out, own, lo, mid, tid) && mid <= hi && forall j: nat :: mid <= j < hi ==> own(j) != tid
    ensures Written(now, was, out, own, lo, hi, tid)
  {
  }

  /** The inner loop: n cells from base. */
  method StoreRun<T(!new)>(dst: array<T>, out: seq<T>, base: nat, n: nat, ghost was: seq<T>, ghost own: Owner, ghost lo: nat, ghost tid: nat)
    requires lo <= base && base + n <= dst.Length && Written(dst[..], was, out, own, lo, base, tid)
    requires forall j: nat :: base <= j < base + n ==> own(j) == tid
    modifies dst
    ensures Written(dst[..], was, out, own, lo, base + n, tid)
  {
    for k := 0 to n
      invariant Written(dst[..], was, out, own, lo, base + k, tid)
    {
      dst[base + k] := out[base + k];
    }
  }

  /** What is written before group b. */
  ghost predicate StoredTo<T(!new)>(now: seq<T>, was: seq<T>, out: seq<T>, off: nat, end: nat, lsize: nat, tid: nat, b: nat)
    requires lsize > 0
  {
    Written(now, was, out, QuadOwner(off, lsize), off, Min(QuadStart(off, lsize, b, tid), end), tid)
  }

  /** One group of four. */
  method StoreGroup<T(!new)>(dst: array<T>, out: seq<T>, base: nat, ghost was: seq<T>, ghost off: nat, ghost end: nat, lsize: nat, tid: nat, ghost b: nat)
    requires tid < lsize && off <= end <= dst.Length && base == QuadStart(off, lsize, b, tid) && base + 4 <= end
    requires StoredTo(dst[..], was, out, off, end, lsize, tid, b)
    modifies dst
    ensures StoredTo(dst[..], was, out, off, end, lsize, tid, b + 1)
  {
    ghost var own := QuadOwner(off, lsize);
    forall j: nat | base <= j < base + 4 ensures own(j) == tid { QuadGroup(off, lsize, b, tid, j - base); }
    NextStart(off, lsize, b, tid);
    QuadOthers(off, lsize, b, tid, Min(base + 4 * lsize, end));
    StartOrder(off, lsize, 0, b, tid);
    hide QuadOwner, QuadStart, Written;
    StoreRun(dst, out, base, 4, was, own, off, tid);
    WrittenSkips(dst[..], was, out, own, off, base + 4, Min(base + 4 * lsize, end), tid);
  }

  lemma StoreStarts<T(!new)>(was: seq<T>, out: seq<T>, off: nat, end: nat, lsize: nat, tid: nat)
    requires tid < lsize && off <= end && |out| == |was|
    ensures StoredTo(was, was, out, off, end, lsize, tid, 0)
  {
    NextStart(off, lsize, 0, tid);
    QuadOthersBefore(off, lsize, tid, Min(off + 4 * tid, end));
  }

  /** One thread of the 4-wide store. */
  method QuadStore<T(!new)>(dst: array<T>, out: seq<T>, off: nat, end: nat, lsize: nat, tid: nat)
    requires tid < lsize && off <= end <= dst.Length && |out| == dst.Length
    modifies dst
    ensures Written(dst[..], old(dst[..]), out, QuadOwner(off, lsize), off, end, tid)
  {
    var full, xtra := Counters(off, end, lsize, tid);
    var base := off + tid * 4;
    ghost var was := dst[..];
    StoreStarts(was, out, off, end, lsize, tid);
    NextStart(off, lsize, 0, tid);
    hide QuadOwner, QuadStart, Written;
    for b := 0 to full
      invariant base == QuadStart(off, lsize, b, tid)
      invariant StoredTo(dst[..], was, out, off, end, lsize, tid, b)
    {
      StartOrder(off, lsize, b, full - 1, tid);
      StoreGroup(dst, out, base, was, off, end, lsize, tid, b);
      NextStart(off, lsize, b, tid);
      base := base + lsize * 4;
    }
    if xtra > 0 {
      StartOrder(off, lsize, 0, full, tid);
      ghost var own := QuadOwner(off, lsize);
      forall j: nat | base <= j < base + xtra ensures own(j) == tid { QuadGroup(off, lsize, full, tid, j - base); }
      StoreRun(dst, out, base, xtra, was, own, off, tid);
    }
  }

  /** All threads, in any order: every cell of the row is written, nothing else is. */
  method StoreRow<T(!new)>(dst: array<T>, out: seq<T>, off: nat, end: nat, lsize: nat, order: seq<nat>)
    requires 0 < lsize && off <= end <= dst.Length && |out| == dst.Length
    requires (forall t :: t in order ==> t < lsize) && (forall t: nat :: t < lsize ==> t in order)
    modifies dst
    ensures forall i :: 0 <= i < dst.Length ==> dst[i] == if off <= i < end then out[i] else old(dst[i])
  {
    ghost var own, was := QuadOwner(off, lsize), dst[..];
    for j := 0 to |order|
      invariant forall i: nat :: i < dst.Length ==>
                  dst[i] == if off <= i < end && own(i) in order[..j] then out[i] else was[i]
    {
      assert order[j] in order && order[..j + 1] == order[..j] + [order[j]];
      ghost var before := dst[..];
      QuadStore(dst, out, off, end, lsize, order[j]);
      forall i: nat | i < dst.Length
        ensures dst[i] == if off <= i < end && own(i) in order[..j + 1] then out[i] else was[i]
      {
        assert dst[i] == dst[..][i] == if off <= i < end && own(i) == order[j] then out[i] else before[i];
      }
    }
    assert order[..|order|] == order;
  }
}
