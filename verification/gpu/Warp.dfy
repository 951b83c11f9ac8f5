/**
 Shuffle-based reductions and scans inside one warp. All lanes step together, so one
 shuffle is one step from the sequence of lane values to the next.
 */
module Warp {
  import opened Folds
  import Int64

  function ShuffleXor<T>(s: seq<T>, o: nat): (r: seq<T>)
    requires forall l: nat :: l < |s| ==> Int64.BitXor(l, o) < |s|
    ensures |r| == |s|
  {
    seq(|s|, l requires 0 <= l < |s| => s[Int64.BitXor(l, o)])
  }

  /** A lane that would read past the end of the warp keeps its own value. */
  function ShuffleDown<T>(s: seq<T>, o: nat): (r: seq<T>)
    ensures |r| == |s|
  {
    seq(|s|, l requires 0 <= l < |s| => if l + o < |s| then s[l + o] else s[l])
  }

  function ShuffleUp<T>(s: seq<T>, o: nat): (r: seq<T>)
    ensures |r| == |s|
  {
    seq(|s|, l requires 0 <= l < |s| => if o <= l then s[l - o] else s[l])
  }

  function Combine<T>(m: Monoid<T>, s: seq<T>, x: seq<T>): (r: seq<T>)
    requires |s| == |x|
    ensures |r| == |s|
  {
    seq(|s|, l requires 0 <= l < |s| => m.op(s[l], x[l]))
  }

  // ----- lane numbers -----

  /** The low e bits of a lane number. */
  function Low(l: nat, e: nat): (r: nat)
    ensures r < Int64.Pow2(e) && r <= l
  {
    if e == 0 then 0 else l % 2 + 2 * Low(l / 2, e - 1)
  }

  lemma {:induction false} LowOfSmall(l: nat, e: nat)
    requires l < Int64.Pow2(e)
    ensures Low(l, e) == l
  {
    if e > 0 { LowOfSmall(l / 2, e - 1); }
  }

  /** Flipping bit e of a lane number adds or subtracts its weight. */
  lemma {:induction false} FlipBit(l: nat, e: nat)
    ensures var o := Int64.Pow2(e);
            var r := Low(l, e + 1);
            && Int64.BitXor(l, o) == (if r < o then l + o else l - o)
            && Low(Int64.BitXor(l, o), e + 1) == (if r < o then r + o else r - o)
            && Low(l, e) == if r < o then r else r - o
    decreases e
  {
    hide Int64.BitXor;
    if e == 0 {
      BottomBit(l);
      assert Low(l, 1) == l % 2 + 2 * Low(l / 2, 0);
    } else {
      hide Low;
      FlipBit(l / 2, e - 1);
      XorUnfold(l, Int64.Pow2(e - 1));
      var x := Int64.BitXor(l, Int64.Pow2(e));
      var h := Int64.BitXor(l / 2, Int64.Pow2(e - 1));
      assert x == l % 2 + 2 * h;
      assert x % 2 == l % 2 && x / 2 == h;
      LowUnfold(l, e);
      LowUnfold(l, e - 1);
      LowUnfold(x, e);
    }
  }

  lemma LowUnfold(l: nat, e: nat)
    ensures Low(l, e + 1) == l % 2 + 2 * Low(l / 2, e)
  {
  }

  lemma XorUnfold(l: nat, p: nat)
    requires p > 0
    ensures Int64.BitXor(l, 2 * p) == l % 2 + 2 * Int64.BitXor(l / 2, p)
  {
    Halves(l, p);
    var o := 2 * p;
    assert Int64.BitXor(l, o) == (l + o) % 2 + 2 * Int64.BitXor(l / 2, o / 2);
  }

  lemma Halves(l: nat, p: nat)
    ensures (l + 2 * p) % 2 == l % 2 && (2 * p) / 2 == p
  {
  }

  lemma BottomBit(l: nat)
    ensures Int64.BitXor(l, 1) == if l % 2 == 0 then l + 1 else l - 1
  {
    Int64.BitXorZero(l / 2);
    assert Int64.BitXor(l, 1) == (l + 1) % 2 + 2 * Int64.BitXor(l / 2, 0);
  }

  lemma {:induction false} FlipStays(l: nat, e: nat, n: nat)
    requires l < Int64.Pow2(n) && e < n
    ensures Int64.BitXor(l, Int64.Pow2(e)) < Int64.Pow2(n)
  {
    PowLess(e, n);
    Int64.BitXorBelow(l, Int64.Pow2(e), n);
  }

  lemma {:induction false} PowLess(e: nat, n: nat)
    requires e < n
    ensures Int64.Pow2(e) < Int64.Pow2(n)
    decreases n
  {
    if e < n - 1 { PowLess(e, n - 1); } 
  }

  // ----- reductions -----

  /** The first d lanes still hold everything, and lane l holds what lane `l mod d` holds. */
  ghost predicate Folded<T(!new)>(m: Monoid<T>, s0: seq<T>, s: seq<T>, e: nat, n: nat) {
    && |s| == |s0| == Int64.Pow2(n) && e <= n && Int64.Pow2(e) <= |s|
    && Fold(m, s[..Int64.Pow2(e)]) == Fold(m, s0)
  }

  ghost predicate Copies<T(!new)>(s: seq<T>, e: nat) {
    forall l :: 0 <= l < |s| ==> Low(l, e) < |s| && s[l] == s[Low(l, e)]
  }

  /** Adding the upper half of the first 2 * o lanes into the lower half loses nothing. */
  lemma HalfFolds<T(!new)>(m: Monoid<T>, s: seq<T>, t: seq<T>, o: nat)
    requires Lawful(m) && 2 * o <= |s| == |t|
    requires forall l :: 0 <= l < o ==> t[l] == m.op(s[l], s[l + o])
    ensures Fold(m, t[..o]) == Fold(m, s[..2 * o])
  {
    assert s[..2 * o] == s[..o] + s[o..2 * o];
    FoldConcat(m, s[..o], s[o..2 * o]);
    FoldZip(m, s[..o], s[o..2 * o], t[..o]);
  }

  /** One butterfly step. */
  lemma ButterflyStep<T(!new)>(m: Monoid<T>, s0: seq<T>, s: seq<T>, e: nat, n: nat)
    requires Lawful(m) && Folded(m, s0, s, e + 1, n) && Copies(s, e + 1)
    ensures forall l: nat :: l < |s| ==> Int64.BitXor(l, Int64.Pow2(e)) < |s|
    ensures var t := Combine(m, s, ShuffleXor(s, Int64.Pow2(e)));
            Folded(m, s0, t, e, n) && Copies(t, e)
  {
    hide Lawful, Fold, Int64.BitXor, Low;
    var o := Int64.Pow2(e);
    forall l: nat | l < |s| ensures Int64.BitXor(l, o) < |s| { FlipStays(l, e, n); }
    var t := Combine(m, s, ShuffleXor(s, o));
    forall l: nat | l < |s| ensures Paired(m, s, t, e, l) {
      ButterflyLane(m, s, e, l);
    }
    hide Combine, ShuffleXor, Copies, Paired;
    forall l | 0 <= l < o ensures t[l] == m.op(s[l], s[l + o]) {
      LowOfSmall(l, e);
      assert Paired(m, s, t, e, l);
      PairedIs(m, s, t, e, l);
    }
    HalfFolds(m, s, t, o);
    CopiesOf(m, s, t, e);
  }

  /** Lane l holds the combination of the two lanes whose numbers differ from l's in bit e and above. */
  ghost predicate Paired<T(!new)>(m: Monoid<T>, s: seq<T>, t: seq<T>, e: nat, l: nat) {
    |t| == |s| && l < |s| && Low(l, e) + Int64.Pow2(e) < |s| && t[l] == m.op(s[Low(l, e)], s[Low(l, e) + Int64.Pow2(e)])
  }

  lemma PairedIs<T(!new)>(m: Monoid<T>, s: seq<T>, t: seq<T>, e: nat, l: nat)
    requires Paired(m, s, t, e, l) && Low(l, e) == l
    ensures l + Int64.Pow2(e) < |s| == |t| && t[l] == m.op(s[l], s[l + Int64.Pow2(e)])
  {
  }

  lemma CopiesOf<T(!new)>(m: Monoid<T>, s: seq<T>, t: seq<T>, e: nat)
    requires |t| == |s| && forall l: nat :: l < |s| ==> Paired(m, s, t, e, l)
    ensures Copies(t, e)
  {
    hide Low;
    forall l: nat | l < |t| ensures Low(l, e) < |t| && t[l] == t[Low(l, e)] {
      assert Paired(m, s, t, e, l);
      LowOfSmall(Low(l, e), e);
      assert Paired(m, s, t, e, Low(l, e));
    }
  }

  /** Both lanes of a pair compute the same combination. */
  lemma ButterflyLane<T(!new)>(m: Monoid<T>, s: seq<T>, e: nat, l: nat)
    requires Lawful(m) && Copies(s, e + 1) && l < |s| && Int64.BitXor(l, Int64.Pow2(e)) < |s|
    ensures var o := Int64.Pow2(e);
            Low(l, e) + o < |s| && m.op(s[l], s[Int64.BitXor(l, o)]) == m.op(s[Low(l, e)], s[Low(l, e) + o])
  {
    hide Low, Int64.BitXor, Int64.Pow2;
    FlipBit(l, e);
    var r := Low(l, e + 1);
    var x := Int64.BitXor(l, Int64.Pow2(e));
    assert s[l] == s[r] && s[x] == s[Low(x, e + 1)];
  }

  lemma HalfOf(e: nat)
    ensures Int64.Pow2(e) / 2 == if e == 0 then 0 else Int64.Pow2(e - 1)
    ensures Int64.Pow2(0) == 1
  {
  }

  lemma LowZero(l: nat)
    ensures Low(l, 0) == 0
  {
  }

  /** The xor butterfly: every lane ends with the fold of the whole warp. */
  method Butterfly<T(!new)>(m: Monoid<T>, s0: seq<T>, ghost n: nat) returns (s: seq<T>)
    requires Lawful(m) && |s0| == Int64.Pow2(n)
    ensures |s| == |s0| && forall l :: 0 <= l < |s| ==> s[l] == Fold(m, s0)
  {
    s := s0;
    var o := |s0| / 2;
    ghost var e := n;
    hide Lawful, Fold, Low, Int64.BitXor, Combine, ShuffleXor;
    assert s[..|s|] == s;
    forall l | 0 <= l < |s| ensures Low(l, n) == l { LowOfSmall(l, n); }
    while o > 0
      invariant Folded(m, s0, s, e, n) && Copies(s, e) && o == Int64.Pow2(e) / 2
    {
      HalfOf(e);
      e := e - 1;
      ButterflyStep(m, s0, s, e, n);
      s := Combine(m, s, ShuffleXor(s, o));
      o := o / 2;
    }
    HalfOf(e);
    forall l | 0 <= l < |s| ensures s[l] == s[0] { LowZero(l); }
    assert s[..1] == [s[0]];
    FoldOne(m, s[0]);
  }

  lemma DownStep<T(!new)>(m: Monoid<T>, s0: seq<T>, s: seq<T>, e: nat, n: nat)
    requires Lawful(m) && Folded(m, s0, s, e + 1, n)
    ensures Folded(m, s0, Combine(m, s, ShuffleDown(s, Int64.Pow2(e))), e, n)
  {
    hide Lawful, Fold;
    HalfFolds(m, s, Combine(m, s, ShuffleDown(s, Int64.Pow2(e))), Int64.Pow2(e));
  }

  /** The shuffle-down tree: lane 0 ends with the fold of the whole warp. */
  method ReduceDown<T(!new)>(m: Monoid<T>, s0: seq<T>, ghost n: nat) returns (s: seq<T>)
    requires Lawful(m) && |s0| == Int64.Pow2(n)
    ensures |s| == |s0| && s[0] == Fold(m, s0)
  {
    s := s0;
    var o := |s0| / 2;
    ghost var e := n;
    hide Lawful, Fold, Combine, ShuffleDown;
    assert s[..|s|] == s;
    while o > 0
      invariant Folded(m, s0, s, e, n) && o == Int64.Pow2(e) / 2
    {
      HalfOf(e);
      e := e - 1;
      DownStep(m, s0, s, e, n);
      s, o := Combine(m, s, ShuffleDown(s, o)), o / 2;
    }
    HalfOf(e);
    assert s[..1] == [s[0]];
    FoldOne(m, s[0]);
  }

  /** The reproducible sum: every lane folds the lanes from left to right, no law used. */
  method PreciseSum<T>(m: Monoid<T>, src: seq<T>) returns (s: T)
    ensures s == Fold(m, src)
  {
    s := m.unit;
    for i := 0 to |src|
      invariant s == Fold(m, src[..i])
    {
      s := m.op(s, src[i]);
      assert src[..i + 1][..i] == src[..i];
    }
    assert src[..|src|] == src;
  }

  // ----- scans -----

  /** The last o values up to and including lane l. */
  function Window<T>(s: seq<T>, o: nat, l: nat): seq<T>
    requires l < |s|
  {
    s[(if l + 1 < o then 0 else l + 1 - o)..l + 1]
  }

  ghost predicate Scanned<T(!new)>(m: Monoid<T>, s0: seq<T>, s: seq<T>, o: nat) {
    |s| == |s0| && forall l :: 0 <= l < |s| ==> s[l] == Fold(m, Window(s0, o, l))
  }

  function ScanStep<T>(m: Monoid<T>, s: seq<T>, o: nat): (r: seq<T>)
    ensures |r| == |s|
  {
    var t := ShuffleUp(s, o);
    seq(|s|, l requires 0 <= l < |s| => if o <= l then m.op(s[l], t[l]) else s[l])
  }

  lemma WindowDoubles<T(!new)>(m: Monoid<T>, s0: seq<T>, s: seq<T>, o: nat)
    requires Lawful(m) && o > 0 && Scanned(m, s0, s, o)
    ensures Scanned(m, s0, ScanStep(m, s, o), 2 * o)
  {
    hide Fold, Lawful;
    forall l | 0 <= l < |s| ensures ScanStep(m, s, o)[l] == Fold(m, Window(s0, 2 * o, l)) {
      if o <= l {
        var a, b := Window(s0, o, l - o), Window(s0, o, l);
        assert Window(s0, 2 * o, l) == a + b;
        FoldConcat(m, a, b);
        Swap(m, Fold(m, a), Fold(m, b));
        assert s[l] == Fold(m, b) && ShuffleUp(s, o)[l] == s[l - o] == Fold(m, a);
      } else {
        assert Window(s0, 2 * o, l) == Window(s0, o, l);
      }
    }
  }

  /** The shuffle-up scan: lane l ends with the fold of lanes 0 to l, or of the lanes
      before it. */
  method Scan<T(!new)>(m: Monoid<T>, s0: seq<T>, exclusive: bool) returns (r: seq<T>)
    requires Lawful(m)
    ensures |r| == |s0|
    ensures forall l :: 0 <= l < |r| ==> r[l] == Fold(m, if exclusive then s0[..l] else s0[..l + 1])
  {
    var s, o := s0, 1;
    forall l | 0 <= l < |s| ensures s[l] == Fold(m, Window(s0, 1, l)) {
      assert Window(s0, 1, l) == [s0[l]];
      FoldOne(m, s0[l]);
    }
    while o < |s0|
      invariant o > 0 && Scanned(m, s0, s, o)
    {
      WindowDoubles(m, s0, s, o);
      s := ScanStep(m, s, o);
      o := 2 * o;
    }
    forall l | 0 <= l < |s| ensures s[l] == Fold(m, s0[..l + 1]) {
      assert Window(s0, o, l) == s0[..l + 1];
    }
    if exclusive {
      var x := ShuffleUp(s, 1);
      r := seq(|s|, l requires 0 <= l < |s| => if l == 0 then m.unit else x[l]);
      forall l | 0 <= l < |r| ensures r[l] == Fold(m, s0[..l]) {
        assert l > 0 ==> x[l] == s[l - 1];
      }
    } else {
      r := s;
    }
  }
}
