/**
 The scalar tiled matrix product: every thread of a group accumulates rpt * cpt cells
 over shared tiles that are loaded block by block, zero-padded at the edges.

 Between two barriers threads write disjoint cells and read what was written before the
 first one, so a phase is run thread by thread, in any order.
 */
module TiledScalar {
  import opened Arith
  import opened Matmul
  import StrideLoop

  datatype Tiling = Tiling(tm: nat, tn: nat, tk: nat, thy: nat, thx: nat, rpt: nat, cpt: nat) {
    predicate Valid() {
      && tk > 0 && thy > 0 && thx > 0 && rpt > 0 && cpt > 0
      && rpt * thy == tm && cpt * thx == tn
    }
    function Threads(): nat { thx * thy }
  }

  /** The threads of a group, each once. */
  ghost predicate Order(order: seq<nat>, n: nat) {
    && (forall t :: t in order ==> t < n)
    && (forall t: nat :: t < n ==> t in order)
    && (forall i, j :: 0 <= i < j < |order| ==> order[i] != order[j])
  }

  // ----- loading -----

  /** What cell x of the A tile should hold; the tile has row stride sa. */
  function WantA(g: Gemm, row: nat, kb: nat, sa: nat, x: nat): int
    requires g.Valid() && sa > 0
  {
    PadA(g, row + x / sa, kb + x % sa)
  }

  function WantB(g: Gemm, col: nat, kb: nat, sb: nat, x: nat): int
    requires g.Valid() && sb > 0
  {
    PadB(g, kb + x / sb, col + x % sb)
  }

  /** One thread's share of both loads. */
  method LoadThread(g: Gemm, ta: array<int>, tb: array<int>, row: nat, col: nat, kb: nat, sa: nat, sb: nat, n: nat, tid: nat)
    requires g.Valid() && sa > 0 && sb > 0 && tid < n && ta != tb
    modifies ta, tb
    ensures forall x :: 0 <= x < ta.Length ==> ta[x] == if x % n == tid then WantA(g, row, kb, sa, x) else old(ta[x])
    ensures forall x :: 0 <= x < tb.Length ==> tb[x] == if x % n == tid then WantB(g, col, kb, sb, x) else old(tb[x])
  {
    hide WantA, WantB;
    var i := tid;
    ghost var b := 0;
    FirstTurn(n, tid);
    while i < ta.Length
      invariant i == n * b + tid
      invariant forall x :: 0 <= x < ta.Length ==> ta[x] == if x < i && x % n == tid then WantA(g, row, kb, sa, x) else old(ta[x])
      invariant tb[..] == old(tb[..])
      decreases ta.Length - i
    {
      ta[i] := WantA(g, row, kb, sa, i);
      NextTurn(n, b, tid);
      i, b := i + n, b + 1;
    }
    i, b := tid, 0;
    while i < tb.Length
      invariant i == n * b + tid
      invariant forall x :: 0 <= x < tb.Length ==> tb[x] == if x < i && x % n == tid then WantB(g, col, kb, sb, x) else old(tb[x])
      invariant forall x :: 0 <= x < ta.Length ==> ta[x] == if x % n == tid then WantA(g, row, kb, sa, x) else old(ta[x])
      decreases tb.Length - i
    {
      tb[i] := WantB(g, col, kb, sb, i);
      NextTurn(n, b, tid);
      i, b := i + n, b + 1;
    }
  }

  lemma FirstTurn(n: nat, tid: nat)
    requires tid < n
    ensures forall x: nat :: x < tid ==> x % n != tid
  {
  }

  lemma NextTurn(n: nat, b: nat, tid: nat)
    requires tid < n
    ensures (n * b + tid) % n == tid && n * (b + 1) + tid == n * b + tid + n
    ensures forall x :: n * b + tid < x < n * b + tid + n ==> x % n != tid
  {
    StrideLoop.RoundRobin(n, b, tid);
    forall x | n * b + tid < x < n * b + tid + n ensures x % n != tid { StrideLoop.OthersBetween(n, b, tid, x); }
  }

  /** All threads load. */
  method Load(g: Gemm, t: Tiling, ta: array<int>, tb: array<int>, row: nat, col: nat, kb: nat, order: seq<nat>)
    requires g.Valid() && t.Valid() && ta != tb && Order(order, t.Threads())
    requires ta.Length == (t.tk + 1) * t.tm && tb.Length == (t.tn + 1) * t.tk
    modifies ta, tb
    ensures HoldsA(g, ta[..], t.tm, t.tk, t.tk + 1, row, kb)
    ensures HoldsB(g, tb[..], t.tn, t.tk, t.tn + 1, col, kb)
  {
    hide WantA, WantB;
    MulLeast(t.thx, t.thy);
    var sa, sb, n := t.tk + 1, t.tn + 1, t.Threads();
    for j := 0 to |order|
      invariant forall x :: 0 <= x < ta.Length && x % n in order[..j] ==> ta[x] == WantA(g, row, kb, sa, x)
      invariant forall x :: 0 <= x < tb.Length && x % n in order[..j] ==> tb[x] == WantB(g, col, kb, sb, x)
    {
      assert order[j] in order && order[..j + 1] == order[..j] + [order[j]];
      LoadThread(g, ta, tb, row, col, kb, sa, sb, n, order[j]);
    }
    assert order[..|order|] == order;
    LoadedA(g, ta[..], t, row, kb, n, order);
    LoadedB(g, tb[..], t, col, kb, n, order);
  }

  lemma LoadedA(g: Gemm, ta: seq<int>, t: Tiling, row: nat, kb: nat, n: nat, order: seq<nat>)
    requires g.Valid() && t.Valid() && n > 0 && Order(order, n) && |ta| == (t.tk + 1) * t.tm
    requires forall x :: 0 <= x < |ta| && x % n in order ==> ta[x] == WantA(g, row, kb, t.tk + 1, x)
    ensures HoldsA(g, ta, t.tm, t.tk, t.tk + 1, row, kb)
  {
    var sa := t.tk + 1;
    forall lr: nat, y: nat | lr < t.tm && y < t.tk ensures At(sa, lr, y) < |ta| && ta[At(sa, lr, y)] == PadA(g, row + lr, kb + y) {
      CellIndex(t.tm, sa, lr, y);
      assert At(sa, lr, y) % n in order;
    }
  }

  lemma LoadedB(g: Gemm, tb: seq<int>, t: Tiling, col: nat, kb: nat, n: nat, order: seq<nat>)
    requires g.Valid() && t.Valid() && n > 0 && Order(order, n) && |tb| == (t.tn + 1) * t.tk
    requires forall x :: 0 <= x < |tb| && x % n in order ==> tb[x] == WantB(g, col, kb, t.tn + 1, x)
    ensures HoldsB(g, tb, t.tn, t.tk, t.tn + 1, col, kb)
  {
    var sb := t.tn + 1;
    forall y: nat, lc: nat | y < t.tk && lc < t.tn ensures At(sb, y, lc) < |tb| && tb[At(sb, y, lc)] == PadB(g, kb + y, col + lc) {
      CellIndex(t.tk, sb, y, lc);
      assert At(sb, y, lc) % n in order;
    }
  }

  // ----- accumulating -----

  /** A thread's registers, row by row. */
  type Regs = seq<seq<int>>

  ghost predicate RegsHold(g: Gemm, t: Tiling, regs: Regs, r0: nat, c0: nat, x: nat)
    requires g.Valid()
  {
    && |regs| == t.rpt && (forall r :: 0 <= r < t.rpt ==> |regs[r]| == t.cpt)
    && forall r: nat, c: nat :: r < t.rpt && c < t.cpt ==> regs[r][c] == Dot(g, r0 + r, c0 + c, x)
  }

  method CellSum(ta: array<int>, tb: array<int>, sa: nat, sb: nat, lr: nat, lc: nat, tk: nat) returns (s: int)
    requires forall y: nat :: y < tk ==> At(sa, lr, y) < ta.Length && At(sb, y, lc) < tb.Length
    ensures s == TileDot(ta[..], tb[..], sa, sb, lr, lc, tk)
  {
    s := 0;
    hide At;
    for kk := 0 to tk
      invariant s == TileDot(ta[..], tb[..], sa, sb, lr, lc, kk)
    {
      s := s + ta[At(sa, lr, kk)] * tb[At(sb, kk, lc)];
    }
  }

  /** One thread adds the tile pair's contribution to each of its cells. */
  method Accumulate(g: Gemm, t: Tiling, ta: array<int>, tb: array<int>, ghost row: nat, ghost col: nat, ghost kb: nat,
                    ty: nat, tx: nat, regs: Regs) returns (regs': Regs)
    requires g.Valid() && t.Valid() && ty < t.thy && tx < t.thx
    requires HoldsA(g, ta[..], t.tm, t.tk, t.tk + 1, row, kb) && HoldsB(g, tb[..], t.tn, t.tk, t.tn + 1, col, kb)
    requires RegsHold(g, t, regs, row + At(t.rpt, ty, 0), col + At(t.cpt, tx, 0), kb)
    ensures RegsHold(g, t, regs', row + At(t.rpt, ty, 0), col + At(t.cpt, tx, 0), kb + t.tk)
  {
    regs' := [];
    ghost var r0, c0 := row + At(t.rpt, ty, 0), col + At(t.cpt, tx, 0);
    for r := 0 to t.rpt
      invariant |regs'| == r && forall i :: 0 <= i < r ==> |regs'[i]| == t.cpt
      invariant forall i: nat, c: nat :: i < r && c < t.cpt ==> regs'[i][c] == Dot(g, r0 + i, c0 + c, kb + t.tk)
    {
      var lr, line := At(t.rpt, ty, r), [];
      AtBounds(t.rpt, t.thy, ty, r);
      for c := 0 to t.cpt
        invariant |line| == c && forall j: nat :: j < c ==> line[j] == Dot(g, r0 + r, c0 + j, kb + t.tk)
      {
        var lc := At(t.cpt, tx, c);
        AtBounds(t.cpt, t.thx, tx, c);
        TileContributes(g, ta[..], tb[..], t.tm, t.tn, t.tk, t.tk + 1, t.tn + 1, row, col, kb, lr, lc, t.tk);
        var s := CellSum(ta, tb, t.tk + 1, t.tn + 1, lr, lc, t.tk);
        line := line + [regs[r][c] + s];
      }
      regs' := regs' + [line];
    }
  }

  // ----- storing -----

  /** A rectangle of cells. */
  datatype Rect = Rect(i0: nat, i1: nat, j0: nat, j1: nat) {
    predicate Has(i: nat, j: nat) { i0 <= i < i1 && j0 <= j < j1 }
  }

  function ThreadRect(t: Tiling, row: nat, col: nat, ty: nat, tx: nat): Rect {
    var i0, j0 := row + At(t.rpt, ty, 0), col + At(t.cpt, tx, 0);
    Rect(i0, i0 + t.rpt, j0, j0 + t.cpt)
  }

  function GroupRect(t: Tiling, gy: nat, gx: nat): Rect {
    var i0, j0 := At(t.tm, gy, 0), At(t.tn, gx, 0);
    Rect(i0, i0 + t.tm, j0, j0 + t.tn)
  }

  /** Cells of the rectangle up to (si, sj) in row-major order hold the product; others are as before. */
  ghost predicate Filled(g: Gemm, now: seq<int>, was: seq<int>, rect: Rect, si: nat, sj: nat)
    requires g.Valid()
  {
    && |now| == |was| == g.n * g.m
    && forall i: nat, j: nat :: i < g.m && j < g.n ==>
         && At(g.n, i, j) < |now|
         && now[At(g.n, i, j)] ==
              if rect.Has(i, j) && (i < si || (i == si && j < sj)) then Product(g, i, j) else was[At(g.n, i, j)]
  }

  lemma FilledNext(g: Gemm, now: seq<int>, was: seq<int>, rect: Rect, gr: nat, gc: nat, v: int)
    requires g.Valid() && gr < g.m && gc < g.n && rect.Has(gr, gc) && v == Product(g, gr, gc)
    requires Filled(g, now, was, rect, gr, gc) && At(g.n, gr, gc) < |now|
    ensures Filled(g, now[At(g.n, gr, gc) := v], was, rect, gr, gc + 1)
  {
    forall i: nat, j: nat | i < g.m && j < g.n && At(g.n, i, j) == At(g.n, gr, gc) ensures i == gr && j == gc {
      AtUnique(g.n, i, j, gr, gc);
    }
    hide At;
  }

  lemma FilledStarts(g: Gemm, was: seq<int>, rect: Rect)
    requires g.Valid() && |was| == g.n * g.m
    ensures Filled(g, was, was, rect, rect.i0, 0)
  {
    forall i: nat, j: nat | i < g.m && j < g.n ensures At(g.n, i, j) < |was| { AtBounds(g.n, g.m, i, j); }
    hide At;
  }

  /** Nothing of the rectangle lies between two marks. */
  lemma FilledPast(g: Gemm, now: seq<int>, was: seq<int>, rect: Rect, si: nat, sj: nat, si': nat, sj': nat)
    requires g.Valid() && Filled(g, now, was, rect, si, sj)
    requires (si' == si && sj' == sj + 1 && sj >= g.n) || (si' == si + 1 && sj' == 0 && (sj >= rect.j1 || si >= g.m))
    ensures Filled(g, now, was, rect, si', sj')
  {
    hide At;
  }

  lemma FilledPast0(g: Gemm, now: seq<int>, was: seq<int>, rect: Rect, si: nat)
    requires g.Valid() && Filled(g, now, was, rect, si, 0)
    ensures Filled(g, now, was, rect, si, rect.j0)
  {
    hide At;
  }

  /** One thread stores its cells that lie inside the matrix. */
  method StoreThread(g: Gemm, t: Tiling, c: array<int>, row: nat, col: nat, ty: nat, tx: nat, regs: Regs)
    requires g.Valid() && t.Valid() && c.Length == g.n * g.m
    requires RegsHold(g, t, regs, row + At(t.rpt, ty, 0), col + At(t.cpt, tx, 0), g.k)
    modifies c
    ensures var rect := ThreadRect(t, row, col, ty, tx); Filled(g, c[..], old(c[..]), rect, rect.i1, 0)
  {
    ghost var rect, was := ThreadRect(t, row, col, ty, tx), c[..];
    FilledStarts(g, was, rect);
    hide Filled, RegsHold;
    for r := 0 to t.rpt
      invariant Filled(g, c[..], was, rect, rect.i0 + r, 0)
    {
      var gr := row + At(t.rpt, ty, r);
      if gr < g.m {
        FilledPast0(g, c[..], was, rect, gr);
        for c2 := 0 to t.cpt
          invariant Filled(g, c[..], was, rect, gr, rect.j0 + c2)
        {
          var gc := col + At(t.cpt, tx, c2);
          if gc < g.n {
            AtBounds(g.n, g.m, gr, gc);
            FilledNext(g, c[..], was, rect, gr, gc, regs[r][c2]);
            c[At(g.n, gr, gc)] := regs[r][c2];
          } else {
            FilledPast(g, c[..], was, rect, gr, gc, gr, gc + 1);
          }
        }
      }
      FilledPast(g, c[..], was, rect, gr, if gr < g.m then rect.j1 else 0, gr + 1, 0);
    }
  }

  // ----- one threadgroup -----

  /** The cells of the threads that have stored. */
  ghost predicate StoredBy(g: Gemm, t: Tiling, now: seq<int>, was: seq<int>, row: nat, col: nat, threads: seq<nat>)
    requires g.Valid() && t.Valid()
  {
    && |now| == |was| == g.n * g.m
    && forall i: nat, j: nat :: i < g.m && j < g.n ==>
         && At(g.n, i, j) < |now|
         && now[At(g.n, i, j)] ==
              if StoresAt(t, row, col, threads, i, j) then Product(g, i, j) else was[At(g.n, i, j)]
  }

  /** Some thread of the list stores cell (i, j). */
  ghost predicate StoresAt(t: Tiling, row: nat, col: nat, threads: seq<nat>, i: nat, j: nat)
    requires t.Valid()
  {
    exists f :: f in threads && ThreadRect(t, row, col, f / t.thx, f % t.thx).Has(i, j)
  }

  lemma StoredNext(g: Gemm, t: Tiling, now: seq<int>, mid: seq<int>, was: seq<int>, row: nat, col: nat, threads: seq<nat>, f: nat)
    requires g.Valid() && t.Valid() && StoredBy(g, t, mid, was, row, col, threads)
    requires var rect := ThreadRect(t, row, col, f / t.thx, f % t.thx); Filled(g, now, mid, rect, rect.i1, 0)
    ensures StoredBy(g, t, now, was, row, col, threads + [f])
  {
    hide At, ThreadRect;
    forall i: nat, j: nat | i < g.m && j < g.n
      ensures StoresAt(t, row, col, threads + [f], i, j)
              <==> StoresAt(t, row, col, threads, i, j) || ThreadRect(t, row, col, f / t.thx, f % t.thx).Has(i, j)
    {
      assert f in threads + [f];
      if StoresAt(t, row, col, threads, i, j) {
        var e :| e in threads && ThreadRect(t, row, col, e / t.thx, e % t.thx).Has(i, j);
        assert e in threads + [f];
      }
    }
  }

  /** The thread that owns cell (row + x, col + y). */
  function ThreadOf(t: Tiling, x: nat, y: nat): nat
    requires t.Valid()
  {
    At(t.thx, x / t.rpt, y / t.cpt)
  }

  lemma ThreadOwns(t: Tiling, row: nat, col: nat, f: nat, x: nat, y: nat)
    requires t.Valid() && f < t.Threads() && x < t.tm && y < t.tn
    ensures ThreadRect(t, row, col, f / t.thx, f % t.thx).Has(row + x, col + y) <==> ThreadOf(t, x, y) == f
  {
    hide At;
    Band(t.rpt, f / t.thx, x);
    Band(t.cpt, f % t.thx, y);
    BandBelow(t.cpt, t.thx, y);
    AtIs(t.thx, x / t.rpt, y / t.cpt, f);
  }

  lemma ThreadInside(t: Tiling, row: nat, col: nat, f: nat, i: nat, j: nat)
    requires t.Valid() && f < t.Threads() && ThreadRect(t, row, col, f / t.thx, f % t.thx).Has(i, j)
    ensures row <= i < row + t.tm && col <= j < col + t.tn
  {
    AtOf(t.thx, t.thy, f);
    var rect := ThreadRect(t, row, col, f / t.thx, f % t.thx);
    AtBounds(t.rpt, t.thy, f / t.thx, i - rect.i0);
    AtBounds(t.cpt, t.thx, f % t.thx, j - rect.j0);
  }

  /** The threads of a group cover its rectangle. */
  lemma ThreadsCover(t: Tiling, row: nat, col: nat, order: seq<nat>, i: nat, j: nat)
    requires t.Valid() && Order(order, t.Threads())
    ensures StoresAt(t, row, col, order, i, j) <==> row <= i < row + t.tm && col <= j < col + t.tn
  {
    if row <= i < row + t.tm && col <= j < col + t.tn {
      var x, y := i - row, j - col;
      BandBelow(t.rpt, t.thy, x);
      BandBelow(t.cpt, t.thx, y);
      AtBounds(t.thx, t.thy, x / t.rpt, y / t.cpt);
      ThreadOwns(t, row, col, ThreadOf(t, x, y), x, y);
    }
    hide ThreadRect, At;
    if f :| f in order && ThreadRect(t, row, col, f / t.thx, f % t.thx).Has(i, j) {
      ThreadInside(t, row, col, f, i, j);
    }
  }

  /** Thread f's registers hold the first x terms of its cells. */
  ghost predicate Holds(g: Gemm, t: Tiling, regs: Regs, row: nat, col: nat, f: nat, x: nat)
    requires g.Valid() && t.Valid()
  {
    RegsHold(g, t, regs, row + At(t.rpt, f / t.thx, 0), col + At(t.cpt, f % t.thx, 0), x)
  }

  /** All threads accumulate. */
  method AccumulateAll(g: Gemm, t: Tiling, ta: array<int>, tb: array<int>, ghost row: nat, ghost col: nat, ghost kb: nat,
                       regs: seq<Regs>, order: seq<nat>) returns (regs': seq<Regs>)
    requires g.Valid() && t.Valid() && Order(order, t.Threads()) && |regs| == t.Threads()
    requires HoldsA(g, ta[..], t.tm, t.tk, t.tk + 1, row, kb) && HoldsB(g, tb[..], t.tn, t.tk, t.tn + 1, col, kb)
    requires forall f: nat :: f < |regs| ==> Holds(g, t, regs[f], row, col, f, kb)
    ensures |regs'| == |regs| && forall f: nat :: f < |regs| ==> Holds(g, t, regs'[f], row, col, f, kb + t.tk)
  {
    regs' := regs;
    for j := 0 to |order|
      invariant |regs'| == |regs|
      invariant forall f: nat :: f < |regs| && f !in order[..j] ==> regs'[f] == regs[f]
      invariant forall f: nat :: f < |regs| && f in order[..j] ==> Holds(g, t, regs'[f], row, col, f, kb + t.tk)
    {
      var f := order[j];
      assert f in order && f !in order[..j] && order[..j + 1] == order[..j] + [f];
      AtOf(t.thx, t.thy, f);
      assert Holds(g, t, regs[f], row, col, f, kb);
      var mine := Accumulate(g, t, ta, tb, row, col, kb, f / t.thx, f % t.thx, regs'[f]);
      regs' := regs'[f := mine];
    }
    assert order[..|order|] == order;
  }

  lemma RegsDone(g: Gemm, t: Tiling, regs: Regs, row: nat, col: nat, f: nat, x: nat)
    requires g.Valid() && t.Valid() && g.k <= x && Holds(g, t, regs, row, col, f, x)
    ensures Holds(g, t, regs, row, col, f, g.k)
  {
    var r0, c0 := row + At(t.rpt, f / t.thx, 0), col + At(t.cpt, f % t.thx, 0);
    hide At, Dot;
    forall r: nat, c: nat | r < t.rpt && c < t.cpt ensures regs[r][c] == Dot(g, r0 + r, c0 + c, g.k) {
      DotPadded(g, r0 + r, c0 + c, x);
    }
  }

  lemma GroupFilled(g: Gemm, t: Tiling, now: seq<int>, was: seq<int>, gy: nat, gx: nat, order: seq<nat>)
    requires g.Valid() && t.Valid() && Order(order, t.Threads())
    requires StoredBy(g, t, now, was, At(t.tm, gy, 0), At(t.tn, gx, 0), order)
    ensures var rect := GroupRect(t, gy, gx); Filled(g, now, was, rect, rect.i1, 0)
  {
    hide At, StoresAt;
    forall i: nat, j: nat | i < g.m && j < g.n
      ensures StoresAt(t, At(t.tm, gy, 0), At(t.tn, gx, 0), order, i, j) <==> GroupRect(t, gy, gx).Has(i, j)
    {
      ThreadsCover(t, At(t.tm, gy, 0), At(t.tn, gx, 0), order, i, j);
    }
  }

  method ThreadGroup(g: Gemm, t: Tiling, c: array<int>, gy: nat, gx: nat, order: seq<nat>)
    requires g.Valid() && t.Valid() && c.Length == g.n * g.m && Order(order, t.Threads())
    modifies c
    ensures var rect := GroupRect(t, gy, gx); Filled(g, c[..], old(c[..]), rect, rect.i1, 0)
  {
    var row, col := At(t.tm, gy, 0), At(t.tn, gx, 0);
    var ta, tb := new int[(t.tk + 1) * t.tm], new int[(t.tn + 1) * t.tk];
    var regs: seq<Regs> := seq(t.Threads(), _ => seq(t.rpt, _ => seq(t.cpt, _ => 0)));
    var kb := 0;
    ghost var was := c[..];
    hide At;
    while kb < g.k
      invariant c[..] == was && fresh(ta) && fresh(tb) && |regs| == t.Threads()
      invariant forall f: nat :: f < |regs| ==> Holds(g, t, regs[f], row, col, f, kb)
      decreases g.k - kb
    {
      hide Holds;
      Load(g, t, ta, tb, row, col, kb, order);
      regs := AccumulateAll(g, t, ta, tb, row, col, kb, regs, order);
      kb := kb + t.tk;
    }
    hide Holds;
    StoreAll(g, t, c, row, col, kb, regs, order);
    GroupFilled(g, t, c[..], was, gy, gx, order);
  }

  /** All threads store. */
  method StoreAll(g: Gemm, t: Tiling, c: array<int>, row: nat, col: nat, ghost kb: nat, regs: seq<Regs>, order: seq<nat>)
    requires g.Valid() && t.Valid() && c.Length == g.n * g.m && Order(order, t.Threads()) && |regs| == t.Threads()
    requires g.k <= kb && forall f: nat :: f < |regs| ==> Holds(g, t, regs[f], row, col, f, kb)
    modifies c
    ensures StoredBy(g, t, c[..], old(c[..]), row, col, order)
  {
    ghost var was := c[..];
    NoneStored(g, t, was, row, col);
    hide At, StoredBy, Filled, RegsHold, ThreadRect;
    for j := 0 to |order|
      invariant StoredBy(g, t, c[..], was, row, col, order[..j])
    {
      assert order[j] in order && order[..j + 1] == order[..j] + [order[j]];
      ghost var mid := c[..];
      RegsDone(g, t, regs[order[j]], row, col, order[j], kb);
      StoreThread(g, t, c, row, col, order[j] / t.thx, order[j] % t.thx, regs[order[j]]);
      StoredNext(g, t, c[..], mid, was, row, col, order[..j], order[j]);
    }
    assert order[..|order|] == order;
  }

  lemma NoneStored(g: Gemm, t: Tiling, was: seq<int>, row: nat, col: nat)
    requires g.Valid() && t.Valid() && |was| == g.n * g.m
    ensures StoredBy(g, t, was, was, row, col, [])
  {
    forall i: nat, j: nat | i < g.m && j < g.n ensures At(g.n, i, j) < |was| { AtBounds(g.n, g.m, i, j); }
  }

  // ----- the grid -----

  /** Enough threadgroups to cover the matrix. */
  predicate Covers(g: Gemm, t: Tiling, gridY: nat, gridX: nat) { g.m <= t.tm * gridY && g.n <= t.tn * gridX }

  /** The cells of the threadgroups that have run. */
  ghost predicate Done(g: Gemm, t: Tiling, gridX: nat, now: seq<int>, groups: seq<nat>)
    requires g.Valid() && t.Valid()
  {
    forall i: nat, j: nat :: i < g.m && j < g.n ==>
      At(g.n, i, j) < |now| && (GroupOf(t, gridX, i, j) in groups ==> now[At(g.n, i, j)] == Product(g, i, j))
  }

  /** The whole kernel, threadgroup by threadgroup in any order. */
  method Run(g: Gemm, t: Tiling, c: array<int>, gridY: nat, gridX: nat, groups: seq<nat>, order: seq<nat>)
    requires g.Valid() && t.Valid() && c.Length == g.n * g.m && Covers(g, t, gridY, gridX)
    requires Order(groups, gridX * gridY) && Order(order, t.Threads())
    modifies c
    ensures IsProduct(g, c[..])
  {
    NoneDone(g, t, gridX, c[..]);
    hide At, Filled, Done, Product, GroupRect, Tiling.Valid, Covers, IsProduct;
    for d := 0 to |groups|
      invariant Done(g, t, gridX, c[..], groups[..d])
    {
      assert groups[..d + 1] == groups[..d] + [groups[d]] && groups[d] in groups;
      AtOf(gridX, gridY, groups[d]);
      var gy, gx := groups[d] / gridX, groups[d] % gridX;
      ghost var mid := c[..];
      ThreadGroup(g, t, c, gy, gx, order);
      GroupStep(g, t, c[..], mid, gridX, gridY, groups[..d], groups[d]);
    }
    assert groups[..|groups|] == groups;
    AllDone(g, t, gridY, gridX, c[..], groups);
    CellsAreProduct(g, c[..]);
  }

  lemma NoneDone(g: Gemm, t: Tiling, gridX: nat, now: seq<int>)
    requires g.Valid() && t.Valid() && |now| == g.n * g.m
    ensures Done(g, t, gridX, now, [])
  {
    forall i: nat, j: nat | i < g.m && j < g.n ensures At(g.n, i, j) < |now| { AtBounds(g.n, g.m, i, j); }
    hide At, GroupOf, Product;
  }

  lemma AllDone(g: Gemm, t: Tiling, gridY: nat, gridX: nat, now: seq<int>, groups: seq<nat>)
    requires g.Valid() && t.Valid() && Covers(g, t, gridY, gridX) && Order(groups, gridX * gridY)
    requires Done(g, t, gridX, now, groups)
    ensures forall i: nat, j: nat :: i < g.m && j < g.n ==> At(g.n, i, j) < |now| && now[At(g.n, i, j)] == Product(g, i, j)
  {
    hide At, GroupOf, Product;
    forall i: nat, j: nat | i < g.m && j < g.n ensures At(g.n, i, j) < |now| && now[At(g.n, i, j)] == Product(g, i, j) {
      GroupExists(g, t, gridY, gridX, i, j);
    }
  }

  /** The threadgroup whose tile holds cell (i, j). */
  function GroupOf(t: Tiling, gridX: nat, i: nat, j: nat): nat
    requires t.Valid()
  {
    TilePositive(t);
    At(gridX, i / t.tm, j / t.tn)
  }

  lemma TilePositive(t: Tiling)
    requires t.Valid()
    ensures t.tm > 0 && t.tn > 0
  {
    MulLeast(t.rpt, t.thy);
    MulLeast(t.cpt, t.thx);
  }

  lemma GroupExists(g: Gemm, t: Tiling, gridY: nat, gridX: nat, i: nat, j: nat)
    requires t.Valid() && Covers(g, t, gridY, gridX) && i < g.m && j < g.n
    ensures GroupOf(t, gridX, i, j) < gridX * gridY
  {
    TilePositive(t);
    BandBelow(t.tm, gridY, i);
    BandBelow(t.tn, gridX, j);
    AtBounds(gridX, gridY, i / t.tm, j / t.tn);
  }

  /** A threadgroup completes exactly its own cells. */
  lemma GroupStep(g: Gemm, t: Tiling, now: seq<int>, mid: seq<int>, gridX: nat, gridY: nat, groups: seq<nat>, group: nat)
    requires g.Valid() && t.Valid() && group < gridX * gridY && Covers(g, t, gridY, gridX)
    requires var rect := GroupRect(t, group / gridX, group % gridX); Filled(g, now, mid, rect, rect.i1, 0)
    requires Done(g, t, gridX, mid, groups)
    ensures Done(g, t, gridX, now, groups + [group])
  {
    hide At, GroupOf, GroupRect, Product;
    forall i: nat, j: nat | i < g.m && j < g.n
      ensures && At(g.n, i, j) < |now| == |mid|
              && now[At(g.n, i, j)] == if GroupOf(t, gridX, i, j) == group then Product(g, i, j) else mid[At(g.n, i, j)]
    {
      GroupOwns(g, t, gridX, gridY, group, i, j);
    }
  }

  lemma GroupOwns(g: Gemm, t: Tiling, gridX: nat, gridY: nat, group: nat, i: nat, j: nat)
    requires t.Valid() && group < gridX * gridY && Covers(g, t, gridY, gridX) && i < g.m && j < g.n
    ensures gridX > 0
    ensures GroupRect(t, group / gridX, group % gridX).Has(i, j) <==> GroupOf(t, gridX, i, j) == group
  {
    TilePositive(t);
    AtOf(gridX, gridY, group);
    BandBelow(t.tn, gridX, j);
    TileOwns(t.tm, t.tn, gridX, group / gridX, group % gridX, i, j);
    hide At;
  }

  lemma TileOwns(tm: nat, tn: nat, gridX: nat, gy: nat, gx: nat, i: nat, j: nat)
    requires tm > 0 && tn > 0 && gx < gridX && j / tn < gridX
    ensures At(tm, gy, 0) <= i < At(tm, gy, 0) + tm && At(tn, gx, 0) <= j < At(tn, gx, 0) + tn
            <==> At(gridX, i / tm, j / tn) == At(gridX, gy, gx)
  {
    hide At;
    Band(tm, gy, i);
    Band(tn, gx, j);
    if At(gridX, i / tm, j / tn) == At(gridX, gy, gx) { AtUnique(gridX, i / tm, j / tn, gy, gx); }
  }

  /** No cell has two writers: one threadgroup, one thread, one pair of registers. */
  lemma OneWriter(t: Tiling, gy: nat, gx: nat, ty: nat, tx: nat, r: nat, c: nat,
                  gy': nat, gx': nat, ty': nat, tx': nat, r': nat, c': nat)
    requires t.Valid()
    requires ty < t.thy && tx < t.thx && r < t.rpt && c < t.cpt
    requires ty' < t.thy && tx' < t.thx && r' < t.rpt && c' < t.cpt
    requires At(t.tm, gy, 0) + At(t.rpt, ty, r) == At(t.tm, gy', 0) + At(t.rpt, ty', r')
    requires At(t.tn, gx, 0) + At(t.cpt, tx, c) == At(t.tn, gx', 0) + At(t.cpt, tx', c')
    ensures gy == gy' && gx == gx' && ty == ty' && tx == tx' && r == r' && c == c'
  {
    OneCoordinate(t.tm, t.rpt, t.thy, gy, ty, r, gy', ty', r');
    OneCoordinate(t.tn, t.cpt, t.thx, gx, tx, c, gx', tx', c');
  }

  lemma OneCoordinate(tile: nat, per: nat, threads: nat, g: nat, th: nat, r: nat, g': nat, th': nat, r': nat)
    requires tile == threads * per && th < threads && r < per && th' < threads && r' < per
    requires At(tile, g, 0) + At(per, th, r) == At(tile, g', 0) + At(per, th', r')
    ensures g == g' && th == th' && r == r'
  {
    AtBounds(per, threads, th, r);
    AtBounds(per, threads, th', r');
    QuotientUnique(tile, g, At(per, th, r), g', At(per, th', r'));
    AtUnique(per, th, r, th', r');
  }
}
