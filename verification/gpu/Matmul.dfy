/**
 The matrix product the tiled kernels must compute, and rectangular indexing.
 */
module Matmul {
  import opened Arith

  /** Row-major index of cell (i, j) in a buffer with the given row stride. */
  function At(stride: nat, i: nat, j: nat): nat { stride * i + j }

  lemma AtBounds(stride: nat, rows: nat, i: nat, j: nat)
    requires i < rows && j < stride
    ensures At(stride, i, j) < stride * rows
  {
    CellIndex(rows, stride, i, j);
  }

  lemma AtUnique(stride: nat, i: nat, j: nat, i': nat, j': nat)
    requires j < stride && j' < stride && At(stride, i, j) == At(stride, i', j')
    ensures i == i' && j == j'
  {
    QuotientUnique(stride, i, j, i', j');
  }

  /** Every index is a cell. */
  lemma AtOf(stride: nat, rows: nat, x: nat)
    requires x < stride * rows
    ensures stride > 0
    ensures x / stride < rows && x % stride < stride && At(stride, x / stride, x % stride) == x
  {
    if stride == 0 { assert false; }
    DivBelow(x, stride, rows);
  }

  lemma AtIs(w: nat, a: nat, b: nat, f: nat)
    requires b < w
    ensures At(w, a, b) == f <==> a == f / w && b == f % w
  {
    if At(w, a, b) == f { DivMod(w, a, b); }
  }

  /** The d indices from At(d, q, 0) are those whose quotient is q. */
  lemma Band(d: nat, q: nat, x: nat)
    requires d > 0
    ensures At(d, q, 0) <= x < At(d, q, 0) + d <==> x / d == q
  {
    if At(d, q, 0) <= x < At(d, q, 0) + d { DivMod(d, q, x - At(d, q, 0)); }
  }

  lemma BandBelow(d: nat, n: nat, x: nat)
    requires d > 0
    ensures x < d * n <==> x / d < n
  {
    if x < d * n { DivBelow(x, d, n); }
    if x / d < n { MulOrder(d, x / d + 1, n); }
  }

  /** A is m by k, B is k by n, both row-major. */
  datatype Gemm = Gemm(m: nat, n: nat, k: nat, a: seq<int>, b: seq<int>) {
    predicate Valid() { |a| == k * m && |b| == n * k }
  }

  /** A cell of A, or zero outside it. */
  function PadA(g: Gemm, i: nat, x: nat): int
    requires g.Valid()
  {
    if i < g.m && x < g.k then AtBounds(g.k, g.m, i, x); g.a[At(g.k, i, x)] else 0
  }

  function PadB(g: Gemm, x: nat, j: nat): int
    requires g.Valid()
  {
    if x < g.k && j < g.n then AtBounds(g.n, g.k, x, j); g.b[At(g.n, x, j)] else 0
  }

  /** The first x terms of row i times column j. */
  function Dot(g: Gemm, i: nat, j: nat, x: nat): int
    requires g.Valid()
  {
    if x == 0 then 0 else Dot(g, i, j, x - 1) + PadA(g, i, x - 1) * PadB(g, x - 1, j)
  }

  /** Cell (i, j) of the product. */
  function Product(g: Gemm, i: nat, j: nat): int
    requires g.Valid()
  {
    Dot(g, i, j, g.k)
  }

  /** Padding adds nothing. */
  lemma {:induction false} DotPadded(g: Gemm, i: nat, j: nat, x: nat)
    requires g.Valid() && g.k <= x
    ensures Dot(g, i, j, x) == Product(g, i, j)
    decreases x
  {
    if x > g.k { DotPadded(g, i, j, x - 1); }
  }

  // ----- a tile pair and its contribution -----

  /** Row lr of tile A times column lc of tile B, first x terms; rows of A are `sa` apart, rows of B `sb`. */
  function TileDot(ta: seq<int>, tb: seq<int>, sa: nat, sb: nat, lr: nat, lc: nat, x: nat): int
    requires forall y: nat :: y < x ==> At(sa, lr, y) < |ta| && At(sb, y, lc) < |tb|
  {
    if x == 0 then 0 else TileDot(ta, tb, sa, sb, lr, lc, x - 1) + ta[At(sa, lr, x - 1)] * tb[At(sb, x - 1, lc)]
  }

  /** Columns kb to kb + tk of A's rows from `row`, zero outside A. */
  ghost predicate HoldsA(g: Gemm, ta: seq<int>, tm: nat, tk: nat, sa: nat, row: nat, kb: nat)
    requires g.Valid()
  {
    forall lr: nat, y: nat :: lr < tm && y < tk ==> At(sa, lr, y) < |ta| && ta[At(sa, lr, y)] == PadA(g, row + lr, kb + y)
  }

  /** Rows kb to kb + tk of B's columns from `col`, zero outside B. */
  ghost predicate HoldsB(g: Gemm, tb: seq<int>, tn: nat, tk: nat, sb: nat, col: nat, kb: nat)
    requires g.Valid()
  {
    forall y: nat, lc: nat :: y < tk && lc < tn ==> At(sb, y, lc) < |tb| && tb[At(sb, y, lc)] == PadB(g, kb + y, col + lc)
  }

  /** A pair of full tiles contributes the next terms. */
  lemma {:induction false} TileContributes(g: Gemm, ta: seq<int>, tb: seq<int>, tm: nat, tn: nat, tk: nat, sa: nat, sb: nat,
                                           row: nat, col: nat, kb: nat, lr: nat, lc: nat, x: nat)
    requires g.Valid() && lr < tm && lc < tn && x <= tk
    requires HoldsA(g, ta, tm, tk, sa, row, kb) && HoldsB(g, tb, tn, tk, sb, col, kb)
    ensures forall y: nat :: y < x ==> At(sa, lr, y) < |ta| && At(sb, y, lc) < |tb|
    ensures Dot(g, row + lr, col + lc, kb + x) == Dot(g, row + lr, col + lc, kb) + TileDot(ta, tb, sa, sb, lr, lc, x)
  {
    hide At;
    if x > 0 {
      TileContributes(g, ta, tb, tm, tn, tk, sa, sb, row, col, kb, lr, lc, x - 1);
      assert ta[At(sa, lr, x - 1)] == PadA(g, row + lr, kb + (x - 1));
      assert tb[At(sb, x - 1, lc)] == PadB(g, kb + (x - 1), col + lc);
    }
  }

  // ----- the product, cell by cell of the flat arrays -----

  /** The sum over l < x of a[a0 + da * l] * b[b0 + db * l]. */
  function Inner(a: seq<int>, b: seq<int>, a0: nat, da: nat, b0: nat, db: nat, x: nat): int
    requires x > 0 ==> a0 + da * (x - 1) < |a| && b0 + db * (x - 1) < |b|
  {
    if x == 0 then 0 else
    MulOrder(da, x - 2, x - 1);
    MulOrder(db, x - 2, x - 1);
    Inner(a, b, a0, da, b0, db, x - 1) + a[a0 + da * (x - 1)] * b[b0 + db * (x - 1)]
  }

  /** Row i of A times column j of B: the sum of a[k * i + l] * b[n * l + j]. */
  function RowTimesColumn(g: Gemm, i: nat, j: nat): int
    requires g.Valid() && i < g.m && j < g.n
  {
    LastTerm(g, i, j);
    Inner(g.a, g.b, g.k * i, 1, j, g.n, g.k)
  }

  lemma LastTerm(g: Gemm, i: nat, j: nat)
    requires g.Valid() && i < g.m && j < g.n
    ensures g.k > 0 ==> g.k * i + 1 * (g.k - 1) < |g.a| && j + g.n * (g.k - 1) < |g.b|
  {
    if g.k > 0 {
      CellIndex(g.m, g.k, i, g.k - 1);
      CellIndex(g.k, g.n, g.k - 1, j);
    }
  }

  /** The padded cells' products add up to it. */
  lemma ProductIsPlain(g: Gemm, i: nat, j: nat)
    requires g.Valid() && i < g.m && j < g.n
    ensures Product(g, i, j) == RowTimesColumn(g, i, j)
  {
    LastTerm(g, i, j);
    DotIsInner(g, i, j, g.k);
  }

  lemma {:induction false} DotIsInner(g: Gemm, i: nat, j: nat, x: nat)
    requires g.Valid() && i < g.m && j < g.n && x <= g.k
    ensures x > 0 ==> g.k * i + 1 * (x - 1) < |g.a| && j + g.n * (x - 1) < |g.b|
    ensures Dot(g, i, j, x) == Inner(g.a, g.b, g.k * i, 1, j, g.n, x)
  {
    if x > 0 {
      CellIndex(g.m, g.k, i, x - 1);
      CellIndex(g.k, g.n, x - 1, j);
      DotIsInner(g, i, j, x - 1);
    }
  }

  predicate CellIsProduct(g: Gemm, c: seq<int>, i: nat, j: nat)
    requires g.Valid() && i < g.m && j < g.n
  {
    g.n * i + j < |c| && c[g.n * i + j] == RowTimesColumn(g, i, j)
  }

  /** The array holds the product of A and B, row-major. */
  ghost predicate IsProduct(g: Gemm, c: seq<int>)
    requires g.Valid()
  {
    forall i: nat, j: nat :: i < g.m && j < g.n ==> CellIsProduct(g, c, i, j)
  }

  lemma CellsAreProduct(g: Gemm, c: seq<int>)
    requires g.Valid()
    requires forall i: nat, j: nat :: i < g.m && j < g.n ==> At(g.n, i, j) < |c| && c[At(g.n, i, j)] == Product(g, i, j)
    ensures IsProduct(g, c)
  {
    forall i: nat, j: nat | i < g.m && j < g.n ensures CellIsProduct(g, c, i, j) {
      ProductIsPlain(g, i, j);
      assert At(g.n, i, j) < |c|;
    }
  }
}
