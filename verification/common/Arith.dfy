/**
 Division with remainder, as the index arithmetic of the emitted kernels needs it.
 */
module Arith {

  lemma MulLeast(d: int, k: int)
    requires d >= 0 && k >= 1
    ensures d * k >= d
  {
    assert d * k == d + d * (k - 1);
  }

  lemma MulOrder(d: int, a: int, b: int)
    requires d >= 0 && a <= b
    ensures d * a <= d * b
  {
    if a < b { MulLeast(d, b - a); }
  }

  lemma QuotientUnique(d: int, t: int, r: int, q: int, p: int)
    requires 0 <= r < d && 0 <= p < d && d * t + r == d * q + p
    ensures t == q && r == p
  {
    if t > q { MulLeast(d, t - q); assert false; }
    if t < q { MulLeast(d, q - t); assert false; }
  }

  lemma DivMod(d: int, t: int, r: int)
    requires 0 <= r < d
    ensures (d * t + r) / d == t && (d * t + r) % d == r
  {
    var x := d * t + r;
    QuotientUnique(d, t, r, x / d, x % d);
  }

  lemma DivBelow(x: nat, d: nat, n: nat)
    requires d > 0 && x < d * n
    ensures x / d < n
  {
    if x / d >= n {
      MulOrder(d, n, x / d);
      assert false;
    }
  }

  /** Row and column of a cell index, and back. */
  lemma CellIndex(rows: nat, cols: nat, i: nat, j: nat)
    requires i < rows && j < cols
    ensures cols * i + j < cols * rows
    ensures (cols * i + j) / cols == i && (cols * i + j) % cols == j
  {
    DivMod(cols, i, j);
    MulLeast(cols, rows - i);
    assert cols * (rows - i) == cols * rows - cols * i;
  }
}
