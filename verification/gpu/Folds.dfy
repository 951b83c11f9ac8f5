/**
 Left-to-right folds, and the few laws parallel schedules rely on.
 */
module Folds {

  /** What a reduction combines with: sum, product, max or min, and its identity. */
  datatype Monoid<!T> = Monoid(unit: T, op: (T, T) -> T)

  ghost predicate Lawful<T(!new)>(m: Monoid<T>) {
    && (forall a, b, c :: m.op(m.op(a, b), c) == m.op(a, m.op(b, c)))
    && (forall a, b :: m.op(a, b) == m.op(b, a))
    && (forall a :: m.op(m.unit, a) == a)
  }

  function Fold<T>(m: Monoid<T>, s: seq<T>): T {
    if s == [] then m.unit else m.op(Fold(m, s[..|s| - 1]), s[|s| - 1])
  }

  predicate Within(at: seq<nat>, n: nat) {
    forall i :: 0 <= i < |at| ==> at[i] < n
  }

  /** The elements of s at some positions. */
  function Pick<T>(s: seq<T>, at: seq<nat>): (r: seq<T>)
    requires Within(at, |s|)
    ensures |r| == |at|
  {
    seq(|at|, i requires 0 <= i < |at| => s[at[i]])
  }

  lemma Exchange<T(!new)>(m: Monoid<T>, a: T, b: T, c: T)
    requires Lawful(m)
    ensures m.op(m.op(a, b), c) == m.op(m.op(a, c), b) == m.op(a, m.op(b, c))
    ensures m.op(m.unit, a) == a == m.op(a, m.unit)
  {
    assert m.op(b, c) == m.op(c, b);
  }

  lemma Swap<T(!new)>(m: Monoid<T>, a: T, b: T)
    requires Lawful(m)
    ensures m.op(a, b) == m.op(b, a)
  {
  }

  lemma {:induction false} FoldConcat<T(!new)>(m: Monoid<T>, a: seq<T>, b: seq<T>)
    requires Lawful(m)
    ensures Fold(m, a + b) == m.op(Fold(m, a), Fold(m, b))
  {
    if b == [] {
      assert a + b == a;
      Exchange(m, Fold(m, a), m.unit, m.unit);
    } else {
      var init, last := b[..|b| - 1], b[|b| - 1];
      assert (a + b)[..|a + b| - 1] == a + init;
      FoldConcat(m, a, init);
      Exchange(m, Fold(m, a), Fold(m, init), last);
    }
  }

  lemma FoldOne<T(!new)>(m: Monoid<T>, x: T)
    requires Lawful(m)
    ensures Fold(m, [x]) == x
  {
    assert [x][..0] == [];
  }

  /** Where an element sits does not matter. */
  lemma FoldMove<T(!new)>(m: Monoid<T>, a: seq<T>, x: T, b: seq<T>)
    requires Lawful(m)
    ensures Fold(m, a + [x] + b) == m.op(Fold(m, a + b), x)
  {
    FoldConcat(m, a + [x], b);
    FoldConcat(m, a, [x]);
    FoldConcat(m, a, b);
    FoldOne(m, x);
    Exchange(m, Fold(m, a), x, Fold(m, b));
  }

  /** Combining element by element combines the folds. */
  lemma {:induction false} FoldZip<T(!new)>(m: Monoid<T>, a: seq<T>, b: seq<T>, z: seq<T>)
    requires Lawful(m) && |a| == |b| == |z| && forall i :: 0 <= i < |a| ==> z[i] == m.op(a[i], b[i])
    ensures Fold(m, z) == m.op(Fold(m, a), Fold(m, b))
  {
    if a == [] {
      Exchange(m, m.unit, m.unit, m.unit);
    } else {
      var n := |a| - 1;
      FoldZip(m, a[..n], b[..n], z[..n]);
      Regroup(m, Fold(m, a[..n]), Fold(m, b[..n]), a[n], b[n]);
    }
  }

  lemma FoldSnoc<T>(m: Monoid<T>, s: seq<T>, x: T)
    ensures Fold(m, s + [x]) == m.op(Fold(m, s), x)
  {
    assert (s + [x])[..|s|] == s;
  }

  lemma Regroup<T(!new)>(m: Monoid<T>, a: T, b: T, c: T, d: T)
    requires Lawful(m)
    ensures m.op(m.op(a, b), m.op(c, d)) == m.op(m.op(a, c), m.op(b, d))
  {
    Exchange(m, a, b, m.op(c, d));
    Exchange(m, m.op(a, c), b, d);
    assert m.op(m.op(a, m.op(c, d)), b) == m.op(m.op(m.op(a, c), d), b);
    Exchange(m, m.op(a, c), d, b);
  }
}
