/**
 Who is furthest behind when several take turns.
 */
module Schedules {

  /** Among the first k there is one that no other is behind. */
  lemma {:induction false} Last<P(!new)>(pc: seq<P>, reached: (P, P) -> bool, k: nat) returns (w: nat)
    requires 0 < k <= |pc|
    requires forall p, q :: reached(p, q) || reached(q, p)
    requires forall p, q, r :: reached(p, q) && reached(q, r) ==> reached(p, r)
    ensures w < k && forall v :: 0 <= v < k ==> reached(pc[v], pc[w])
  {
    w := 0;
    if k > 1 {
      w := Last(pc, reached, k - 1);
      if !reached(pc[k - 1], pc[w]) { w := k - 1; }
    }
  }
}
