/**
 Copy propagation and the other blocks: as for algebraic simplification, its redirects
 reach its own block only.
 */
module CopyCross {
  import opened Ir
  import opened Semantics
  import opened RewritePlan
  import opened Blocks
  import opened LocalRewrite
  import opened CopyProp
  import AlgebraicFixpoint

  lemma CopyMentionsOld(k: KernelValue, w: Where)
    requires UniqueResults(CodeAt(k, w))
    ensures MentionsOld(k, w, OpsOf(CodeAt(k, w)), AllCopies(CodeAt(k, w)))
  {
    var code := CodeAt(k, w);
    var m := AllCopies(code);
    forall v | v in m ensures Mentions(code, m[v]) {
      var i := CopyOrigin(code, |code|, v);
      assert m[v] in Uses(code[i].op);
    }
    forall i | 0 <= i < |code| && IsDead(code[i].res, m.Keys) ensures IsValueOp(code[i].op) {
      var j := CopyOrigin(code, |code|, code[i].res.value);
      assert i == j;
    }
  }

  lemma OnceIsLocal(code: Code)
    ensures CopyOnce(code) == LocalCode(code, OpsOf(code), AllCopies(code))
  {
  }

  // ----- one round -----

  /** One round leaves no use without a definition exactly when no other block uses a copy
      that the round drops. */
  lemma RoundClosedIff(k: KernelValue, w: Where)
    requires UniqueDefs(k) && Closed(k) && HasBlock(k, w) && Ssa(CodeAt(k, w))
    ensures Closed(PutBlock(k, w, CopyOnce(CodeAt(k, w)))) <==> NotUsedElsewhere(k, w, AllCopies(CodeAt(k, w)).Keys)
  {
    var code := CodeAt(k, w);
    CopyMentionsOld(k, w);
    CopiesDescend(code);
    OnceIsLocal(code);
    ClosedIffNotUsedElsewhere(k, w, OpsOf(code), AllCopies(code));
  }

  lemma RoundBinds(k: KernelValue, w: Where, u: ValueId)
    requires UniqueDefs(k) && HasBlock(k, w) && Ssa(CodeAt(k, w))
    ensures UniqueDefs(PutBlock(k, w, CopyOnce(CodeAt(k, w))))
    ensures Bound(PutBlock(k, w, CopyOnce(CodeAt(k, w))), u) ==> Bound(k, u) && u !in AllCopies(CodeAt(k, w))
  {
    var code := CodeAt(k, w);
    CopyMentionsOld(k, w);
    CopiesDescend(code);
    OnceIsLocal(code);
    DescendsInside(code, AllCopies(code));
    if u in AllCopies(code) { NeverBoth(k, w, u); }
    hide UniqueDefs, MentionsOld, Ssa, Rank, Descends, LocalCode, CopyOnce, AllCopies;
    DefinedAfterRound(k, w, OpsOf(code), AllCopies(code), u);
    LoopsAfterRound(k, w, OpsOf(code), AllCopies(code), u);
    UniqueAfterRound(k, w, OpsOf(code), AllCopies(code));
  }

  // ----- the fixpoint of one block -----

  lemma {:induction false} FixpointBinds(k: KernelValue, w: Where, u: ValueId)
    requires UniqueDefs(k) && HasBlock(k, w) && Ssa(CodeAt(k, w))
    ensures Bound(PutBlock(k, w, Fixpoint(CodeAt(k, w))), u) ==> Bound(k, u) && u !in AllCopies(CodeAt(k, w))
    decreases |CodeAt(k, w)|
  {
    var code := CodeAt(k, w);
    hide UniqueDefs, Bound, AllCopies, Ssa, CopyOnce;
    if AllCopies(code) != map[] {
      var k1 := PutBlock(k, w, CopyOnce(code));
      RoundBinds(k, w, u);
      CopyShrinks(code);
      CopyKeepsSsa(code);
      FixpointBinds(k1, w, u);
      assert PutBlock(k1, w, Fixpoint(CopyOnce(code))) == PutBlock(k, w, Fixpoint(code));
    } else {
      assert PutBlock(k, w, code) == k;
    }
  }

  /** If another block uses a copy that the very first round drops, the final kernel uses an id
      that nothing defines. */
  lemma FirstRoundDangles(k: KernelValue, w: Where)
    requires UniqueDefs(k) && HasBlock(k, w) && Ssa(CodeAt(k, w))
    requires !NotUsedElsewhere(k, w, AllCopies(CodeAt(k, w)).Keys)
    ensures !Closed(PutBlock(k, w, Fixpoint(CodeAt(k, w))))
  {
    var code := CodeAt(k, w);
    var k' := PutBlock(k, w, Fixpoint(code));
    var v, i :| v != w && 0 <= i < |CodeAt(k, v)| && !(Uses(CodeAt(k, v)[i].op) !! AllCopies(code).Keys);
    var u :| u in Uses(CodeAt(k, v)[i].op) && u in AllCopies(code);
    hide Fixpoint, Ssa, AllCopies;
    CodeAtLocal(k, w, Fixpoint(code), v);
    assert UsedAt(k', v, i, u);
    assert UsedSomewhere(k', u);
    FixpointBinds(k, w, u);
  }

  /** The whole fixpoint leaves no use without a definition exactly when what other blocks use
      of the block survives it. */
  lemma {:induction false} FixpointClosedIff(k: KernelValue, w: Where)
    requires UniqueDefs(k) && Closed(k) && HasBlock(k, w) && Ssa(CodeAt(k, w))
    ensures Closed(PutBlock(k, w, Fixpoint(CodeAt(k, w)))) <==> AlgebraicFixpoint.CrossUsesSurvive(k, w, Fixpoint(CodeAt(k, w)))
    decreases |CodeAt(k, w)|
  {
    var code := CodeAt(k, w);
    if AllCopies(code) != map[] {
      var k1 := PutBlock(k, w, CopyOnce(code));
      RoundClosedIff(k, w);
      RoundBinds(k, w, 0);
      CopyShrinks(code);
      CopyKeepsSsa(code);
      assert PutBlock(k1, w, Fixpoint(CopyOnce(code))) == PutBlock(k, w, Fixpoint(code));
      hide UniqueDefs, Closed, Ssa, CopyOnce, AllCopies;
      if NotUsedElsewhere(k, w, AllCopies(code).Keys) {
        FixpointClosedIff(k1, w);
        SurviveAlike(k, w);
      } else {
        FirstRoundDangles(k, w);
        if AlgebraicFixpoint.CrossUsesSurvive(k, w, Fixpoint(code)) { CrossUsesAlongRound(k, w); }
      }
    } else {
      assert PutBlock(k, w, code) == k;
    }
  }

  lemma SurviveAlike(k: KernelValue, w: Where)
    requires HasBlock(k, w) && AllCopies(CodeAt(k, w)) != map[] && NotUsedElsewhere(k, w, AllCopies(CodeAt(k, w)).Keys)
    ensures AlgebraicFixpoint.CrossUsesSurvive(PutBlock(k, w, CopyOnce(CodeAt(k, w))), w, Fixpoint(CopyOnce(CodeAt(k, w))))
            <==> AlgebraicFixpoint.CrossUsesSurvive(k, w, Fixpoint(CodeAt(k, w)))
  {
    var code := CodeAt(k, w);
    var k1 := PutBlock(k, w, CopyOnce(code));
    CopyShrinks(code);
    assert Fixpoint(code) == Fixpoint(CopyOnce(code));
    if AlgebraicFixpoint.CrossUsesSurvive(k, w, Fixpoint(code)) { CrossUsesAlongRound(k, w); }
    hide Fixpoint, AllCopies;
    if AlgebraicFixpoint.CrossUsesSurvive(k1, w, Fixpoint(CopyOnce(code))) {
      forall v, i, u | v != w && 0 <= i < |CodeAt(k, v)| && u in Uses(CodeAt(k, v)[i].op) && AlgebraicFixpoint.Defines(code, u)
        ensures AlgebraicFixpoint.Defines(Fixpoint(code), u)
      {
        assert u !in AllCopies(code);
        StillDefined(code, u);
        CodeAtLocal(k, w, CopyOnce(code), v);
        assert CodeAt(k1, v) == CodeAt(k, v) && CodeAt(k1, w) == CopyOnce(code);
      }
    }
  }

  lemma StillDefined(code: Code, u: ValueId)
    requires AlgebraicFixpoint.Defines(code, u) && u !in AllCopies(code)
    ensures AlgebraicFixpoint.Defines(CopyOnce(code), u)
  {
    var m := AllCopies(code);
    var i := SurvivorStays(code, OpsOf(code), Resolved(m), m.Keys, Rank(code, u) - 1);
    RewriteAt(code, OpsOf(code), Resolved(m), m.Keys, i);
  }

  // ----- a condition on op kinds, for the whole pass -----

  /** The kinds of op that may be a copy. */
  predicate MayCopy(op: Op) {
    op.Cast? || op.Select? || (op.Broadcast? && IsUnitShape(op.shape)) || (op.Reshape? && IsUnitShape(op.shape))
  }

  lemma SubstKeepsMayCopy(op: Op, m: map<ValueId, ValueId>)
    ensures MayCopy(Subst(op, m)) == MayCopy(op)
  {
  }

  ghost predicate Safe(k: KernelValue) { CrossSafe(k, op => MayCopy(op)) }

  lemma SafeAfterRound(k: KernelValue, w: Where)
    requires Safe(k) && HasBlock(k, w) && Ssa(CodeAt(k, w))
    ensures Safe(PutBlock(k, w, CopyOnce(CodeAt(k, w)))) && NotUsedElsewhere(k, w, AllCopies(CodeAt(k, w)).Keys)
  {
    var code := CodeAt(k, w);
    var m := AllCopies(code);
    CopyMentionsOld(k, w);
    CopiesDescend(code);
    OnceIsLocal(code);
    hide Ssa, MentionsOld, Descends, Resolved, AllCopies;
    forall x | x in m ensures exists i :: DefinedAt(k, w, i, x) && MayCopy(CodeAt(k, w)[i].op) {
      CopyKind(code, x);
      var i :| 0 <= i < |code| && code[i].res == Some(x) && MayCopy(code[i].op);
      assert DefinedAt(k, w, i, x);
    }
    hide MayCopy;
    CrossSafeNotUsed(k, w, m, op => MayCopy(op));
    forall i | 0 <= i < |code| ensures MayCopy(Subst(OpsOf(code)[i], Resolved(m))) == MayCopy(code[i].op) {
      SubstKeepsMayCopy(code[i].op, Resolved(m));
    }
    CrossSafeAfterRound(k, w, OpsOf(code), m, op => MayCopy(op));
  }

  lemma CopyKind(code: Code, x: ValueId)
    requires x in AllCopies(code)
    ensures exists i :: 0 <= i < |code| && code[i].res == Some(x) && MayCopy(code[i].op)
  {
    var i := CopyOrigin(code, |code|, x);
    assert MayCopy(code[i].op);
  }

  lemma {:induction false} SafeSurvives(k: KernelValue, w: Where)
    requires Safe(k) && HasBlock(k, w) && Ssa(CodeAt(k, w))
    ensures AlgebraicFixpoint.CrossUsesSurvive(k, w, Fixpoint(CodeAt(k, w)))
    ensures Safe(PutBlock(k, w, Fixpoint(CodeAt(k, w)))) && Ssa(Fixpoint(CodeAt(k, w)))
    decreases |CodeAt(k, w)|
  {
    var code := CodeAt(k, w);
    if AllCopies(code) != map[] {
      var k1 := PutBlock(k, w, CopyOnce(code));
      SafeAfterRound(k, w);
      CopyShrinks(code);
      CopyKeepsSsa(code);
      assert PutBlock(k1, w, Fixpoint(CopyOnce(code))) == PutBlock(k, w, Fixpoint(code));
      hide Ssa, CopyOnce, AllCopies, Safe;
      SafeSurvives(k1, w);
      SurviveAlike(k, w);
    } else {
      assert PutBlock(k, w, code) == k;
    }
  }

  lemma {:induction false} SafeIsReady(k: KernelValue, order: seq<Where>)
    requires Safe(k) && (forall w :: HasBlock(k, w) ==> Ssa(CodeAt(k, w))) && forall w :: w in order ==> HasBlock(k, w)
    ensures Ready(k, order)
    decreases |order|
  {
    hide Safe, Ssa, AlgebraicFixpoint.CrossUsesSurvive;
    if order != [] {
      var w := order[0];
      assert w in order;
      SafeSurvives(k, w);
      var k1 := PutBlock(k, w, Fixpoint(CodeAt(k, w)));
      forall v | HasBlock(k1, v) ensures Ssa(CodeAt(k1, v)) { CodeAtLocal(k, w, Fixpoint(CodeAt(k, w)), v); }
      forall v | v in order[1..] ensures HasBlock(k1, v) { assert v in order; }
      SafeIsReady(k1, order[1..]);
    }
  }

  /** The pass preserves every run of a kernel in SSA form in which no result that another
      block uses comes from an op that may be a copy. */
  lemma PassPreservesSafe(c: Setting, order: seq<Where>, fuel: nat)
    requires Disciplined(c) && Laws(c.I) && Safe(c.k)
    requires (forall w :: HasBlock(c.k, w) ==> Ssa(CodeAt(c.k, w))) && forall w :: w in order ==> HasBlock(c.k, w)
    requires !Fails(RunKernel(c.I, c.k, State(c.mem, []), fuel))
    ensures SameForObserver(RunKernel(c.I, c.k, State(c.mem, []), fuel),
                            RunKernel(c.I, Propagated(c.k, order), State(c.mem, []), fuel))
  {
    SafeIsReady(c.k, order);
    PassPreserves(c, order, fuel);
  }

  lemma {:induction false} PropagatedKeys(k: KernelValue, order: seq<Where>)
    requires Ready(k, order)
    ensures Propagated(k, order).blocks.Keys == k.blocks.Keys
    decreases |order|
  {
    hide Ssa, AlgebraicFixpoint.CrossUsesSurvive;
    if order != [] { PropagatedKeys(PutBlock(k, order[0], Fixpoint(CodeAt(k, order[0]))), order[1..]); }
  }

  /** The kernel that `CopyProp.Run` leaves behaves like the one it was given. */
  lemma RunPreserves(c: Setting, k': KernelValue, fuel: nat)
    requires Disciplined(c) && Laws(c.I) && Safe(c.k) && forall w :: HasBlock(c.k, w) ==> Ssa(CodeAt(c.k, w))
    requires k'.blocks.Keys == c.k.blocks.Keys
    requires forall w :: HasBlock(c.k, w) ==> CodeAt(k', w) == Fixpoint(CodeAt(c.k, w))
    requires !Fails(RunKernel(c.I, c.k, State(c.mem, []), fuel))
    ensures SameForObserver(RunKernel(c.I, c.k, State(c.mem, []), fuel), RunKernel(c.I, k', State(c.mem, []), fuel))
  {
    var order := AllPlaces(c.k.blocks.Keys);
    SafeIsReady(c.k, order);
    PassPreserves(c, order, fuel);
    hide Disciplined, Laws, Safe, Ssa, AlgebraicFixpoint.CrossUsesSurvive, Semantics.Run;
    PropagatedKeys(c.k, order);
    var end := Propagated(c.k, order);
    forall w | HasBlock(c.k, w) ensures CodeAt(end, w) == CodeAt(k', w) {
      PropagatedBlock(c.k, order, w);
    }
    assert CodeAt(end, None) == CodeAt(k', None);
    forall b | b in k'.blocks ensures end.blocks[b] == k'.blocks[b] {
      assert CodeAt(end, Some(b)) == CodeAt(k', Some(b));
    }
    assert end == k';
  }
}
