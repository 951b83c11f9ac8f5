/**
 Algebraic simplification and the other blocks: when its redirects, which reach its own
 block only, leave a use without a definition, and a condition on the kernel under which
 the whole pass does not.
 */
module AlgebraicCross {
  import opened Ir
  import opened Semantics
  import opened RewritePlan
  import opened Blocks
  import opened LocalRewrite
  import opened AlgebraicSimplify
  import opened AlgebraicFixpoint
  import AlgebraicPass

  // ----- a round invents no operand -----

  ghost predicate SimpMentions(code: Code, s: Simp) {
    match s
    case ToOp(o) => forall u :: u in Uses(o) ==> Mentions(code, u)
    case ToId(x) => Mentions(code, x)
    case _ => true
  }

  lemma OperandsMentioned(code: Code, i: nat)
    requires i < |code|
    ensures forall u :: u in Uses(code[i].op) ==> Mentions(code, u)
  {
  }

  /** The operands of a definition are mentioned in the block. */
  lemma DefinitionMentioned(code: Code, v: ValueId)
    ensures DefiningOp(code, v).Some? ==> forall u :: u in Uses(DefiningOp(code, v).value) ==> Mentions(code, u)
  {
    if Rank(code, v) > 0 { OperandsMentioned(code, Rank(code, v) - 1); }
  }

  lemma SimplifiedMentions(code: Code, i: nat)
    requires i < |code|
    ensures SimpMentions(code, TrySimplify(code, code[i].op))
  {
    var op := code[i].op;
    OperandsMentioned(code, i);
    hide FindConst, Rank, Mentions;
    match op
    case BinOp(k, l, r) =>
      DefinitionMentioned(code, l);
      DefinitionMentioned(code, r);
    case Select(c, _, _) => DefinitionMentioned(code, c);
    case Broadcast(x, _) => DefinitionMentioned(code, x);
    case Transpose(x) => DefinitionMentioned(code, x);
    case Reshape(x, _) => DefinitionMentioned(code, x);
    case ExpandDims(x, _) => DefinitionMentioned(code, x);
    case _ =>
  }

  lemma RoundMentionsOld(k: KernelValue, w: Where)
    requires UniqueResults(CodeAt(k, w))
    ensures MentionsOld(k, w, NewOps(CodeAt(k, w)), Pruned(CodeAt(k, w)))
  {
    var code := CodeAt(k, w);
    var m := Pruned(code);
    hide TrySimplify, Mentions, AnyUsed;
    forall i, u | 0 <= i < |code| && u in Uses(NewOps(code)[i]) ensures Mentions(code, u) {
      SimplifiedMentions(code, i);
      OperandsMentioned(code, i);
    }
    forall v | v in m ensures Mentions(code, m[v]) {
      var i := FoundOrigin(code, |code|, v);
      SimplifiedMentions(code, i);
    }
    forall i | 0 <= i < |code| ensures SameRole(code[i].op, NewOps(code)[i]) { OnlyArithmetic(code, code[i].op); }
    forall i | 0 <= i < |code| && IsDead(code[i].res, m.Keys) ensures IsValueOp(code[i].op) {
      var j := FoundOrigin(code, |code|, code[i].res.value);
      assert i == j;
      OnlyValueOps(code, code[i].op);
    }
  }

  lemma OnceIsLocal(code: Code)
    requires Changes(code)
    ensures SimplifyOnce(code) == LocalCode(code, NewOps(code), Pruned(code))
  {
  }

  // ----- one round -----

  /** One round leaves no use without a definition exactly when no other block uses a result
      that the round drops. */
  lemma RoundClosedIff(k: KernelValue, w: Where)
    requires UniqueDefs(k) && Closed(k) && HasBlock(k, w) && Ssa(CodeAt(k, w)) && Changes(CodeAt(k, w))
    ensures Closed(PutBlock(k, w, SimplifyOnce(CodeAt(k, w)))) <==> NotUsedElsewhere(k, w, Pruned(CodeAt(k, w)).Keys)
  {
    var code := CodeAt(k, w);
    RoundMentionsOld(k, w);
    FoundDescends(code);
    OnceIsLocal(code);
    ClosedIffNotUsedElsewhere(k, w, NewOps(code), Pruned(code));
  }

  /** What is bound after a round was bound before; UniqueDefs stays. */
  lemma RoundBinds(k: KernelValue, w: Where, u: ValueId)
    requires UniqueDefs(k) && HasBlock(k, w) && Ssa(CodeAt(k, w)) && Changes(CodeAt(k, w))
    ensures UniqueDefs(PutBlock(k, w, SimplifyOnce(CodeAt(k, w))))
    ensures Bound(PutBlock(k, w, SimplifyOnce(CodeAt(k, w))), u) ==> Bound(k, u)
    ensures DefinedSomewhere(PutBlock(k, w, SimplifyOnce(CodeAt(k, w))), u) ==> u !in Pruned(CodeAt(k, w))
  {
    var code := CodeAt(k, w);
    RoundMentionsOld(k, w);
    FoundDescends(code);
    OnceIsLocal(code);
    DescendsInside(code, Pruned(code));
    hide UniqueDefs, MentionsOld, Ssa, Rank, Descends, LocalCode, SimplifyOnce;
    DefinedAfterRound(k, w, NewOps(code), Pruned(code), u);
    LoopsAfterRound(k, w, NewOps(code), Pruned(code), u);
    UniqueAfterRound(k, w, NewOps(code), Pruned(code));
  }

  // ----- the fixpoint of one block -----

  lemma {:induction false} FixpointBinds(k: KernelValue, w: Where, u: ValueId)
    requires UniqueDefs(k) && HasBlock(k, w) && Ssa(CodeAt(k, w))
    ensures Bound(PutBlock(k, w, Fixpoint(CodeAt(k, w))), u) ==> Bound(k, u)
    decreases |CodeAt(k, w)|, Sum(Weights(CodeAt(k, w))), Sum(Ranks(CodeAt(k, w)))
  {
    var code := CodeAt(k, w);
    hide UniqueDefs, Bound, Changes, Ssa;
    if Changes(code) {
      var k1 := PutBlock(k, w, SimplifyOnce(code));
      RoundBinds(k, w, u);
      RoundDescends(code);
      RoundKeepsSsa(code);
      FixpointBinds(k1, w, u);
      FixpointUnfolds(code);
      assert PutBlock(k1, w, Fixpoint(SimplifyOnce(code))) == PutBlock(k, w, Fixpoint(code));
    } else {
      assert PutBlock(k, w, code) == k;
    }
  }

  lemma DroppedUnbound(k: KernelValue, w: Where, u: ValueId)
    requires UniqueDefs(k) && HasBlock(k, w) && Ssa(CodeAt(k, w)) && Changes(CodeAt(k, w)) && u in Pruned(CodeAt(k, w))
    ensures !Bound(PutBlock(k, w, SimplifyOnce(CodeAt(k, w))), u)
  {
    var code := CodeAt(k, w);
    FoundDescends(code);
    NeverBoth(k, w, u);
    RoundMentionsOld(k, w);
    OnceIsLocal(code);
    hide UniqueDefs, MentionsOld, Ssa, Rank, LocalCode, SimplifyOnce, Changes, Pruned, NewOps;
    RoundBinds(k, w, u);
    LoopsAfterRound(k, w, NewOps(code), Pruned(code), u);
  }

  /** What a round drops is gone for good. */
  lemma DroppedStaysUnbound(k: KernelValue, w: Where, u: ValueId)
    requires UniqueDefs(k) && HasBlock(k, w) && Ssa(CodeAt(k, w)) && Changes(CodeAt(k, w)) && u in Pruned(CodeAt(k, w))
    ensures !Bound(PutBlock(k, w, Fixpoint(CodeAt(k, w))), u)
  {
    var code := CodeAt(k, w);
    hide UniqueDefs, Ssa, SimplifyOnce, Changes, Fixpoint, Pruned, Bound;
    var k1 := PutBlock(k, w, SimplifyOnce(code));
    DroppedUnbound(k, w, u);
    RoundBinds(k, w, u);
    RoundKeepsSsa(code);
    FixpointUnfolds(code);
    FixpointBinds(k1, w, u);
    assert PutBlock(k1, w, Fixpoint(SimplifyOnce(code))) == PutBlock(k, w, Fixpoint(code));
  }

  /** If another block uses a result that the very first round drops, the final kernel uses
      an id that nothing defines. */
  lemma FirstRoundDangles(k: KernelValue, w: Where)
    requires UniqueDefs(k) && HasBlock(k, w) && Ssa(CodeAt(k, w)) && Changes(CodeAt(k, w))
    requires !NotUsedElsewhere(k, w, Pruned(CodeAt(k, w)).Keys)
    ensures !Closed(PutBlock(k, w, Fixpoint(CodeAt(k, w))))
  {
    var code := CodeAt(k, w);
    var k' := PutBlock(k, w, Fixpoint(code));
    var v, i :| v != w && 0 <= i < |CodeAt(k, v)| && !(Uses(CodeAt(k, v)[i].op) !! Pruned(code).Keys);
    var u :| u in Uses(CodeAt(k, v)[i].op) && u in Pruned(code);
    hide Fixpoint, Ssa, Changes;
    CodeAtLocal(k, w, Fixpoint(code), v);
    assert UsedAt(k', v, i, u);
    assert UsedSomewhere(k', u);
    DroppedStaysUnbound(k, w, u);
  }

  /** The whole fixpoint leaves no use without a definition exactly when what other blocks use
      of the block survives it. */
  lemma {:induction false} FixpointClosedIff(k: KernelValue, w: Where)
    requires UniqueDefs(k) && Closed(k) && HasBlock(k, w) && Ssa(CodeAt(k, w))
    ensures Closed(PutBlock(k, w, Fixpoint(CodeAt(k, w)))) <==> CrossUsesSurvive(k, w, Fixpoint(CodeAt(k, w)))
    decreases |CodeAt(k, w)|, Sum(Weights(CodeAt(k, w))), Sum(Ranks(CodeAt(k, w)))
  {
    var code := CodeAt(k, w);
    if Changes(code) {
      var k1 := PutBlock(k, w, SimplifyOnce(code));
      RoundClosedIff(k, w);
      RoundBinds(k, w, 0);
      RoundDescends(code);
      RoundKeepsSsa(code);
      FixpointUnfolds(code);
      assert PutBlock(k1, w, Fixpoint(SimplifyOnce(code))) == PutBlock(k, w, Fixpoint(code));
      hide UniqueDefs, Closed, Ssa, Fixpoint, SimplifyOnce, Changes;
      if NotUsedElsewhere(k, w, Pruned(code).Keys) {
        FixpointClosedIff(k1, w);
        SurviveAlike(k, w);
      } else {
        FirstRoundDangles(k, w);
        if CrossUsesSurvive(k, w, Fixpoint(code)) { CrossUsesAlongRound(k, w); }
      }
    } else {
      assert PutBlock(k, w, code) == k;
    }
  }

  lemma SurviveAlike(k: KernelValue, w: Where)
    requires HasBlock(k, w) && Ssa(CodeAt(k, w)) && Changes(CodeAt(k, w)) && NotUsedElsewhere(k, w, Pruned(CodeAt(k, w)).Keys)
    ensures Ssa(SimplifyOnce(CodeAt(k, w)))
    ensures CrossUsesSurvive(PutBlock(k, w, SimplifyOnce(CodeAt(k, w))), w, Fixpoint(SimplifyOnce(CodeAt(k, w))))
            <==> CrossUsesSurvive(k, w, Fixpoint(CodeAt(k, w)))
  {
    var code := CodeAt(k, w);
    var k1 := PutBlock(k, w, SimplifyOnce(code));
    RoundKeepsSsa(code);
    FixpointUnfolds(code);
    if CrossUsesSurvive(k, w, Fixpoint(code)) { CrossUsesAlongRound(k, w); }
    hide Ssa, Fixpoint, Changes;
    if CrossUsesSurvive(k1, w, Fixpoint(SimplifyOnce(code))) {
      forall v, i, u | v != w && 0 <= i < |CodeAt(k, v)| && u in Uses(CodeAt(k, v)[i].op) && Defines(code, u)
        ensures Defines(Fixpoint(code), u)
      {
        assert u !in Pruned(code);
        StillDefined(code, u);
        CodeAtLocal(k, w, SimplifyOnce(code), v);
        assert CodeAt(k1, v) == CodeAt(k, v) && CodeAt(k1, w) == SimplifyOnce(code);
      }
    }
  }

  lemma StillDefined(code: Code, u: ValueId)
    requires Changes(code) && Defines(code, u) && u !in Pruned(code)
    ensures Defines(SimplifyOnce(code), u)
  {
    var m := Pruned(code);
    var i := SurvivorStays(code, NewOps(code), Resolved(m), m.Keys, Rank(code, u) - 1);
    RewriteAt(code, NewOps(code), Resolved(m), m.Keys, i);
  }

  // ----- a condition on op kinds, for the whole pass -----

  /** The kinds of op a pattern may replace by an existing id. */
  predicate Redirectable(op: Op) {
    (op.BinOp? && (op.bin == Div || op.bin == Min || op.bin == Max))
    || op.Select? || op.Transpose? || op.Reshape? || op.ExpandDims?
  }

  lemma OnlyRedirectable(code: Code, op: Op)
    ensures TrySimplify(code, op).ToId? ==> Redirectable(op)
  {
    hide FindConst, Rank;
  }

  lemma NoNewRedirectable(code: Code, op: Op, m: map<ValueId, ValueId>)
    requires !Redirectable(op)
    ensures !Redirectable(Subst(NewOp(code, op), m))
  {
    hide FindConst, Rank, SubstIndices, SubstArgs, SubstOption;
  }

  ghost predicate Safe(k: KernelValue) { CrossSafe(k, op => Redirectable(op)) }

  lemma SafeAfterRound(k: KernelValue, w: Where)
    requires Safe(k) && HasBlock(k, w) && Ssa(CodeAt(k, w)) && Changes(CodeAt(k, w))
    ensures Safe(PutBlock(k, w, SimplifyOnce(CodeAt(k, w)))) && NotUsedElsewhere(k, w, Pruned(CodeAt(k, w)).Keys)
  {
    var code := CodeAt(k, w);
    var m := Pruned(code);
    RoundMentionsOld(k, w);
    FoundDescends(code);
    OnceIsLocal(code);
    hide Ssa, Changes, MentionsOld, Descends, TrySimplify, NewOp, Redirectable, Resolved;
    forall x | x in m ensures exists i :: DefinedAt(k, w, i, x) && Redirectable(CodeAt(k, w)[i].op) {
      var i := FoundOrigin(code, |code|, x);
      OnlyRedirectable(code, code[i].op);
      assert DefinedAt(k, w, i, x);
    }
    CrossSafeNotUsed(k, w, m, op => Redirectable(op));
    forall i | 0 <= i < |code| && !Redirectable(code[i].op) ensures !Redirectable(Subst(NewOps(code)[i], Resolved(m))) {
      NoNewRedirectable(code, code[i].op, Resolved(m));
    }
    CrossSafeAfterRound(k, w, NewOps(code), m, op => Redirectable(op));
  }

  lemma {:induction false} SafeSurvives(k: KernelValue, w: Where)
    requires Safe(k) && HasBlock(k, w) && Ssa(CodeAt(k, w))
    ensures CrossUsesSurvive(k, w, Fixpoint(CodeAt(k, w))) && Safe(PutBlock(k, w, Fixpoint(CodeAt(k, w))))
    decreases |CodeAt(k, w)|, Sum(Weights(CodeAt(k, w))), Sum(Ranks(CodeAt(k, w)))
  {
    var code := CodeAt(k, w);
    if Changes(code) {
      var k1 := PutBlock(k, w, SimplifyOnce(code));
      SafeAfterRound(k, w);
      RoundDescends(code);
      RoundKeepsSsa(code);
      FixpointUnfolds(code);
      assert PutBlock(k1, w, Fixpoint(SimplifyOnce(code))) == PutBlock(k, w, Fixpoint(code));
      hide Ssa, Fixpoint, SimplifyOnce, Changes, Safe;
      SafeSurvives(k1, w);
      SurviveAlike(k, w);
    } else {
      assert PutBlock(k, w, code) == k;
    }
  }

  ghost predicate AllSsa(k: KernelValue) {
    forall w :: HasBlock(k, w) ==> Ssa(CodeAt(k, w))
  }

  /** On a kernel that satisfies the condition every block is ready when its turn comes. */
  lemma {:induction false} SafeIsReady(k: KernelValue, order: seq<Where>)
    requires Safe(k) && AllSsa(k) && forall w :: w in order ==> HasBlock(k, w)
    ensures AlgebraicPass.Ready(k, order)
    decreases |order|
  {
    hide Safe, Ssa, CrossUsesSurvive;
    if order != [] {
      var w := order[0];
      assert w in order;
      SafeSurvives(k, w);
      FixpointIsStable(CodeAt(k, w));
      var k1 := PutBlock(k, w, Fixpoint(CodeAt(k, w)));
      forall v | HasBlock(k1, v) ensures Ssa(CodeAt(k1, v)) { CodeAtLocal(k, w, Fixpoint(CodeAt(k, w)), v); }
      forall v | v in order[1..] ensures HasBlock(k1, v) { assert v in order; }
      SafeIsReady(k1, order[1..]);
    }
  }

  /** The pass preserves every run of a kernel in SSA form in which no result that another
      block uses comes from a redirectable op. */
  lemma PassPreservesSafe(c: Setting, order: seq<Where>, fuel: nat)
    requires Disciplined(c) && Laws(c.I) && AllSsa(c.k) && Safe(c.k) && forall w :: w in order ==> HasBlock(c.k, w)
    requires !Fails(RunKernel(c.I, c.k, State(c.mem, []), fuel))
    ensures AlgebraicPass.Ready(c.k, order)
    ensures SameForObserver(RunKernel(c.I, c.k, State(c.mem, []), fuel),
                            RunKernel(c.I, AlgebraicPass.Simplified(c.k, order), State(c.mem, []), fuel))
  {
    SafeIsReady(c.k, order);
    AlgebraicPass.PassPreserves(c, order, fuel);
  }

  lemma {:induction false} SimplifiedKeys(k: KernelValue, order: seq<Where>)
    requires AlgebraicPass.Ready(k, order)
    ensures AlgebraicPass.Simplified(k, order).blocks.Keys == k.blocks.Keys
    decreases |order|
  {
    hide Ssa, CrossUsesSurvive;
    if order != [] { SimplifiedKeys(PutBlock(k, order[0], Fixpoint(CodeAt(k, order[0]))), order[1..]); }
  }

  /** The kernel that `AlgebraicPass.Run` leaves behaves like the one it was given. */
  lemma RunPreserves(c: Setting, k': KernelValue, fuel: nat)
    requires Disciplined(c) && Laws(c.I) && AllSsa(c.k) && Safe(c.k)
    requires k'.blocks.Keys == c.k.blocks.Keys
    requires forall w :: HasBlock(c.k, w) ==> CodeAt(k', w) == Fixpoint(CodeAt(c.k, w))
    requires !Fails(RunKernel(c.I, c.k, State(c.mem, []), fuel))
    ensures SameForObserver(RunKernel(c.I, c.k, State(c.mem, []), fuel), RunKernel(c.I, k', State(c.mem, []), fuel))
  {
    var order := AllPlaces(c.k.blocks.Keys);
    PassPreservesSafe(c, order, fuel);
    hide Disciplined, Laws, Safe, Ssa, CrossUsesSurvive, Semantics.Run;
    SimplifiedKeys(c.k, order);
    var end := AlgebraicPass.Simplified(c.k, order);
    forall w | HasBlock(c.k, w) ensures CodeAt(end, w) == CodeAt(k', w) {
      AlgebraicPass.SimplifiedBlock(c.k, order, w);
    }
    assert CodeAt(end, None) == CodeAt(k', None);
    forall b | b in k'.blocks ensures end.blocks[b] == k'.blocks[b] {
      assert CodeAt(end, Some(b)) == CodeAt(k', Some(b));
    }
    assert end == k';
  }
}
