/**
 The fixpoint of algebraic simplification: why it is reached, what it preserves, and
 the loops that compute it.
 */
module AlgebraicFixpoint {
  import opened Ir
  import opened Semantics
  import opened RewritePlan
  import opened Blocks
  import opened LocalRewrite
  import opened AlgebraicSimplify

  // ----- the measure: ops, weights of kinds, ranks of operands -----

  function Weight(op: Op): nat {
    match op
    case ConstOp(_) => 0
    case BinOp(k, _, _) => if k == CmpLt || k == CmpLe then 3 else 2
    case _ => 1
  }

  function OperandRank(code: Code, op: Op): nat {
    match op
    case BinOp(_, l, r) => Rank(code, l) + Rank(code, r)
    case Select(c, a, b) => Rank(code, c) + Rank(code, a) + Rank(code, b)
    case Broadcast(x, _) => Rank(code, x)
    case _ => 0
  }

  function Sum(s: seq<nat>): nat {
    if s == [] then 0 else s[0] + Sum(s[1..])
  }

  function Weights(code: Code): seq<nat> {
    seq(|code|, i requires 0 <= i < |code| => Weight(code[i].op))
  }

  function Ranks(code: Code): seq<nat> {
    seq(|code|, i requires 0 <= i < |code| => OperandRank(code, code[i].op))
  }

  /** Pointwise lexicographic descent carries over to the sums. */
  lemma {:induction false} SumsDescend(w: seq<nat>, w': seq<nat>, r: seq<nat>, r': seq<nat>)
    requires |w| == |w'| == |r| == |r'|
    requires forall i :: 0 <= i < |w| ==> w'[i] < w[i] || (w'[i] == w[i] && r'[i] <= r[i])
    ensures Sum(w') < Sum(w) || (Sum(w') == Sum(w) && Sum(r') <= Sum(r))
    ensures (exists i :: 0 <= i < |w| && (w'[i] < w[i] || r'[i] < r[i])) ==>
              Sum(w') < Sum(w) || (Sum(w') == Sum(w) && Sum(r') < Sum(r))
  {
    if w != [] {
      SumsDescend(w[1..], w'[1..], r[1..], r'[1..]);
      if i :| 0 <= i < |w| && (w'[i] < w[i] || r'[i] < r[i]) {
        if i > 0 { assert w'[1..][i - 1] < w[1..][i - 1] || r'[1..][i - 1] < r[1..][i - 1]; }
      }
    }
  }

  ghost predicate Below(code': Code, code: Code) {
    || |code'| < |code|
    || (|code'| == |code| && Sum(Weights(code')) < Sum(Weights(code)))
    || (|code'| == |code| && Sum(Weights(code')) == Sum(Weights(code)) && Sum(Ranks(code')) < Sum(Ranks(code)))
  }

  /** One replaced op is lighter, or as heavy with operands from earlier. */
  lemma OpDescends(code: Code, op: Op)
    requires Ordered(code)
    ensures var op' := NewOp(code, op);
            op' == op || Weight(op') < Weight(op)
            || (Weight(op') == Weight(op) && OperandRank(code, op') < OperandRank(code, op))
    ensures TrySimplify(code, op).ToConst? || TrySimplify(code, op).ToOp? ==> NewOp(code, op) != op
  {
    match op
    case BinOp(k, l, r) => BinopDescends(code, k, l, r);
    case Select(c, a, b) =>
      if NotArg(code, c).Some? { NotRank(code, c); }
      hide Ordered, FindConst, Rank, NotArg;
    case Broadcast(x, _) => OperandRanks(code, x);
    case _ =>
  }

  lemma BinopDescends(code: Code, k: BinOpKind, l: ValueId, r: ValueId)
    requires Ordered(code)
    ensures var op, op' := BinOp(k, l, r), NewOp(code, BinOp(k, l, r));
            op' == op || Weight(op') < Weight(op)
            || (Weight(op') == Weight(op) && OperandRank(code, op') < OperandRank(code, op))
    ensures var s := SimplifyBinop(code, k, l, r);
            s.ToConst? || s.ToOp? ==> NewOp(code, BinOp(k, l, r)) != BinOp(k, l, r)
  {
    hide FindConst, Rank;
    if k == Mul {
      var x, y := NegArg(code, l), NegArg(code, r);
      if x.Some? { NegRank(code, l); }
      if y.Some? { NegRank(code, r); }
      hide Ordered, NegArg;
      assert x.Some? && y.Some? ==> NewOp(code, BinOp(k, l, r)) == BinOp(Mul, x.value, y.value);
    } else {
      hide Ordered, NegArg;
    }
  }

  lemma {:induction false} RankBySResults(code: Code, code': Code, v: ValueId)
    requires |code| == |code'| && forall i :: 0 <= i < |code| ==> code[i].res == code'[i].res
    ensures Rank(code, v) == Rank(code', v)
  {
    if code != [] && code[|code| - 1].res != Some(v) {
      RankBySResults(code[..|code| - 1], code'[..|code| - 1], v);
    }
  }

  /** With no redirect a round replaces ops one by one. */
  lemma ReplacingRound(code: Code)
    requires Pruned(code) == map[] && Changes(code)
    ensures |SimplifyOnce(code)| == |code|
    ensures forall i :: 0 <= i < |code| ==> SimplifyOnce(code)[i] == Instr(NewOp(code, code[i].op), code[i].res)
  {
    assert Resolved(map[]) == map[];
    assert Pruned(code).Keys == {};
    RewriteAll(code, NewOps(code), map[], {});
    forall i | 0 <= i < |code| ensures Subst(NewOps(code)[i], map[]) == NewOps(code)[i] {
      SubstNothing(NewOps(code)[i]);
    }
  }

  /** Every productive round goes down: this is why the fixpoint loop ends. The pruning
      of unused redirects and the deletion of redirected ops are what the first case needs. */
  lemma RoundDescends(code: Code)
    requires Ssa(code) && Changes(code)
    ensures Below(SimplifyOnce(code), code)
  {
    hide TrySimplify, UniqueResults, Resolved;
    var m := Pruned(code);
    if m != map[] {
      var v :| v in m;
      var i := FoundOrigin(code, |code|, v);
      assert IsDead(code[i].res, m.Keys);
      DroppingShortens(code, NewOps(code), Resolved(m), m.Keys);
    } else {
      ReplacingRound(code);
      var code' := SimplifyOnce(code);
      forall i | 0 <= i < |code|
        ensures Weights(code')[i] < Weights(code)[i] || (Weights(code')[i] == Weights(code)[i] && Ranks(code')[i] <= Ranks(code)[i])
        ensures NewOp(code, code[i].op) != code[i].op ==> Weights(code')[i] < Weights(code)[i] || Ranks(code')[i] < Ranks(code)[i]
      {
        OpDescends(code, code[i].op);
        SameRanks(code, code', code'[i].op);
      }
      var i :| 0 <= i < |code| && (TrySimplify(code, code[i].op).ToConst? || TrySimplify(code, code[i].op).ToOp?);
      OpDescends(code, code[i].op);
      SumsDescend(Weights(code), Weights(code'), Ranks(code), Ranks(code'));
    }
  }

  lemma SameRanks(code: Code, code': Code, op: Op)
    requires |code| == |code'| && forall i :: 0 <= i < |code| ==> code[i].res == code'[i].res
    ensures OperandRank(code', op) == OperandRank(code, op)
  {
    match op
    case BinOp(_, l, r) => RankBySResults(code, code', l); RankBySResults(code, code', r);
    case Select(c, a, b) => RankBySResults(code, code', c); RankBySResults(code, code', a); RankBySResults(code, code', b);
    case Broadcast(x, _) => RankBySResults(code, code', x);
    case _ =>
  }

  ghost function Fixpoint(code: Code): Code
    requires Ssa(code)
    decreases |code|, Sum(Weights(code)), Sum(Ranks(code))
  {
    if Changes(code) then
      RoundDescends(code);
      RoundKeepsSsa(code);
      Fixpoint(SimplifyOnce(code))
    else code
  }

  /** At the fixpoint no pattern is left to apply, except to results nobody in the block uses. */
  lemma {:induction false} FixpointIsStable(code: Code)
    requires Ssa(code)
    ensures !Changes(Fixpoint(code)) && Ssa(Fixpoint(code))
    decreases |code|, Sum(Weights(code)), Sum(Ranks(code))
  {
    if Changes(code) {
      RoundDescends(code);
      RoundKeepsSsa(code);
      FixpointIsStable(SimplifyOnce(code));
    }
  }

  // ----- the kernel around the block -----

  predicate Defines(code: Code, v: ValueId) { Rank(code, v) > 0 }

  /** What other blocks use of block w is still defined in `code'`. */
  ghost predicate CrossUsesSurvive(k: KernelValue, w: Where, code': Code) {
    forall v, i, u :: v != w && 0 <= i < |CodeAt(k, v)| && u in Uses(CodeAt(k, v)[i].op) && Defines(CodeAt(k, w), u) ==>
      Defines(code', u)
  }

  lemma RoundShrinks(code: Code, v: ValueId)
    requires Ssa(code) && Defines(SimplifyOnce(code), v)
    ensures Defines(code, v) && v !in Pruned(code)
  {
    if Changes(code) {
      var code' := SimplifyOnce(code);
      RewriteAt(code, NewOps(code), Resolved(Pruned(code)), Pruned(code).Keys, Rank(code', v) - 1);
    }
  }

  lemma {:induction false} FixpointShrinks(code: Code, v: ValueId)
    requires Ssa(code) && Defines(Fixpoint(code), v)
    ensures Defines(code, v) && (Changes(code) ==> Defines(SimplifyOnce(code), v))
    decreases |code|, Sum(Weights(code)), Sum(Ranks(code))
  {
    if Changes(code) {
      RoundDescends(code);
      RoundKeepsSsa(code);
      FixpointShrinks(SimplifyOnce(code), v);
      RoundShrinks(code, v);
    }
  }

  /** A round leaves a disciplined kernel with one such. */
  lemma RoundKeepsDiscipline(c: Setting, w: Where)
    requires Disciplined(c) && HasBlock(c.k, w) && Ssa(CodeAt(c.k, w)) && Changes(CodeAt(c.k, w))
    ensures Disciplined(c.(k := PutBlock(c.k, w, SimplifyOnce(CodeAt(c.k, w)))))
  {
    hide Disciplined, NewOp, Changes, Ssa, Rank;
    var code := CodeAt(c.k, w);
    FoundDescends(code);
    forall i | 0 <= i < |code| ensures SameRole(code[i].op, NewOps(code)[i]) {
      OnlyArithmetic(code, code[i].op);
    }
    LocalKeepsDiscipline(c, w, NewOps(code), Pruned(code));
    RoundIsRewrite(code);
  }

  lemma RoundIsRewrite(code: Code)
    requires Changes(code)
    ensures SimplifyOnce(code) == Rewrite(code, NewOps(code), Resolved(Pruned(code)), Pruned(code).Keys)
  {
  }

  lemma OnlyArithmetic(code: Code, op: Op)
    ensures SameRole(op, NewOp(code, op))
  {
    hide FindConst, NegArg, NotArg, Rank;
  }

  /** The fixpoint of one block preserves every run of the kernel that does not get
      stuck, provided what other blocks use of the block survives it. */
  lemma {:induction false} FixpointPreserves(c: Setting, w: Where, fuel: nat)
    requires Disciplined(c) && HasBlock(c.k, w) && Ssa(CodeAt(c.k, w)) && Laws(c.I)
    requires CrossUsesSurvive(c.k, w, Fixpoint(CodeAt(c.k, w)))
    requires !Fails(RunKernel(c.I, c.k, State(c.mem, []), fuel))
    ensures SameForObserver(RunKernel(c.I, c.k, State(c.mem, []), fuel),
                            RunKernel(c.I, PutBlock(c.k, w, Fixpoint(CodeAt(c.k, w))), State(c.mem, []), fuel))
    decreases |CodeAt(c.k, w)|, Sum(Weights(CodeAt(c.k, w))), Sum(Ranks(CodeAt(c.k, w)))
  {
    hide Disciplined, Laws, Run, Changes;
    var code := CodeAt(c.k, w);
    if Changes(code) {
      var k1 := PutBlock(c.k, w, SimplifyOnce(code));
      CrossUsesAlongRound(c.k, w);
      RoundPreserves(c, w, fuel);
      RoundKeepsDiscipline(c, w);
      RoundDescends(code);
      RoundKeepsSsa(code);
      FixpointPreserves(c.(k := k1), w, fuel);
      assert PutBlock(k1, w, Fixpoint(SimplifyOnce(code))) == PutBlock(c.k, w, Fixpoint(code));
    } else {
      assert PutBlock(c.k, w, code) == c.k;
    }
  }

  lemma CrossUsesAlongRound(k: KernelValue, w: Where)
    requires HasBlock(k, w) && Ssa(CodeAt(k, w)) && Changes(CodeAt(k, w))
    requires CrossUsesSurvive(k, w, Fixpoint(CodeAt(k, w)))
    ensures Ssa(SimplifyOnce(CodeAt(k, w)))
    ensures NotUsedElsewhere(k, w, Pruned(CodeAt(k, w)).Keys)
    ensures CrossUsesSurvive(PutBlock(k, w, SimplifyOnce(CodeAt(k, w))), w, Fixpoint(SimplifyOnce(CodeAt(k, w))))
  {
    var code := CodeAt(k, w);
    var m := Pruned(code);
    RoundKeepsSsa(code);
    FoundDescends(code);
    hide Ssa, Fixpoint, SimplifyOnce;
    forall v, i, u | v != w && 0 <= i < |CodeAt(k, v)| && u in Uses(CodeAt(k, v)[i].op) ensures u !in m.Keys {
      if u in m {
        assert Defines(code, u);
        FixpointShrinks(code, u);
        RoundShrinks(code, u);
      }
    }
    var k1 := PutBlock(k, w, SimplifyOnce(code));
    assert CodeAt(k1, w) == SimplifyOnce(code);
    forall v, i, u | v != w && 0 <= i < |CodeAt(k1, v)| && u in Uses(CodeAt(k1, v)[i].op) && Defines(SimplifyOnce(code), u)
      ensures Defines(Fixpoint(SimplifyOnce(code)), u)
    {
      RoundShrinks(code, u);
      assert CodeAt(k1, v) == CodeAt(k, v);
      FixpointUnfolds(code);
    }
  }

  lemma FixpointUnfolds(code: Code)
    requires Ssa(code) && Changes(code)
    ensures Ssa(SimplifyOnce(code)) && Fixpoint(code) == Fixpoint(SimplifyOnce(code))
  {
    RoundDescends(code);
    RoundKeepsSsa(code);
  }
}
