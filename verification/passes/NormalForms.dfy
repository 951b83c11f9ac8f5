/**
 What the passes leave nothing of: the patterns of each pass, spelled out on the ops of a
 block, and the proof that none is left where the pass has run.
 */
module NormalForms {
  import opened Ir
  import opened Blocks
  import opened RewritePlan
  import opened LocalRewrite
  import opened FoldMeaning
  import AlgebraicSimplify
  import AlgebraicFixpoint
  import ConstFold
  import ConstFoldPass
  import CopyProp

  ghost predicate IsLiteral(code: Code, v: ValueId, n: int) {
    exists p :: 0 <= p < |code| && code[p] == Instr(ConstOp(n), Some(v))
  }

  /** Some instruction of the block makes v with this op. */
  ghost predicate IsMade(code: Code, v: ValueId, op: Op) {
    exists p :: 0 <= p < |code| && code[p] == Instr(op, Some(v))
  }

  lemma {:induction false} LiteralFound(code: Code, v: ValueId, n: int)
    requires UniqueResults(code) && IsLiteral(code, v, n)
    ensures FindConst(code, v) == Some(n)
  {
    SomeLiteral(code, v, n);
    ConstAt(code, v);
  }

  lemma {:induction false} SomeLiteral(code: Code, v: ValueId, n: int)
    requires IsLiteral(code, v, n)
    ensures FindConst(code, v).Some?
  {
    var p :| 0 <= p < |code| && code[p] == Instr(ConstOp(n), Some(v));
    if p > 0 {
      assert code[1..][p - 1] == code[p];
      SomeLiteral(code[1..], v, n);
    }
  }

  lemma MadeFound(code: Code, v: ValueId, op: Op)
    requires UniqueResults(code) && IsMade(code, v, op)
    ensures AlgebraicSimplify.DefiningOp(code, v) == Some(op)
  {
    var p :| 0 <= p < |code| && code[p] == Instr(op, Some(v));
    RankOf(code, p);
  }

  lemma FoundIsLiteral(code: Code, v: ValueId)
    ensures FindConst(code, v).Some? ==> IsLiteral(code, v, FindConst(code, v).value)
  {
    if FindConst(code, v).Some? { ConstAt(code, v); }
  }

  lemma MadeIsNoLiteral(code: Code, v: ValueId, op: Op)
    requires UniqueResults(code) && IsMade(code, v, op) && !op.ConstOp?
    ensures FindConst(code, v).None?
  {
    FoundIsLiteral(code, v);
    hide FindConst;
  }

  // ----- constant folding -----

  /** A foldable operation on two literals becomes the literal it computes. */
  lemma LiteralsFold(code: Code, i: nat, k: BinOpKind, l: ValueId, r: ValueId, a: int, b: int)
    requires UniqueResults(code) && i < |code| && code[i].op == BinOp(k, l, r)
    requires IsLiteral(code, l, a) && IsLiteral(code, r, b) && IsI64(a) && IsI64(b)
    requires k !in {Pow, ATan2, Rem, Mod} && (k == Div ==> b != 0 && !(a == -0x8000_0000_0000_0000 && b == -1))
    requires k in {Shl, Shr} ==> 0 <= b < 64
    ensures var ins := ConstFold.FoldBlock(code)[i];
            ins.res == code[i].res && ins.op.ConstOp? && Computes(k, a, b, ins.op.literal)
  {
    LiteralFound(code, l, a);
    LiteralFound(code, r, b);
    FoldsExactly(k, a, b);
    FoldComputes(k, a, b);
    ConstFold.SubstEachIsSubst(ConstFold.Overwritten(code, code[i].op), ConstFold.Redirected(code, |code|));
    hide ConstFold.EvalBinop, ConstFold.Redirected, ConstFold.SubstEach, ConstFold.Composed, Computes;
  }

  /** A product with a literal zero becomes zero. */
  lemma ZeroAbsorbs(code: Code, i: nat, l: ValueId, r: ValueId)
    requires UniqueResults(code) && i < |code| && code[i].op == BinOp(Mul, l, r)
    requires IsLiteral(code, l, 0) || IsLiteral(code, r, 0)
    ensures ConstFold.FoldBlock(code)[i] == Instr(ConstOp(0), code[i].res)
  {
    if IsLiteral(code, l, 0) { LiteralFound(code, l, 0); }
    if IsLiteral(code, r, 0) { LiteralFound(code, r, 0); }
    ConstFold.SubstEachIsSubst(ConstFold.Overwritten(code, code[i].op), ConstFold.Redirected(code, |code|));
    hide ConstFold.Redirected, ConstFold.SubstEach, ConstFold.Composed;
  }

  /** A foldable operation on one literal becomes the literal it computes. */
  lemma LiteralFolds(code: Code, i: nat, k: UnaryOpKind, x: ValueId, a: int)
    requires UniqueResults(code) && i < |code| && code[i].op == UnaryOp(k, x) && IsLiteral(code, x, a)
    requires IsI64(a) && k in {Neg, Abs, Sign, Trunc, Floor, Ceil, Round}
    ensures var ins := ConstFold.FoldBlock(code)[i];
            ins.res == code[i].res && ins.op.ConstOp? && UnaryResult(k, a, ins.op.literal)
  {
    LiteralFound(code, x, a);
    UnaryComputes(k, a);
    ConstFold.SubstEachIsSubst(ConstFold.Overwritten(code, code[i].op), ConstFold.Redirected(code, |code|));
    hide ConstFold.EvalUnary, ConstFold.Redirected, ConstFold.SubstEach, ConstFold.Composed, UnaryResult;
  }

  /** What a nested block still defines after the dead-code step, some block used before it. */
  lemma UnusedGone(k: KernelValue, b: BlockId, i: nat, x: ValueId)
    requires DefinedAt(ConstFoldPass.Dce(k), Some(b), i, x)
    ensures UsedSomewhere(k, x)
  {
    var p := ConstFoldPass.DcePlan(k);
    ConstFoldPass.DceFits(k);
    DefinedBefore(k, p, Some(b), i, x);
    var code := CodeAt(k, Some(b));
    var o := Origin(code, p.dead, i);
    assert b in k.blocks && code == k.blocks[b] && k.blocks[b][o].res == Some(x);
    assert ConstFoldPass.Used(k, x);
    UsedIsUsed(k, x);
  }

  lemma UsedIsUsed(k: KernelValue, x: ValueId)
    requires ConstFoldPass.Used(k, x)
    ensures UsedSomewhere(k, x)
  {
    if ConstFoldPass.UsedIn(k.body, x) {
      var i :| 0 <= i < |k.body| && x in Uses(k.body[i].op);
      assert UsedAt(k, None, i, x);
    } else {
      var b :| b in k.blocks && ConstFoldPass.UsedIn(k.blocks[b], x);
      var i :| 0 <= i < |k.blocks[b]| && x in Uses(k.blocks[b][i].op);
      assert UsedAt(k, Some(b), i, x);
    }
  }

  /** The identities: adding or subtracting zero, multiplying by one. */
  ghost predicate AddsNothing(code: Code, op: Op, x: ValueId) {
    && op.BinOp?
    && (|| (op.bin in {Add, Sub} && op.lhs == x && IsLiteral(code, op.rhs, 0))
        || (op.bin == Add && op.rhs == x && IsLiteral(code, op.lhs, 0))
        || (op.bin == Mul && op.lhs == x && IsLiteral(code, op.rhs, 1))
        || (op.bin == Mul && op.rhs == x && IsLiteral(code, op.lhs, 1)))
  }

  /** An id whose op adds nothing to a value is used no more, unless another such op passes it on. */
  lemma IdentitiesGo(code: Code, i: nat, v: ValueId, x: ValueId, j: nat)
    requires UniqueResults(code) && i < |code| && j < |code| && code[i].res == Some(v) && AddsNothing(code, code[i].op, x)
    requires forall n :: !IsLiteral(code, x, n)
    requires forall p :: 0 <= p < |code| ==> !AddsNothing(code, code[p].op, v)
    ensures v !in Uses(ConstFold.FoldBlock(code)[j].op)
  {
    var op, reps := code[j].op, ConstFold.Redirected(code, |code|);
    PassesOn(code, code[i].op, x);
    hide AddsNothing, ConstFold.FoldOp, IsLiteral;
    RedirectListed(code, |code|, i, v, x);
    forall q | q in reps ensures q.1 != v {
      var p := ConstFold.RedirectedOrigin(code, |code|, q);
      OnlyIdentities(code, code[p].op, q.1);
    }
    ConstFold.SubstEachIsSubst(ConstFold.Overwritten(code, op), reps);
    UsesOfSubst(ConstFold.Overwritten(code, op), ConstFold.Composed(reps));
    forall u ensures To(ConstFold.Composed(reps), u) != v {
      ConstFold.FollowComposed(reps, u);
      FollowMisses(reps, u, v);
    }
  }

  /** An op that adds nothing to a value which is no literal is redirected to it ... */
  lemma PassesOn(code: Code, op: Op, x: ValueId)
    requires UniqueResults(code) && AddsNothing(code, op, x) && forall n :: !IsLiteral(code, x, n)
    ensures ConstFold.FoldOp(code, op) == ConstFold.ToId(x)
  {
    FoundIsLiteral(code, x);
    var z := if op.lhs == x then op.rhs else op.lhs;
    if IsLiteral(code, z, 0) { LiteralFound(code, z, 0); }
    if IsLiteral(code, z, 1) { LiteralFound(code, z, 1); }
    hide FindConst, IsLiteral, ConstFold.EvalBinop;
  }

  /** ... and no other op is redirected. */
  lemma OnlyIdentities(code: Code, op: Op, x: ValueId)
    requires ConstFold.FoldOp(code, op) == ConstFold.ToId(x)
    ensures AddsNothing(code, op, x)
  {
    FoundIsLiteral(code, op.lhs);
    FoundIsLiteral(code, op.rhs);
    hide FindConst, IsLiteral, ConstFold.EvalBinop;
  }

  lemma {:induction false} RedirectListed(code: Code, n: nat, i: nat, v: ValueId, x: ValueId)
    requires i < n <= |code| && code[i].res == Some(v) && ConstFold.FoldOp(code, code[i].op) == ConstFold.ToId(x)
    ensures (v, x) in ConstFold.Redirected(code, n)
  {
    hide ConstFold.FoldOp;
    if i < n - 1 { RedirectListed(code, n - 1, i, v, x); }
  }

  lemma {:induction false} FollowMisses(reps: seq<(ValueId, ValueId)>, u: ValueId, v: ValueId)
    requires (forall q :: q in reps ==> q.1 != v) && (u != v || exists q :: q in reps && q.0 == v)
    ensures ConstFold.Follow(reps, u) != v
    decreases |reps|
  {
    if reps != [] {
      var u' := To(map[reps[0].0 := reps[0].1], u);
      if u == v && reps[0].0 != v {
        var q :| q in reps && q.0 == v;
        assert q in reps[1..];
      } else {
        assert reps[0] in reps && u' != v;
      }
      FollowMisses(reps[1..], u', v);
    }
  }

  // ----- algebraic simplification -----

  /** v is the negation of a condition: equal to zero, or exclusive or with one. */
  ghost predicate IsNegation(code: Code, v: ValueId) {
    exists op :: IsMade(code, v, op) && Negates(code, op)
  }

  ghost predicate Negates(code: Code, op: Op) {
    && op.BinOp?
    && ((op.bin == CmpEq && (IsLiteral(code, op.lhs, 0) || IsLiteral(code, op.rhs, 0)))
        || (op.bin == Xor && (IsLiteral(code, op.lhs, 1) || IsLiteral(code, op.rhs, 1))))
  }

  /** Ops that the simplifier overwrites. */
  ghost predicate Reducible(code: Code, op: Op) {
    match op
    case BinOp(k, l, r) =>
      || (l == r && k in {Sub, Div, CmpEq, CmpNe})
      || k in {CmpLt, CmpLe}
      || (k == Sub && IsLiteral(code, l, 0))
      || (k == Mul && exists x, y :: IsMade(code, l, UnaryOp(Neg, x)) && IsMade(code, r, UnaryOp(Neg, y)))
    case Select(c, a, b) => a != b && IsNegation(code, c)
    case Broadcast(x, s) => s != [Dim.Known(1)] && exists y, t :: IsMade(code, x, Broadcast(y, t))
    case _ => false
  }

  /** Ops whose uses the simplifier redirects. */
  ghost predicate Redundant(code: Code, op: Op) {
    match op
    case BinOp(k, l, r) => (l == r && k in {Min, Max}) || (k == Div && l != r && IsLiteral(code, r, 1))
    case Select(c, a, b) => a == b || IsLiteral(code, c, 0) || IsLiteral(code, c, 1)
    case Transpose(x) => exists y :: IsMade(code, x, Transpose(y))
    case Reshape(x, _) => exists y, t :: IsMade(code, x, Reshape(y, t))
    case ExpandDims(x, _) => exists y, t :: IsMade(code, x, Reshape(y, t))
    case _ => false
  }

  lemma ReducibleIsFound(code: Code, op: Op)
    requires UniqueResults(code) && Reducible(code, op)
    ensures AlgebraicSimplify.TrySimplify(code, op).ToConst? || AlgebraicSimplify.TrySimplify(code, op).ToOp?
  {
    match op
    case BinOp(k, l, r) =>
      if k == Sub && IsLiteral(code, l, 0) { LiteralFound(code, l, 0); }
      if k == Mul {
        var x, y :| IsMade(code, l, UnaryOp(Neg, x)) && IsMade(code, r, UnaryOp(Neg, y));
        MadeFound(code, l, UnaryOp(Neg, x));
        MadeFound(code, r, UnaryOp(Neg, y));
      }
    case Select(c, _, _) => NegationFound(code, c);
    case Broadcast(x, _) =>
      var y, t :| IsMade(code, x, Broadcast(y, t));
      MadeFound(code, x, Broadcast(y, t));
  }

  lemma NegationFound(code: Code, v: ValueId)
    requires UniqueResults(code) && IsNegation(code, v)
    ensures AlgebraicSimplify.NotArg(code, v).Some? && FindConst(code, v).None?
  {
    var op :| IsMade(code, v, op) && Negates(code, op);
    MadeFound(code, v, op);
    var n := if op.bin == CmpEq then 0 else 1;
    if IsLiteral(code, op.lhs, n) { LiteralFound(code, op.lhs, n); }
    if IsLiteral(code, op.rhs, n) { LiteralFound(code, op.rhs, n); }
    MadeIsNoLiteral(code, v, op);
  }

  lemma RedundantIsFound(code: Code, op: Op)
    requires UniqueResults(code) && Redundant(code, op)
    ensures AlgebraicSimplify.TrySimplify(code, op).ToId?
  {
    match op
    case BinOp(_, _, r) => if IsLiteral(code, r, 1) { LiteralFound(code, r, 1); }
    case Select(c, _, _) =>
      if IsLiteral(code, c, 0) { LiteralFound(code, c, 0); }
      if IsLiteral(code, c, 1) { LiteralFound(code, c, 1); }
    case Transpose(x) =>
      var y :| IsMade(code, x, Transpose(y));
      MadeFound(code, x, Transpose(y));
    case Reshape(x, _) =>
      var y, t :| IsMade(code, x, Reshape(y, t));
      MadeFound(code, x, Reshape(y, t));
    case ExpandDims(x, _) =>
      var y, t :| IsMade(code, x, Reshape(y, t));
      MadeFound(code, x, Reshape(y, t));
  }

  lemma DefinitionIsMade(code: Code, v: ValueId)
    ensures AlgebraicSimplify.DefiningOp(code, v).Some? ==> IsMade(code, v, AlgebraicSimplify.DefiningOp(code, v).value)
  {
  }

  /** The simplifier acts on these patterns and on no other op. */
  lemma OnlyPatterns(code: Code, op: Op)
    requires AlgebraicSimplify.TrySimplify(code, op) != AlgebraicSimplify.Keep
    ensures Reducible(code, op) || Redundant(code, op)
  {
    match op
    case BinOp(k, l, r) =>
      FoundIsLiteral(code, l);
      FoundIsLiteral(code, r);
      DefinitionIsMade(code, l);
      DefinitionIsMade(code, r);
    case Select(c, _, _) =>
      FoundIsLiteral(code, c);
      if AlgebraicSimplify.NotArg(code, c).Some? { NegationShown(code, c); }
    case Broadcast(x, _) => DefinitionIsMade(code, x);
    case Transpose(x) => DefinitionIsMade(code, x);
    case Reshape(x, _) => DefinitionIsMade(code, x);
    case ExpandDims(x, _) => DefinitionIsMade(code, x);
  }

  lemma NegationShown(code: Code, v: ValueId)
    requires AlgebraicSimplify.NotArg(code, v).Some?
    ensures IsNegation(code, v)
  {
    DefinitionIsMade(code, v);
    var op := AlgebraicSimplify.DefiningOp(code, v).value;
    FoundIsLiteral(code, op.lhs);
    FoundIsLiteral(code, op.rhs);
    assert IsMade(code, v, op) && Negates(code, op);
  }

  /** Whatever matches no pattern survives a round with the operation it had, on operands
      that may have been renamed. */
  lemma OthersStay(code: Code, i: nat) returns (p: nat, m: map<ValueId, ValueId>)
    requires UniqueResults(code) && i < |code| && !Reducible(code, code[i].op) && !Redundant(code, code[i].op)
    ensures p < |AlgebraicSimplify.SimplifyOnce(code)|
    ensures AlgebraicSimplify.SimplifyOnce(code)[p] == Instr(Subst(code[i].op, m), code[i].res)
  {
    hide AlgebraicSimplify.TrySimplify, Reducible, Redundant;
    if AlgebraicSimplify.TrySimplify(code, code[i].op) != AlgebraicSimplify.Keep { OnlyPatterns(code, code[i].op); }
    if AlgebraicSimplify.Changes(code) {
      var found := AlgebraicSimplify.Pruned(code);
      var ops := AlgebraicSimplify.NewOps(code);
      if IsDead(code[i].res, found.Keys) {
        var j := AlgebraicSimplify.FoundOrigin(code, |code|, code[i].res.value);
      }
      m := Resolved(found);
      p := SurvivorStays(code, ops, m, found.Keys, i);
      RewriteAt(code, ops, m, found.Keys, p);
    } else {
      p, m := i, map[];
      SubstNothing(code[i].op);
    }
  }

  /** The simplified block has nothing to overwrite, and the result of an op whose uses could
      be redirected is not used in it. */
  lemma SimplifiedForm(code: Code, i: nat)
    requires Ssa(code) && i < |AlgebraicFixpoint.Fixpoint(code)|
    ensures var end := AlgebraicFixpoint.Fixpoint(code);
            && !Reducible(end, end[i].op)
            && (Redundant(end, end[i].op) && end[i].res.Some? ==> !ConstFoldPass.UsedIn(end, end[i].res.value))
  {
    AlgebraicFixpoint.FixpointIsStable(code);
    var end := AlgebraicFixpoint.Fixpoint(code);
    hide AlgebraicFixpoint.Fixpoint, AlgebraicSimplify.TrySimplify, Reducible, Redundant;
    if Reducible(end, end[i].op) { ReducibleIsFound(end, end[i].op); }
    if Redundant(end, end[i].op) && end[i].res.Some? {
      RedundantIsFound(end, end[i].op);
      FoundListed(end, |end|, i);
      AnyUsedIfUsed(end, AlgebraicSimplify.Found(end, |end|), end[i].res.value);
    }
  }

  lemma AnyUsedIfUsed(code: Code, m: map<ValueId, ValueId>, v: ValueId)
    requires v in m
    ensures ConstFoldPass.UsedIn(code, v) ==> AlgebraicSimplify.AnyUsed(code, m)
  {
    if ConstFoldPass.UsedIn(code, v) {
      var p :| 0 <= p < |code| && v in Uses(code[p].op);
      assert v in Uses(code[p].op) * m.Keys;
    }
  }

  lemma {:induction false} FoundListed(code: Code, n: nat, i: nat)
    requires i < n <= |code| && code[i].res.Some? && AlgebraicSimplify.TrySimplify(code, code[i].op).ToId?
    ensures code[i].res.value in AlgebraicSimplify.Found(code, n)
  {
    hide AlgebraicSimplify.TrySimplify;
    if i < n - 1 { FoundListed(code, n - 1, i); }
  }

  // ----- copy propagation -----

  /** v surely has this dtype: the op that makes it says so. */
  ghost predicate HasDType(code: Code, v: ValueId, d: DType) {
    (exists x :: IsMade(code, v, Cast(x, d))) || (exists s :: IsMade(code, v, Zeros(d, s)))
    || (exists f, s :: IsMade(code, v, Splat(f, d, s)))
  }

  /** Ops that copy their operand. */
  ghost predicate IsCopy(code: Code, op: Op) {
    match op
    case Cast(x, d) => HasDType(code, x, d)
    case Broadcast(_, s) => s == [Dim.Known(1)]
    case Reshape(_, s) => s == [Dim.Known(1)]
    case Select(_, a, b) => a == b
    case _ => false
  }

  /** No copy with a result is left. */
  lemma CopiesGone(code: Code, i: nat)
    requires Ssa(code) && i < |CopyProp.Fixpoint(code)| && CopyProp.Fixpoint(code)[i].res.Some?
    ensures !IsCopy(CopyProp.Fixpoint(code), CopyProp.Fixpoint(code)[i].op)
  {
    var end := CopyProp.Fixpoint(code);
    CopyKeepsUnique(code);
    hide CopyProp.Fixpoint, IsCopy;
    if IsCopy(end, end[i].op) {
      CopyIsFound(end, end[i].op);
      CopyListed(end, |end|, i);
    }
  }

  lemma {:induction false} CopyKeepsUnique(code: Code)
    requires Ssa(code)
    ensures UniqueResults(CopyProp.Fixpoint(code))
    decreases |code|
  {
    if CopyProp.AllCopies(code) != map[] {
      CopyProp.CopyShrinks(code);
      CopyProp.CopyKeepsSsa(code);
      CopyKeepsUnique(CopyProp.CopyOnce(code));
    }
  }

  lemma CopyIsFound(code: Code, op: Op)
    requires UniqueResults(code) && IsCopy(code, op)
    ensures CopyProp.IsIdentity(code, op).Some?
  {
    if op.Cast? { DTypeFound(code, op.arg, op.dtype); }
  }

  /** Nothing else is taken for a copy. */
  lemma OnlyCopies(code: Code, op: Op)
    requires CopyProp.IsIdentity(code, op).Some?
    ensures IsCopy(code, op)
  {
    if op.Cast? { InferredSays(code, op.arg, op.dtype); }
  }

  lemma {:induction false} InferredSays(code: Code, v: ValueId, d: DType)
    requires CopyProp.InferDType(code, v) == Some(d)
    ensures HasDType(code, v, d)
  {
    var op := InferredFrom(code, v, d);
    match op
    case Cast(x, _) => assert IsMade(code, v, Cast(x, d));
    case Zeros(_, sh) => assert IsMade(code, v, Zeros(d, sh));
    case Splat(f, _, sh) => assert IsMade(code, v, Splat(f, d, sh));
  }

  lemma {:induction false} InferredFrom(code: Code, v: ValueId, d: DType) returns (op: Op)
    requires CopyProp.InferDType(code, v) == Some(d)
    ensures IsMade(code, v, op) && SaysDType(op, d)
  {
    if code[0].res != Some(v) {
      op := InferredFrom(code[1..], v, d);
      var p :| 0 <= p < |code[1..]| && code[1..][p] == Instr(op, Some(v));
      assert code[p + 1] == Instr(op, Some(v));
    } else {
      op := code[0].op;
      assert code[0] == Instr(op, Some(v));
    }
  }

  /** Whatever is no copy survives a round, on operands that may have been renamed. */
  lemma NonCopiesStay(code: Code, i: nat) returns (p: nat, m: map<ValueId, ValueId>)
    requires UniqueResults(code) && i < |code| && !IsCopy(code, code[i].op)
    ensures p < |CopyProp.CopyOnce(code)| && CopyProp.CopyOnce(code)[p] == Instr(Subst(code[i].op, m), code[i].res)
  {
    hide IsCopy, CopyProp.IsIdentity;
    var copies := CopyProp.AllCopies(code);
    if IsDead(code[i].res, copies.Keys) {
      var j := CopyProp.CopyOrigin(code, |code|, code[i].res.value);
      OnlyCopies(code, code[j].op);
    }
    m := Resolved(copies);
    p := SurvivorStays(code, OpsOf(code), m, copies.Keys, i);
    RewriteAt(code, OpsOf(code), m, copies.Keys, p);
  }

  lemma DTypeFound(code: Code, v: ValueId, d: DType)
    requires UniqueResults(code) && HasDType(code, v, d)
    ensures CopyProp.InferDType(code, v) == Some(d)
  {
    var op :| IsMade(code, v, op) && SaysDType(op, d);
    MakerInfers(code, v, op, d);
  }

  predicate SaysDType(op: Op, d: DType) { (op.Cast? || op.Zeros? || op.Splat?) && op.dtype == d }

  lemma {:induction false} MakerInfers(code: Code, v: ValueId, op: Op, d: DType)
    requires UniqueResults(code) && IsMade(code, v, op) && SaysDType(op, d)
    ensures CopyProp.InferDType(code, v) == Some(d)
  {
    var p :| 0 <= p < |code| && code[p] == Instr(op, Some(v));
    if p > 0 {
      assert code[0].res != Some(v);
      assert code[1..][p - 1] == code[p];
      MakerInfers(code[1..], v, op, d);
    }
  }

  lemma {:induction false} CopyListed(code: Code, n: nat, i: nat)
    requires i < n <= |code| && code[i].res.Some? && CopyProp.IsIdentity(code, code[i].op).Some?
    ensures code[i].res.value in CopyProp.Copies(code, n)
  {
    hide CopyProp.IsIdentity;
    if i < n - 1 { CopyListed(code, n - 1, i); }
  }
}
