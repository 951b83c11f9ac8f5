/**
 Constant folding: literal arithmetic, identities, and the removal of results of
 nested blocks that nothing uses.
 */
module ConstFold {
  import opened Ir
  import opened Semantics
  import opened RewritePlan
  import opened Blocks
  import opened LocalRewrite
  import opened Int64

  /** `Panics`: the overflow check of 64-bit division or of a shift amount. */
  datatype Folding = Folded(value: int) | Unfolded | Panics

  function EvalBinop(k: BinOpKind, a: int, b: int): Folding {
    match k
    case Add => Folded(Wrap(a + b))
    case Sub => Folded(Wrap(a - b))
    case Mul => Folded(Wrap(a * b))
    case Div => if b == 0 then Unfolded else if a == -HALF && b == -1 then Panics else Folded(TruncDiv(a, b))
    case Max => Folded(if a < b then b else a)
    case Min => Folded(if a < b then a else b)
    case And => Folded(Truth(a != 0 && b != 0))
    case Or => Folded(Truth(a != 0 || b != 0))
    case Xor => Folded(XorBits(a, b))
    case CmpLt => Folded(Truth(a < b))
    case CmpGt => Folded(Truth(a > b))
    case CmpLe => Folded(Truth(a <= b))
    case CmpGe => Folded(Truth(a >= b))
    case CmpEq => Folded(Truth(a == b))
    case CmpNe => Folded(Truth(a != b))
    case Pow => Unfolded
    case Shl => if 0 <= b < 64 then Folded(Wrap(a * Pow2(b))) else Panics
    case Shr => if 0 <= b < 64 then Folded(ShiftRight(a, b)) else Panics
    case BitAnd => Folded(AndBits(a, b))
    case BitOr => Folded(OrBits(a, b))
    case BitXor => Folded(XorBits(a, b))
    case ATan2 => Unfolded
    case Rem => Unfolded
    case Mod => Unfolded
  }

  function EvalUnary(k: UnaryOpKind, a: int): Option<int> {
    match k
    case Neg => Some(Wrap(-a))
    case Abs => Some(Wrap(Magnitude(a)))
    case Sign => Some(Sgn(a))
    case Trunc => Some(a)
    case Floor => Some(a)
    case Ceil => Some(a)
    case Round => Some(a)
    case _ => None
  }

  // ----- folding against what the emitted code computes -----

  /** Bitwise and logical exclusive or agree on these operands. */
  predicate XorAgrees(a: int, b: int) {
    a == b || (a == 0 && b == 1) || (a == 1 && b == 0)
  }

  lemma XorFoldsIff(a: int, b: int)
    requires InRange(a) && InRange(b)
    ensures XorBits(a, b) == Truth((a != 0) != (b != 0)) <==> XorAgrees(a, b)
  {
    var ua, ub := Unsigned(a), Unsigned(b);
    Pow2Of64();
    BitXorBelow(ua, ub, 64);
    BitXorEqual(ua, ub);
    BitXorZero(Unsigned(a));
    BitXorZero(Unsigned(b));
    SignedUnsigned(a);
    SignedUnsigned(b);
  }

  /** Folding gives the value the emitted operator computes, for every kind and all
      operands - for `Xor` exactly when the operands are equal or 0 and 1 - and
      panics only where the operator is undefined. */
  lemma FoldMatchesMachine(rest: (BinOpKind, Val, Val) -> Option<Val>, k: BinOpKind, a: int, b: int)
    requires InRange(a) && InRange(b)
    ensures EvalBinop(k, a, b).Folded? ==>
              (MachineBin(rest, k, a, b) == Some(EvalBinop(k, a, b).value) <==> (k == Xor ==> XorAgrees(a, b)))
    ensures EvalBinop(k, a, b).Panics? ==> MachineBin(rest, k, a, b).None?
  {
    if k == Xor { XorFoldsIff(a, b); }
  }

  // ----- one block -----

  datatype FoldStep = Stay | ToConst(literal: int) | ToId(id: ValueId) | Crash

  function FoldIdentity(k: BinOpKind, l: ValueId, r: ValueId, lv: Option<int>, rv: Option<int>): FoldStep {
    match k
    case Add => if lv == Some(0) then ToId(r) else if rv == Some(0) then ToId(l) else Stay
    case Sub => if rv == Some(0) then ToId(l) else Stay
    case Mul =>
      if lv == Some(0) || rv == Some(0) then ToConst(0)
      else if lv == Some(1) then ToId(r) else if rv == Some(1) then ToId(l) else Stay
    case _ => Stay
  }

  function FoldOp(code: Code, op: Op): FoldStep {
    match op
    case BinOp(k, l, r) =>
      var lv, rv := FindConst(code, l), FindConst(code, r);
      var f := if lv.Some? && rv.Some? then EvalBinop(k, lv.value, rv.value) else Unfolded;
      if f.Panics? then Crash else if f.Folded? then ToConst(f.value) else FoldIdentity(k, l, r, lv, rv)
    case UnaryOp(k, x) =>
      var v := FindConst(code, x);
      if v.Some? && EvalUnary(k, v.value).Some? then ToConst(EvalUnary(k, v.value).value) else Stay
    case _ => Stay
  }

  predicate Crashes(code: Code) {
    exists i :: 0 <= i < |code| && FoldOp(code, code[i].op).Crash?
  }

  function Overwritten(code: Code, op: Op): Op {
    if FoldOp(code, op).ToConst? then ConstOp(FoldOp(code, op).literal) else op
  }

  /** The redirects `old -> new` found among the first n instructions, in order. */
  function Redirected(code: Code, n: nat): seq<(ValueId, ValueId)>
    requires n <= |code|
  {
    if n == 0 then []
    else if FoldOp(code, code[n - 1].op).ToId? && code[n - 1].res.Some? then
      Redirected(code, n - 1) + [(code[n - 1].res.value, FoldOp(code, code[n - 1].op).id)]
    else Redirected(code, n - 1)
  }

  /** The redirects applied one after another, each to what the ones before left. */
  function SubstEach(op: Op, reps: seq<(ValueId, ValueId)>): Op
    decreases |reps|
  {
    if reps == [] then op else SubstEach(Subst(op, map[reps[0].0 := reps[0].1]), reps[1..])
  }

  function FoldBlock(code: Code): Code {
    seq(|code|, i requires 0 <= i < |code| =>
      Instr(SubstEach(Overwritten(code, code[i].op), Redirected(code, |code|)), code[i].res))
  }

  // ----- successive redirects as one substitution -----

  function Follow(reps: seq<(ValueId, ValueId)>, v: ValueId): ValueId {
    if reps == [] then v else Follow(reps[1..], To(map[reps[0].0 := reps[0].1], v))
  }

  function Composed(reps: seq<(ValueId, ValueId)>): map<ValueId, ValueId> {
    map v | v in (set p | p in reps :: p.0) :: Follow(reps, v)
  }

  lemma SubstTwice(op: Op, m: map<ValueId, ValueId>, m': map<ValueId, ValueId>, both: map<ValueId, ValueId>)
    requires forall v :: To(both, v) == To(m', To(m, v))
    ensures Subst(Subst(op, m), m') == Subst(op, both)
  {
    if op.Load? || op.Store? {
      hide SubstIndices;
      SubstIndicesTwice(op.indices, m, m', both);
    } else if op.Pure? || op.Fetch? || op.Effect? {
      hide SubstArgs;
      SubstArgsTwice(op.args, m, m', both);
    } else {
      SubstScalarTwice(op, m, m', both);
    }
  }

  lemma SubstScalarTwice(op: Op, m: map<ValueId, ValueId>, m': map<ValueId, ValueId>, both: map<ValueId, ValueId>)
    requires !op.Load? && !op.Store? && !op.Pure? && !op.Fetch? && !op.Effect?
    requires forall v :: To(both, v) == To(m', To(m, v))
    ensures Subst(Subst(op, m), m') == Subst(op, both)
  {
  }

  lemma SubstIndicesTwice(indices: seq<IndexExpr>, m: map<ValueId, ValueId>, m': map<ValueId, ValueId>, both: map<ValueId, ValueId>)
    requires forall v :: To(both, v) == To(m', To(m, v))
    ensures SubstIndices(SubstIndices(indices, m), m') == SubstIndices(indices, both)
  {
  }

  lemma SubstArgsTwice(args: seq<ValueId>, m: map<ValueId, ValueId>, m': map<ValueId, ValueId>, both: map<ValueId, ValueId>)
    requires forall v :: To(both, v) == To(m', To(m, v))
    ensures SubstArgs(SubstArgs(args, m), m') == SubstArgs(args, both)
  {
  }

  lemma {:induction false} FollowComposed(reps: seq<(ValueId, ValueId)>, v: ValueId)
    ensures To(Composed(reps), v) == Follow(reps, v)
  {
    if forall p :: p in reps ==> p.0 != v { FollowElsewhere(reps, v); }
  }

  lemma {:induction false} FollowElsewhere(reps: seq<(ValueId, ValueId)>, v: ValueId)
    requires forall p :: p in reps ==> p.0 != v
    ensures Follow(reps, v) == v
  {
    if reps != [] {
      assert reps[0] in reps;
      FollowElsewhere(reps[1..], v);
    }
  }

  lemma {:induction false} SubstEachIsSubst(op: Op, reps: seq<(ValueId, ValueId)>)
    ensures SubstEach(op, reps) == Subst(op, Composed(reps))
    decreases |reps|
  {
    if reps == [] {
      SubstNothing(op);
      assert Composed(reps) == map[];
    } else {
      var first := map[reps[0].0 := reps[0].1];
      SubstEachIsSubst(Subst(op, first), reps[1..]);
      forall v ensures To(Composed(reps), v) == To(Composed(reps[1..]), To(first, v)) {
        FollowComposed(reps, v);
        FollowComposed(reps[1..], To(first, v));
      }
      SubstTwice(op, first, Composed(reps[1..]), Composed(reps));
    }
  }

  // ----- soundness -----

  /** What the folds and identities rely on. */
  ghost predicate Laws(I: Interp) {
    && (forall k, a, b :: EvalBinop(k, a, b).Folded? && (k == Xor ==> XorAgrees(a, b)) ==>
          IfDefined(I.bin(k, a, b), EvalBinop(k, a, b).value))
    && (forall k, a :: EvalUnary(k, a).Some? && InRange(a) ==> I.un(k, a) == EvalUnary(k, a).value)
    && (forall a :: IfDefined(I.bin(Add, 0, a), a) && IfDefined(I.bin(Add, a, 0), a) && IfDefined(I.bin(Sub, a, 0), a))
    && (forall a :: IfDefined(I.bin(Mul, 0, a), 0) && IfDefined(I.bin(Mul, a, 0), 0))
    && (forall a :: IfDefined(I.bin(Mul, 1, a), a) && IfDefined(I.bin(Mul, a, 1), a))
  }

  /** Literals are 64-bit, and a folded `Xor` has operands on which the bitwise fold and
      the logical operator agree. */
  predicate FoldableOp(code: Code, op: Op) {
    && (op.ConstOp? ==> InRange(op.literal))
    && (op.BinOp? && op.bin == Xor && FindConst(code, op.lhs).Some? && FindConst(code, op.rhs).Some? ==>
          XorAgrees(FindConst(code, op.lhs).value, FindConst(code, op.rhs).value))
  }

  predicate Foldable(code: Code) {
    forall i :: 0 <= i < |code| ==> FoldableOp(code, code[i].op)
  }

  lemma ConstInRange(code: Code, v: ValueId)
    requires Foldable(code) && FindConst(code, v).Some?
    ensures InRange(FindConst(code, v).value)
  {
    ConstAt(code, v);
    var i :| 0 <= i < |code| && code[i] == Instr(ConstOp(FindConst(code, v).value), Some(v));
    assert FoldableOp(code, code[i].op);
  }

  lemma IdentityLaws(I: Interp, a: Val)
    requires Laws(I)
    ensures IfDefined(I.bin(Add, 0, a), a) && IfDefined(I.bin(Add, a, 0), a) && IfDefined(I.bin(Sub, a, 0), a)
    ensures IfDefined(I.bin(Mul, 0, a), 0) && IfDefined(I.bin(Mul, a, 0), 0)
    ensures IfDefined(I.bin(Mul, 1, a), a) && IfDefined(I.bin(Mul, a, 1), a)
  {
  }

  lemma FoldLaw(I: Interp, k: BinOpKind, a: Val, b: Val)
    requires Laws(I) && EvalBinop(k, a, b).Folded? && (k == Xor ==> XorAgrees(a, b))
    ensures IfDefined(I.bin(k, a, b), EvalBinop(k, a, b).value)
  {
  }

  lemma UnaryLaw(I: Interp, k: UnaryOpKind, a: Val)
    requires Laws(I) && EvalUnary(k, a).Some? && InRange(a)
    ensures I.un(k, a) == EvalUnary(k, a).value
  {
  }

  ghost predicate KeepsValue(s: FoldStep, v: Val, env: Env) {
    match s
    case ToConst(n) => n == v
    case ToId(x) => x in env && env[x] == v
    case _ => true
  }

  lemma FoldKeepsValue(c: Setting, w: Where, op: Op, v: Val, env: Env)
    requires Facts(c, env) && Laws(c.I) && Foldable(CodeAt(c.k, w)) && FoldableOp(CodeAt(c.k, w), op)
    requires IsValueOp(op) && Uses(op) <= env.Keys && Eval(c.I, op, env, c.mem) == Some(v)
    ensures KeepsValue(FoldOp(CodeAt(c.k, w), op), v, env)
  {
    hide Facts, Laws, Foldable, FindConst, EvalBinop, EvalUnary;
    var code := CodeAt(c.k, w);
    match op
    case BinOp(k, l, r) =>
      var lv, rv := FindConst(code, l), FindConst(code, r);
      if lv.Some? { ConstHolds(c, w, l, env); }
      if rv.Some? { ConstHolds(c, w, r, env); }
      if lv.Some? && rv.Some? && EvalBinop(k, lv.value, rv.value).Folded? { FoldLaw(c.I, k, lv.value, rv.value); }
      IdentityLaws(c.I, env[l]);
      IdentityLaws(c.I, env[r]);
    case UnaryOp(k, x) =>
      var xv := FindConst(code, x);
      if xv.Some? && EvalUnary(k, xv.value).Some? {
        ConstHolds(c, w, x, env);
        ConstInRange(code, x);
        UnaryLaw(c.I, k, xv.value);
      }
    case _ =>
  }

  lemma {:induction false} RedirectedOrigin(code: Code, n: nat, p: (ValueId, ValueId)) returns (i: nat)
    requires n <= |code| && p in Redirected(code, n)
    ensures i < n && code[i].res == Some(p.0) && FoldOp(code, code[i].op) == ToId(p.1)
  {
    if FoldOp(code, code[n - 1].op) == ToId(p.1) && code[n - 1].res == Some(p.0) {
      i := n - 1;
    } else {
      i := RedirectedOrigin(code, n - 1, p);
    }
  }

  lemma PairRedirects(c: Setting, w: Where, p: (ValueId, ValueId))
    requires Laws(c.I) && Foldable(CodeAt(c.k, w)) && p in Redirected(CodeAt(c.k, w), |CodeAt(c.k, w)|)
    ensures Redirects(c, p.0, p.1)
  {
    hide Laws;
    var code := CodeAt(c.k, w);
    var i := RedirectedOrigin(code, |code|, p);
    assert FoldableOp(code, code[i].op);
    hide Foldable;
    forall env | Facts(c, env) && p.0 in env ensures p.1 in env && env[p.1] == env[p.0] {
      assert DefinedAt(c.k, w, i, p.0);
      assert Equation(c, code[i].op, p.0, env);
      FoldKeepsValue(c, w, code[i].op, env[p.0], env);
    }
  }

  lemma {:induction false} FollowRedirects(c: Setting, reps: seq<(ValueId, ValueId)>, v: ValueId, u: ValueId)
    requires forall p :: p in reps ==> Redirects(c, p.0, p.1)
    requires Redirects(c, v, u)
    ensures Redirects(c, v, Follow(reps, u))
  {
    if reps != [] {
      assert reps[0] in reps;
      var u' := To(map[reps[0].0 := reps[0].1], u);
      assert Redirects(c, v, u') by {
        if u == reps[0].0 { assert Redirects(c, u, reps[0].1); }
      }
      FollowRedirects(c, reps[1..], v, u');
    }
  }

  // ----- the fold of one block of a kernel -----

  function FoldPlan(k: KernelValue, w: Where): Plan {
    var code := CodeAt(k, w);
    var here := BlockPlan(seq(|code|, i requires 0 <= i < |code| => Overwritten(code, code[i].op)),
                          Composed(Redirected(code, |code|)));
    Plan({}, if w.None? then here else BlockPlan(OpsOf(k.body), map[]),
         map b | b in k.blocks :: if Some(b) == w then here else BlockPlan(OpsOf(k.blocks[b]), map[]))
  }

  lemma FoldSound(c: Setting, w: Where)
    requires HasBlock(c.k, w) && Laws(c.I) && Foldable(CodeAt(c.k, w))
    ensures Sound(c, FoldPlan(c.k, w))
  {
    hide Laws, Foldable, Redirects, Replaces;
    var p := FoldPlan(c.k, w);
    var code := CodeAt(c.k, w);
    var reps := Redirected(code, |code|);
    forall v | v in Composed(reps) ensures Redirects(c, v, Composed(reps)[v]) {
      forall q | q in reps ensures Redirects(c, q.0, q.1) { PairRedirects(c, w, q); }
      RedirectsSelf(c, v);
      FollowRedirects(c, reps, v, v);
    }
    forall u ensures BlockSound(c, p, u) {
      forall i | 0 <= i < |CodeAt(c.k, u)|
        ensures InstrSound(c, p, CodeAt(c.k, u)[i], PlanAt(p, u).ops[i], PlanAt(p, u).rho)
      {
        if u == w { OverwriteSound(c, w, i); }
      }
    }
  }

  lemma RedirectsSelf(c: Setting, v: ValueId)
    ensures Redirects(c, v, v)
  {
  }

  lemma OverwriteSound(c: Setting, w: Where, i: nat)
    requires Laws(c.I) && Foldable(CodeAt(c.k, w)) && i < |CodeAt(c.k, w)|
    ensures var op := CodeAt(c.k, w)[i].op;
            var alt := Overwritten(CodeAt(c.k, w), op);
            alt == op || (Stable(op, c.ro) && Stable(alt, c.ro) && Replaces(c, op, alt))
  {
    hide Laws;
    var code := CodeAt(c.k, w);
    var op, alt := code[i].op, Overwritten(code, code[i].op);
    assert FoldableOp(code, op);
    hide Foldable;
    if alt != op {
      forall env | Facts(c, env) && Uses(op) <= env.Keys && Eval(c.I, op, env, c.mem).Some?
        ensures Uses(alt) <= env.Keys && Eval(c.I, alt, env, c.mem) == Eval(c.I, op, env, c.mem)
      {
        FoldKeepsValue(c, w, op, Eval(c.I, op, env, c.mem).value, env);
      }
    }
  }

  /** The plan is the fold of the block, with the other blocks untouched. */
  lemma FoldApply(k: KernelValue, w: Where)
    requires HasBlock(k, w)
    ensures Fits(k, FoldPlan(k, w))
    ensures Apply(k, FoldPlan(k, w)) == PutBlock(k, w, FoldBlock(CodeAt(k, w)))
  {
    hide FindConst, FoldOp;
    var p := FoldPlan(k, w);
    var k' := PutBlock(k, w, FoldBlock(CodeAt(k, w)));
    forall u: Where | HasBlock(k, u) ensures CodeAt(Apply(k, p), u) == CodeAt(k', u) {
      CodeIsRewrite(k, p, u);
      if u == w { FoldIsRewrite(CodeAt(k, w)); } else { RewriteNothing(CodeAt(k, u)); }
    }
    assert CodeAt(Apply(k, p), None) == CodeAt(k', None);
    forall b | b in k.blocks ensures Apply(k, p).blocks[b] == k'.blocks[b] {
      assert CodeAt(Apply(k, p), Some(b)) == CodeAt(k', Some(b));
    }
  }

  lemma FoldIsRewrite(code: Code)
    ensures Rewrite(code, seq(|code|, i requires 0 <= i < |code| => Overwritten(code, code[i].op)),
                    Composed(Redirected(code, |code|)), {}) == FoldBlock(code)
  {
    var ops := seq(|code|, i requires 0 <= i < |code| => Overwritten(code, code[i].op));
    var reps := Redirected(code, |code|);
    RewriteAll(code, ops, Composed(reps), {});
    forall i | 0 <= i < |code| ensures Instr(Subst(ops[i], Composed(reps)), code[i].res) == FoldBlock(code)[i] {
      SubstEachIsSubst(ops[i], reps);
    }
  }

  /** Folding one block preserves every run of the kernel that does not get stuck, with the
      value of every id. */
  lemma FoldPreserves(c: Setting, w: Where, fuel: nat)
    requires Disciplined(c) && HasBlock(c.k, w) && Laws(c.I) && Foldable(CodeAt(c.k, w))
    requires !Fails(RunKernel(c.I, c.k, State(c.mem, []), fuel))
    ensures RunKernel(c.I, PutBlock(c.k, w, FoldBlock(CodeAt(c.k, w))), State(c.mem, []), fuel)
            == RunKernel(c.I, c.k, State(c.mem, []), fuel)
  {
    FoldSound(c, w);
    FoldApply(c.k, w);
    PlanPreserves(c, FoldPlan(c.k, w), fuel);
    HideNothing(RunKernel(c.I, c.k, State(c.mem, []), fuel));
  }

  lemma HideNothing(o: Outcome)
    ensures Hide(o, {}) == o
  {
    if o.Done? { assert o.env - {} == o.env; }
  }
}
