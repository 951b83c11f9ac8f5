/**
 Algebraic simplification of one block: every rewrite of a round is found in the old
 block, all are applied at once, and rounds repeat until nothing changes.
 */
module AlgebraicSimplify {
  import opened Ir
  import opened Semantics
  import opened RewritePlan
  import opened Blocks
  import opened LocalRewrite

  datatype Simp = Keep | ToConst(literal: int) | ToOp(op: Op) | ToId(id: ValueId)

  function DefiningOp(code: Code, v: ValueId): Option<Op> {
    if Rank(code, v) == 0 then None else Some(code[Rank(code, v) - 1].op)
  }

  function NegArg(code: Code, v: ValueId): Option<ValueId> {
    match DefiningOp(code, v)
    case Some(UnaryOp(Neg, x)) => Some(x)
    case _ => None
  }

  /** The condition that `v` negates: `CmpEq(x, 0)` or `Xor(x, 1)`, either way round. */
  function NotArg(code: Code, v: ValueId): Option<ValueId> {
    match DefiningOp(code, v)
    case Some(BinOp(CmpEq, l, r)) =>
      if FindConst(code, r) == Some(0) then Some(l) else if FindConst(code, l) == Some(0) then Some(r) else None
    case Some(BinOp(Xor, l, r)) =>
      if FindConst(code, r) == Some(1) then Some(l) else if FindConst(code, l) == Some(1) then Some(r) else None
    case _ => None
  }

  function SimplifyBinop(code: Code, k: BinOpKind, l: ValueId, r: ValueId): Simp {
    match k
    case Sub => if l == r then ToConst(0) else if FindConst(code, l) == Some(0) then ToOp(UnaryOp(Neg, r)) else Keep
    case Div => if l == r then ToConst(1) else if FindConst(code, r) == Some(1) then ToId(l) else Keep
    case Mul =>
      var x, y := NegArg(code, l), NegArg(code, r);
      if x.Some? && y.Some? then ToOp(BinOp(Mul, x.value, y.value)) else Keep
    case Min => if l == r then ToId(l) else Keep
    case Max => if l == r then ToId(l) else Keep
    case CmpLt => ToOp(BinOp(CmpGt, r, l))
    case CmpLe => ToOp(BinOp(CmpGe, r, l))
    case CmpEq => if l == r then ToConst(1) else Keep
    case CmpNe => if l == r then ToConst(0) else Keep
    case _ => Keep
  }

  function SimplifySelect(code: Code, c: ValueId, a: ValueId, b: ValueId): Simp {
    if FindConst(code, c) == Some(1) then ToId(a)
    else if FindConst(code, c) == Some(0) then ToId(b)
    else if a == b then ToId(a)
    else if NotArg(code, c).Some? then ToOp(Select(NotArg(code, c).value, b, a))
    else Keep
  }

  predicate IsScalarShape(s: Shape) { s == [Dim.Known(1)] }

  function TrySimplify(code: Code, op: Op): Simp {
    match op
    case BinOp(k, l, r) => SimplifyBinop(code, k, l, r)
    case Select(c, a, b) => SimplifySelect(code, c, a, b)
    case Broadcast(x, s) =>
      if IsScalarShape(s) then Keep else
      var d := DefiningOp(code, x);
      if d.Some? && d.value.Broadcast? then ToOp(d.value) else Keep
    case Transpose(x) =>
      var d := DefiningOp(code, x);
      if d.Some? && d.value.Transpose? then ToId(d.value.arg) else Keep
    case Reshape(x, _) =>
      var d := DefiningOp(code, x);
      if d.Some? && d.value.Reshape? then ToId(d.value.arg) else Keep
    case ExpandDims(x, _) =>
      var d := DefiningOp(code, x);
      if d.Some? && d.value.Reshape? then ToId(d.value.arg) else Keep
    case _ => Keep
  }

  // ----- one round -----

  function NewOp(code: Code, op: Op): Op {
    match TrySimplify(code, op)
    case ToConst(n) => ConstOp(n)
    case ToOp(o) => o
    case _ => op
  }

  function NewOps(code: Code): seq<Op> {
    seq(|code|, i requires 0 <= i < |code| => NewOp(code, code[i].op))
  }

  /** The redirects found among the first n instructions. */
  function Found(code: Code, n: nat): map<ValueId, ValueId>
    requires n <= |code|
  {
    if n == 0 then map[]
    else if TrySimplify(code, code[n - 1].op).ToId? && code[n - 1].res.Some? then
      Found(code, n - 1)[code[n - 1].res.value := TrySimplify(code, code[n - 1].op).id]
    else Found(code, n - 1)
  }

  predicate AnyUsed(code: Code, m: map<ValueId, ValueId>) {
    exists i :: 0 <= i < |code| && Uses(code[i].op) * m.Keys != {}
  }

  /** Redirects nobody would notice are forgotten. */
  function Pruned(code: Code): map<ValueId, ValueId> {
    var m := Found(code, |code|);
    if AnyUsed(code, m) then m else map[]
  }

  predicate Changes(code: Code) {
    || Pruned(code) != map[]
    || exists i :: 0 <= i < |code| && (TrySimplify(code, code[i].op).ToConst? || TrySimplify(code, code[i].op).ToOp?)
  }

  function SimplifyOnce(code: Code): Code {
    if Changes(code) then Rewrite(code, NewOps(code), Resolved(Pruned(code)), Pruned(code).Keys) else code
  }

  lemma {:induction false} FoundOrigin(code: Code, n: nat, v: ValueId) returns (i: nat)
    requires n <= |code| && v in Found(code, n)
    ensures i < n && code[i].res == Some(v) && TrySimplify(code, code[i].op) == ToId(Found(code, n)[v])
  {
    if TrySimplify(code, code[n - 1].op).ToId? && code[n - 1].res == Some(v) {
      i := n - 1;
    } else {
      i := FoundOrigin(code, n - 1, v);
    }
  }

  // ----- what the rewrites point at lies earlier -----

  /** What an operand's definition mentions comes before the operand. */
  lemma InnerRank(code: Code, v: ValueId, x: ValueId)
    requires Ordered(code) && DefiningOp(code, v).Some? && x in Uses(DefiningOp(code, v).value)
    ensures Rank(code, x) < Rank(code, v)
  {
  }

  lemma NegRank(code: Code, v: ValueId)
    requires Ordered(code) && NegArg(code, v).Some?
    ensures Rank(code, NegArg(code, v).value) < Rank(code, v)
  {
    InnerRank(code, v, NegArg(code, v).value);
  }

  lemma NotRank(code: Code, v: ValueId)
    requires Ordered(code) && NotArg(code, v).Some?
    ensures Rank(code, NotArg(code, v).value) < Rank(code, v)
  {
    InnerRank(code, v, NotArg(code, v).value);
  }

  ghost predicate Early(code: Code, s: Simp, n: nat) {
    match s
    case ToOp(o) => forall u :: u in Uses(o) ==> Rank(code, u) <= n
    case ToId(v) => Rank(code, v) <= n
    case _ => true
  }

  lemma BinopEarly(code: Code, k: BinOpKind, l: ValueId, r: ValueId, n: nat)
    requires Ordered(code) && Rank(code, l) <= n && Rank(code, r) <= n
    ensures Early(code, SimplifyBinop(code, k, l, r), n)
  {
    if NegArg(code, l).Some? { NegRank(code, l); }
    if NegArg(code, r).Some? { NegRank(code, r); }
    hide Ordered, NegArg, FindConst, Rank;
  }

  lemma SelectEarly(code: Code, c: ValueId, a: ValueId, b: ValueId, n: nat)
    requires Ordered(code) && Rank(code, c) <= n && Rank(code, a) <= n && Rank(code, b) <= n
    ensures Early(code, SimplifySelect(code, c, a, b), n)
  {
    if NotArg(code, c).Some? { NotRank(code, c); }
    hide Ordered, NotArg, FindConst, Rank;
  }

  /** Every rewrite of an op uses ids at most as late as the op's own operands. */
  lemma SimplifiedEarly(code: Code, i: nat)
    requires Ordered(code) && i < |code|
    ensures Early(code, TrySimplify(code, code[i].op), i)
  {
    var op := code[i].op;
    forall u | u in Uses(op) ensures Rank(code, u) <= i {}
    hide Rank, SimplifyBinop, SimplifySelect;
    match op
    case BinOp(k, l, r) => BinopEarly(code, k, l, r, i);
    case Select(c, a, b) => SelectEarly(code, c, a, b, i);
    case Broadcast(x, _) => OperandRanks(code, x);
    case Transpose(x) => OperandRanks(code, x);
    case Reshape(x, _) => OperandRanks(code, x);
    case ExpandDims(x, _) => OperandRanks(code, x);
    case _ =>
  }

  lemma OperandRanks(code: Code, x: ValueId)
    requires Ordered(code)
    ensures DefiningOp(code, x).Some? ==> forall u :: u in Uses(DefiningOp(code, x).value) ==> Rank(code, u) < Rank(code, x)
  {
  }

  lemma FoundDescends(code: Code)
    requires Ssa(code)
    ensures Descends(code, Found(code, |code|))
  {
    var m := Found(code, |code|);
    forall v | v in m ensures Rank(code, m[v]) < Rank(code, v) {
      var i := FoundOrigin(code, |code|, v);
      SimplifiedEarly(code, i);
      RankOf(code, i);
    }
  }

  lemma RoundKeepsSsa(code: Code)
    requires Ssa(code)
    ensures Ssa(SimplifyOnce(code))
  {
    FoundDescends(code);
    forall i, u | 0 <= i < |code| && u in Uses(NewOps(code)[i]) ensures Rank(code, u) <= i {
      SimplifiedEarly(code, i);
    }
    LocalKeepsSsa(code, NewOps(code), Pruned(code));
  }

  // ----- meaning -----

  /** The identities the patterns rely on, and nothing else. */
  ghost predicate Laws(I: Interp) {
    && (forall a :: IfDefined(I.bin(Sub, a, a), 0))
    && (forall a :: IfDefined(I.bin(Sub, 0, a), I.un(Neg, a)))
    && (forall a :: IfDefined(I.bin(Div, a, a), 1))
    && (forall a :: IfDefined(I.bin(Div, a, 1), a))
    && (forall a, b :: I.bin(Mul, I.un(Neg, a), I.un(Neg, b)) == I.bin(Mul, a, b))
    && (forall a :: IfDefined(I.bin(Min, a, a), a) && IfDefined(I.bin(Max, a, a), a))
    && (forall a, b :: I.bin(CmpLt, a, b) == I.bin(CmpGt, b, a) && I.bin(CmpLe, a, b) == I.bin(CmpGe, b, a))
    && (forall a :: IfDefined(I.bin(CmpEq, a, a), 1) && IfDefined(I.bin(CmpNe, a, a), 0))
    && I.truthy(1) && !I.truthy(0)
    && (forall c :: Negates(I, I.bin(CmpEq, c, 0), c) && Negates(I, I.bin(CmpEq, 0, c), c))
    && (forall c :: Negates(I, I.bin(Xor, c, 1), c) && Negates(I, I.bin(Xor, 1, c), c))
    && ShapeLaws(I)
  }

  ghost predicate Negates(I: Interp, o: Option<Val>, c: Val) {
    o.Some? ==> I.truthy(o.value) == !I.truthy(c)
  }

  /** Shape operations carry one value along, as they do in the emitted code. */
  ghost predicate ShapeLaws(I: Interp) {
    && (forall s, t, a :: I.broadcast(s, I.broadcast(t, a)) == I.broadcast(t, a))
    && (forall s, t, a :: I.reshape(s, I.reshape(t, a)) == a)
    && (forall n, t, a :: I.expandDims(n, I.reshape(t, a)) == a)
    && (forall a :: I.transpose(I.transpose(a)) == a)
  }

  /** An id of the block that is in scope satisfies the equation of its definition. */
  lemma DefinitionHolds(c: Setting, w: Where, v: ValueId, env: Env)
    requires Facts(c, env) && v in env
    requires DefiningOp(CodeAt(c.k, w), v).Some? && Stable(DefiningOp(CodeAt(c.k, w), v).value, c.ro)
    ensures var op := DefiningOp(CodeAt(c.k, w), v).value;
            Uses(op) <= env.Keys && Eval(c.I, op, env, c.mem) == Some(env[v])
  {
    var i := Rank(CodeAt(c.k, w), v) - 1;
    assert DefinedAt(c.k, w, i, v);
    assert Equation(c, CodeAt(c.k, w)[i].op, v, env);
  }

  lemma NegHolds(c: Setting, w: Where, v: ValueId, env: Env)
    requires Facts(c, env) && v in env && NegArg(CodeAt(c.k, w), v).Some?
    ensures var x := NegArg(CodeAt(c.k, w), v).value;
            x in env && env[v] == c.I.un(Neg, env[x])
  {
    DefinitionHolds(c, w, v, env);
  }

  lemma NotHolds(c: Setting, w: Where, v: ValueId, env: Env)
    requires Facts(c, env) && v in env && NotArg(CodeAt(c.k, w), v).Some? && Laws(c.I)
    ensures var x := NotArg(CodeAt(c.k, w), v).value;
            x in env && c.I.truthy(env[v]) == !c.I.truthy(env[x])
  {
    var code := CodeAt(c.k, w);
    DefinitionHolds(c, w, v, env);
    var BinOp(k, l, r) := DefiningOp(code, v).value;
    if FindConst(code, l).Some? { ConstHolds(c, w, l, env); }
    if FindConst(code, r).Some? { ConstHolds(c, w, r, env); }
    NotLaws(c.I, env[l]);
    NotLaws(c.I, env[r]);
  }

  lemma NotLaws(I: Interp, c: Val)
    requires Laws(I)
    ensures Negates(I, I.bin(CmpEq, c, 0), c) && Negates(I, I.bin(CmpEq, 0, c), c)
    ensures Negates(I, I.bin(Xor, c, 1), c) && Negates(I, I.bin(Xor, 1, c), c)
  {
  }

  lemma BinLaws(I: Interp, a: Val, b: Val)
    requires Laws(I)
    ensures IfDefined(I.bin(Sub, a, a), 0) && IfDefined(I.bin(Sub, 0, a), I.un(Neg, a))
    ensures IfDefined(I.bin(Div, a, a), 1) && IfDefined(I.bin(Div, a, 1), a)
    ensures I.bin(Mul, I.un(Neg, a), I.un(Neg, b)) == I.bin(Mul, a, b)
    ensures IfDefined(I.bin(Min, a, a), a) && IfDefined(I.bin(Max, a, a), a)
    ensures I.bin(CmpLt, a, b) == I.bin(CmpGt, b, a) && I.bin(CmpLe, a, b) == I.bin(CmpGe, b, a)
    ensures IfDefined(I.bin(CmpEq, a, a), 1) && IfDefined(I.bin(CmpNe, a, a), 0)
  {
  }

  /** A rewrite keeps the value v of the op it replaces. */
  ghost predicate KeepsValue(c: Setting, s: Simp, v: Val, env: Env) {
    match s
    case Keep => true
    case ToConst(n) => n == v
    case ToOp(o) => Stable(o, c.ro) && Uses(o) <= env.Keys && Eval(c.I, o, env, c.mem) == Some(v)
    case ToId(x) => x in env && env[x] == v
  }

  lemma BinopKeepsValue(c: Setting, w: Where, k: BinOpKind, l: ValueId, r: ValueId, v: Val, env: Env)
    requires Facts(c, env) && Laws(c.I) && l in env && r in env && c.I.bin(k, env[l], env[r]) == Some(v)
    ensures KeepsValue(c, SimplifyBinop(CodeAt(c.k, w), k, l, r), v, env)
  {
    hide Rank, FindConst, NegArg, Facts, Laws;
    var code := CodeAt(c.k, w);
    match k
    case Sub =>
      BinLaws(c.I, env[r], env[r]);
      if FindConst(code, l) == Some(0) { ConstHolds(c, w, l, env); }
    case Div =>
      BinLaws(c.I, env[l], env[l]);
      if FindConst(code, r) == Some(1) { ConstHolds(c, w, r, env); }
    case Mul =>
      var x, y := NegArg(code, l), NegArg(code, r);
      if x.Some? && y.Some? {
        NegHolds(c, w, l, env);
        NegHolds(c, w, r, env);
        BinLaws(c.I, env[x.value], env[y.value]);
      }
    case _ => BinLaws(c.I, env[l], env[r]);
  }

  lemma SelectKeepsValue(c: Setting, w: Where, cond: ValueId, a: ValueId, b: ValueId, env: Env)
    requires Facts(c, env) && Laws(c.I) && cond in env && a in env && b in env
    ensures KeepsValue(c, SimplifySelect(CodeAt(c.k, w), cond, a, b), if c.I.truthy(env[cond]) then env[a] else env[b], env)
  {
    var code := CodeAt(c.k, w);
    if FindConst(code, cond).Some? { ConstHolds(c, w, cond, env); }
    if NotArg(code, cond).Some? { NotHolds(c, w, cond, env); }
  }

  lemma ShapeKeepsValue(c: Setting, w: Where, op: Op, v: Val, env: Env)
    requires Facts(c, env) && ShapeLaws(c.I)
    requires op.Broadcast? || op.Transpose? || op.Reshape? || op.ExpandDims?
    requires op.arg in env && Eval(c.I, op, env, c.mem) == Some(v)
    ensures KeepsValue(c, TrySimplify(CodeAt(c.k, w), op), v, env)
  {
    hide Facts, ShapeLaws, Rank, SimplifyBinop, SimplifySelect, EvalIndices, Vals;
    var d := DefiningOp(CodeAt(c.k, w), op.arg);
    if d.Some? && (d.value.Broadcast? || d.value.Transpose? || d.value.Reshape?) {
      DefinitionHolds(c, w, op.arg, env);
      var x := d.value.arg;
      match op
      case Broadcast(_, s) => if d.value.Broadcast? { ShapeLawsAt(c.I, s, d.value.shape, 0, env[x]); }
      case Reshape(_, s) => if d.value.Reshape? { ShapeLawsAt(c.I, s, d.value.shape, 0, env[x]); }
      case ExpandDims(_, n) => if d.value.Reshape? { ShapeLawsAt(c.I, [], d.value.shape, n, env[x]); }
      case Transpose(_) => ShapeLawsAt(c.I, [], [], 0, env[x]);
    }
  }

  lemma ShapeLawsAt(I: Interp, s: Shape, t: Shape, n: nat, a: Val)
    requires ShapeLaws(I)
    ensures I.broadcast(s, I.broadcast(t, a)) == I.broadcast(t, a)
    ensures I.reshape(s, I.reshape(t, a)) == a
    ensures I.expandDims(n, I.reshape(t, a)) == a
    ensures I.transpose(I.transpose(a)) == a
  {
  }

  lemma SimplifiedKeepsValue(c: Setting, w: Where, op: Op, v: Val, env: Env)
    requires Facts(c, env) && Laws(c.I)
    requires IsValueOp(op) && Uses(op) <= env.Keys && Eval(c.I, op, env, c.mem) == Some(v)
    ensures KeepsValue(c, TrySimplify(CodeAt(c.k, w), op), v, env)
  {
    match op
    case BinOp(k, l, r) => BinopKeepsValue(c, w, k, l, r, v, env);
    case Select(cond, a, b) => SelectKeepsValue(c, w, cond, a, b, env);
    case Broadcast(_, _) => ShapeKeepsValue(c, w, op, v, env);
    case Transpose(_) => ShapeKeepsValue(c, w, op, v, env);
    case Reshape(_, _) => ShapeKeepsValue(c, w, op, v, env);
    case ExpandDims(_, _) => ShapeKeepsValue(c, w, op, v, env);
    case _ =>
  }

  lemma RoundIsSound(c: Setting, w: Where)
    requires UniqueDefs(c.k) && Ssa(CodeAt(c.k, w)) && Laws(c.I)
    ensures RoundSound(c, w, NewOps(CodeAt(c.k, w)), Pruned(CodeAt(c.k, w)))
  {
    hide Laws, UniqueDefs, Redirects, Replaces, TrySimplify, Ordered, AnyUsed;
    var code := CodeAt(c.k, w);
    var m := Pruned(code);
    forall v | v in m ensures Redirects(c, v, m[v]) {
      FoundRedirects(c, w, v);
    }
    forall i | 0 <= i < |code|
      ensures if IsDead(code[i].res, m.Keys) then IsValueOp(code[i].op)
              else NewOps(code)[i] == code[i].op
                   || (Stable(code[i].op, c.ro) && Stable(NewOps(code)[i], c.ro) && Replaces(c, code[i].op, NewOps(code)[i]))
    {
      if IsDead(code[i].res, m.Keys) {
        var j := FoundOrigin(code, |code|, code[i].res.value);
        assert i == j;
        OnlyValueOps(code, code[i].op);
      } else if NewOps(code)[i] != code[i].op {
        OpReplaced(c, w, i);
      }
    }
  }

  lemma OnlyValueOps(code: Code, op: Op)
    ensures !TrySimplify(code, op).Keep? ==> IsValueOp(op)
  {
  }

  lemma FoundRedirects(c: Setting, w: Where, v: ValueId)
    requires Laws(c.I) && v in Found(CodeAt(c.k, w), |CodeAt(c.k, w)|)
    ensures Redirects(c, v, Found(CodeAt(c.k, w), |CodeAt(c.k, w)|)[v])
  {
    hide Laws, TrySimplify;
    var code := CodeAt(c.k, w);
    var m := Found(code, |code|);
    var i := FoundOrigin(code, |code|, v);
    OnlyValueOps(code, code[i].op);
    OnlyStableOps(code, code[i].op);
    forall env | Facts(c, env) && v in env ensures m[v] in env && env[m[v]] == env[v] {
      assert DefinedAt(c.k, w, i, v);
      assert Equation(c, code[i].op, v, env);
      SimplifiedKeepsValue(c, w, code[i].op, env[v], env);
    }
  }

  lemma OnlyStableOps(code: Code, op: Op)
    ensures !TrySimplify(code, op).Keep? ==> !op.Load? && !op.VectorLoad?
  {
  }

  lemma OpReplaced(c: Setting, w: Where, i: nat)
    requires i < |CodeAt(c.k, w)| && Laws(c.I) && NewOps(CodeAt(c.k, w))[i] != CodeAt(c.k, w)[i].op
    ensures var code := CodeAt(c.k, w);
            Stable(code[i].op, c.ro) && Stable(NewOps(code)[i], c.ro) && Replaces(c, code[i].op, NewOps(code)[i])
  {
    var code := CodeAt(c.k, w);
    var op, op' := code[i].op, NewOps(code)[i];
    forall env | Facts(c, env) && Uses(op) <= env.Keys && Eval(c.I, op, env, c.mem).Some?
      ensures Uses(op') <= env.Keys && Eval(c.I, op', env, c.mem) == Eval(c.I, op, env, c.mem)
    {
      SimplifiedKeepsValue(c, w, op, Eval(c.I, op, env, c.mem).value, env);
    }
  }

  /** No op of the new block uses a deleted id. */
  lemma NoUseOfDeleted(code: Code, i: nat)
    requires Ssa(code) && Changes(code) && i < |SimplifyOnce(code)|
    ensures Uses(SimplifyOnce(code)[i].op) !! Pruned(code).Keys
  {
    FoundDescends(code);
    var m := Pruned(code);
    assert |NewOps(code)| == |code|;
    assert SimplifyOnce(code) == Rewrite(code, NewOps(code), Resolved(m), m.Keys);
    hide Ssa, Rewrite, NewOps, Changes, SimplifyOnce;
    RewriteAt(code, NewOps(code), Resolved(m), m.Keys, i);
    var o := Origin(code, m.Keys, i);
    UsesOfSubst(NewOps(code)[o], Resolved(m));
    forall u | u in Uses(SimplifyOnce(code)[i].op) ensures u !in m {
      var x :| x in Uses(NewOps(code)[o]) && To(Resolved(m), x) == u;
      if x in m { ResolvedDescends(code, m, x); }
    }
  }

  /** One round of one block preserves every run of the kernel that does not get stuck,
      provided no other block uses a result the round deletes; surviving ids keep their values. */
  lemma RoundPreserves(c: Setting, w: Where, fuel: nat)
    requires Disciplined(c) && HasBlock(c.k, w) && Ssa(CodeAt(c.k, w)) && Laws(c.I)
    requires NotUsedElsewhere(c.k, w, Pruned(CodeAt(c.k, w)).Keys)
    requires !Fails(RunKernel(c.I, c.k, State(c.mem, []), fuel))
    ensures SameForObserver(RunKernel(c.I, c.k, State(c.mem, []), fuel),
                            RunKernel(c.I, PutBlock(c.k, w, SimplifyOnce(CodeAt(c.k, w))), State(c.mem, []), fuel))
    ensures Changes(CodeAt(c.k, w)) ==>
              RunKernel(c.I, PutBlock(c.k, w, SimplifyOnce(CodeAt(c.k, w))), State(c.mem, []), fuel)
              == Hide(RunKernel(c.I, c.k, State(c.mem, []), fuel), Pruned(CodeAt(c.k, w)).Keys)
  {
    hide UniqueDefs, EffectsKeep, NeverStored, Laws, NotUsedElsewhere, Run;
    var code := CodeAt(c.k, w);
    if Changes(code) {
      RoundIsSound(c, w);
      FoundDescends(code);
      LocalPlanSound(c, w, NewOps(code), Pruned(code));
      LocalApply(c.k, w, NewOps(code), Pruned(code));
      PlanPreserves(c, LocalPlan(c.k, w, NewOps(code), Pruned(code)), fuel);
    } else {
      assert PutBlock(c.k, w, code) == c.k;
    }
  }
}
