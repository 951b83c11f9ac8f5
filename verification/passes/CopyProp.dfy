/**
 Copy propagation of one block: uses of an identity's result are sent to its source, the
 identity is dropped, and rounds repeat until none is left.
 */
module CopyProp {
  import opened Ir
  import opened Semantics
  import opened RewritePlan
  import opened Blocks
  import opened BlockUtil
  import opened LocalRewrite
  import AlgebraicFixpoint

  /** The dtype an id surely has, from the first op of the block that defines it. */
  function InferDType(code: Code, v: ValueId): Option<DType> {
    if code == [] then None
    else if code[0].res != Some(v) then InferDType(code[1..], v)
    else match code[0].op
      case Cast(_, d) => Some(d)
      case Zeros(d, _) => Some(d)
      case Splat(_, d, _) => Some(d)
      case _ => None
  }

  predicate IsUnitShape(s: Shape) { |s| == 1 && s[0] == Dim.Known(1) }

  /** The id an op is a copy of. */
  function IsIdentity(code: Code, op: Op): Option<ValueId> {
    match op
    case Cast(x, d) => if InferDType(code, x) == Some(d) then Some(x) else None
    case Broadcast(x, s) => if IsUnitShape(s) then Some(x) else None
    case Reshape(x, s) => if IsUnitShape(s) then Some(x) else None
    case Select(_, a, b) => if a == b then Some(a) else None
    case _ => None
  }

  /** The redirects found among the first n instructions. */
  function Copies(code: Code, n: nat): map<ValueId, ValueId>
    requires n <= |code|
  {
    if n == 0 then map[]
    else if IsIdentity(code, code[n - 1].op).Some? && code[n - 1].res.Some? then
      Copies(code, n - 1)[code[n - 1].res.value := IsIdentity(code, code[n - 1].op).value]
    else Copies(code, n - 1)
  }

  function AllCopies(code: Code): map<ValueId, ValueId> { Copies(code, |code|) }

  function CopyOnce(code: Code): Code {
    Rewrite(code, OpsOf(code), Resolved(AllCopies(code)), AllCopies(code).Keys)
  }

  lemma {:induction false} CopyOrigin(code: Code, n: nat, v: ValueId) returns (i: nat)
    requires n <= |code| && v in Copies(code, n)
    ensures i < n && code[i].res == Some(v) && IsIdentity(code, code[i].op) == Some(Copies(code, n)[v])
  {
    if IsIdentity(code, code[n - 1].op).Some? && code[n - 1].res == Some(v) {
      i := n - 1;
    } else {
      i := CopyOrigin(code, n - 1, v);
    }
  }

  // ----- termination -----

  /** Every productive round drops an op, on any block at all. */
  lemma CopyShrinks(code: Code)
    requires AllCopies(code) != map[]
    ensures |CopyOnce(code)| < |code|
  {
    var m := AllCopies(code);
    var v :| v in m;
    var i := CopyOrigin(code, |code|, v);
    assert IsDead(code[i].res, m.Keys);
    DroppingShortens(code, OpsOf(code), Resolved(m), m.Keys);
  }

  function Fixpoint(code: Code): (r: Code)
    ensures AllCopies(r) == map[]
    decreases |code|
  {
    if AllCopies(code) == map[] then code else
    CopyShrinks(code);
    Fixpoint(CopyOnce(code))
  }

  // ----- the loops -----

  method Scan(code: Code) returns (m: map<ValueId, ValueId>)
    ensures m == AllCopies(code)
  {
    m := map[];
    for i := 0 to |code|
      invariant m == Copies(code, i)
    {
      var source := IsIdentity(code, code[i].op);
      if source.Some? && code[i].res.Some? { m := m[code[i].res.value := source.value]; }
    }
  }

  /** `copy_prop_block_once`. */
  method CopyBlockOnce(block: Block) returns (changed: bool)
    requires block.Valid()
    modifies block
    ensures block.Valid() && changed == (AllCopies(old(block.View())) != map[])
    ensures block.View() == if changed then CopyOnce(old(block.View())) else old(block.View())
  {
    hide Resolved, Rewrite;
    ghost var code := block.View();
    var m := Scan(Zip(block.ops, block.results));
    if m == map[] { return false; }
    var rho := ResolveTransitive(m);
    assert rho.Keys == m.Keys by { ResolvedKeys(m); }
    RedirectAndDrop(block, rho);
    changed := true;
  }

  /** `copy_prop_block_fixpoint`: it ends on every block. */
  method CopyBlockFixpoint(block: Block)
    requires block.Valid()
    modifies block
    ensures block.Valid() && block.View() == Fixpoint(old(block.View()))
  {
    hide CopyOnce, AllCopies;
    ghost var code := block.View();
    var changed := true;
    while changed
      invariant block.Valid() && Fixpoint(block.View()) == Fixpoint(code)
      invariant !changed ==> AllCopies(block.View()) == map[]
      decreases |block.View()|, changed
    {
      ghost var before := block.View();
      changed := CopyBlockOnce(block);
      if changed { CopyShrinks(before); }
    }
  }

  // ----- meaning -----

  /** What the patterns rely on: a cast to the dtype a value has does nothing, and neither
      does giving a scalar the shape [1]. */
  ghost predicate Laws(I: Interp) {
    && (forall d, a :: I.cast(d, I.cast(d, a)) == I.cast(d, a))
    && (forall d, f, s :: I.cast(d, I.fill(f, d, s)) == I.fill(f, d, s))
    && (forall s, a :: IsUnitShape(s) ==> I.broadcast(s, a) == a && I.reshape(s, a) == a)
  }

  lemma {:induction false} InferredAt(code: Code, v: ValueId) returns (i: nat)
    requires InferDType(code, v).Some?
    ensures i < |code| && code[i].res == Some(v)
    ensures match code[i].op
            case Cast(_, d) => InferDType(code, v) == Some(d)
            case Zeros(d, _) => InferDType(code, v) == Some(d)
            case Splat(_, d, _) => InferDType(code, v) == Some(d)
            case _ => false
  {
    if code[0].res == Some(v) {
      i := 0;
    } else {
      i := InferredAt(code[1..], v);
      i := i + 1;
    }
  }

  /** Casting a value to the dtype it surely has changes nothing. */
  lemma CastHolds(c: Setting, w: Where, v: ValueId, env: Env)
    requires Facts(c, env) && v in env && Laws(c.I) && InferDType(CodeAt(c.k, w), v).Some?
    ensures c.I.cast(InferDType(CodeAt(c.k, w), v).value, env[v]) == env[v]
  {
    var code := CodeAt(c.k, w);
    var i := InferredAt(code, v);
    assert DefinedAt(c.k, w, i, v);
    assert Equation(c, code[i].op, v, env);
    match code[i].op
    case Cast(x, d) => CastLaws(c.I, d, env[x], 0, []);
    case Zeros(d, s) => CastLaws(c.I, d, 0, 0, s);
    case Splat(f, d, s) => CastLaws(c.I, d, 0, f, s);
  }

  lemma CastLaws(I: Interp, d: DType, a: Val, f: int, s: Shape)
    requires Laws(I)
    ensures I.cast(d, I.cast(d, a)) == I.cast(d, a) && I.cast(d, I.fill(f, d, s)) == I.fill(f, d, s)
  {
  }

  lemma CopyRedirects(c: Setting, w: Where, v: ValueId)
    requires Laws(c.I) && v in AllCopies(CodeAt(c.k, w))
    ensures Redirects(c, v, AllCopies(CodeAt(c.k, w))[v])
  {
    var code := CodeAt(c.k, w);
    var x := AllCopies(code)[v];
    var i := CopyOrigin(code, |code|, v);
    forall env | Facts(c, env) && v in env ensures x in env && env[x] == env[v] {
      CopyHolds(c, w, i, v, env);
    }
  }

  lemma CopyHolds(c: Setting, w: Where, i: nat, v: ValueId, env: Env)
    requires Laws(c.I) && DefinedAt(c.k, w, i, v) && IsIdentity(CodeAt(c.k, w), CodeAt(c.k, w)[i].op).Some?
    requires Facts(c, env) && v in env
    ensures var x := IsIdentity(CodeAt(c.k, w), CodeAt(c.k, w)[i].op).value; x in env && env[x] == env[v]
  {
    var op := CodeAt(c.k, w)[i].op;
    assert Equation(c, op, v, env);
    if op.Cast? {
      CastHolds(c, w, op.arg, env);
    } else if op.Broadcast? || op.Reshape? {
      UnitShape(c.I, op.shape, env[op.arg]);
    }
  }

  lemma UnitShape(I: Interp, s: Shape, a: Val)
    requires Laws(I) && IsUnitShape(s)
    ensures I.broadcast(s, a) == a && I.reshape(s, a) == a
  {
  }

  lemma CopiesDescend(code: Code)
    requires Ssa(code)
    ensures Descends(code, AllCopies(code))
  {
    var m := AllCopies(code);
    forall v | v in m ensures Rank(code, m[v]) < Rank(code, v) {
      var i := CopyOrigin(code, |code|, v);
      assert m[v] in Uses(code[i].op);
      RankOf(code, i);
    }
  }

  lemma CopyRoundSound(c: Setting, w: Where)
    requires UniqueDefs(c.k) && UniqueResults(CodeAt(c.k, w)) && Laws(c.I)
    ensures RoundSound(c, w, OpsOf(CodeAt(c.k, w)), AllCopies(CodeAt(c.k, w)))
  {
    hide Laws, UniqueDefs, Redirects;
    var code := CodeAt(c.k, w);
    var m := AllCopies(code);
    forall v | v in m ensures Redirects(c, v, m[v]) { CopyRedirects(c, w, v); }
    forall i | 0 <= i < |code| && IsDead(code[i].res, m.Keys) ensures IsValueOp(code[i].op) {
      var j := CopyOrigin(code, |code|, code[i].res.value);
      assert i == j;
    }
  }

  lemma CopyRoundPreserves(c: Setting, w: Where, fuel: nat)
    requires Disciplined(c) && HasBlock(c.k, w) && Ssa(CodeAt(c.k, w)) && Laws(c.I)
    requires NotUsedElsewhere(c.k, w, AllCopies(CodeAt(c.k, w)).Keys)
    requires !Fails(RunKernel(c.I, c.k, State(c.mem, []), fuel))
    ensures SameForObserver(RunKernel(c.I, c.k, State(c.mem, []), fuel),
                            RunKernel(c.I, PutBlock(c.k, w, CopyOnce(CodeAt(c.k, w))), State(c.mem, []), fuel))
    ensures Disciplined(c.(k := PutBlock(c.k, w, CopyOnce(CodeAt(c.k, w)))))
  {
    var code := CodeAt(c.k, w);
    var m := AllCopies(code);
    CopyRoundSound(c, w);
    CopiesDescend(code);
    hide UniqueDefs, EffectsKeep, NeverStored, Laws, NotUsedElsewhere, Semantics.Run, AllCopies, Ssa, Descends;
    LocalPlanSound(c, w, OpsOf(code), m);
    DescendsInside(code, m);
    LocalApply(c.k, w, OpsOf(code), m);
    PlanPreserves(c, LocalPlan(c.k, w, OpsOf(code), m), fuel);
    LocalKeepsDiscipline(c, w, OpsOf(code), m);
  }

  lemma CopyKeepsSsa(code: Code)
    requires Ssa(code)
    ensures Ssa(CopyOnce(code))
  {
    CopiesDescend(code);
    LocalKeepsSsa(code, OpsOf(code), AllCopies(code));
  }

  // ----- the kernel around the block -----

  lemma RoundShrinks(code: Code, v: ValueId)
    requires AlgebraicFixpoint.Defines(CopyOnce(code), v)
    ensures AlgebraicFixpoint.Defines(code, v) && v !in AllCopies(code)
  {
    RewriteAt(code, OpsOf(code), Resolved(AllCopies(code)), AllCopies(code).Keys, Rank(CopyOnce(code), v) - 1);
  }

  lemma {:induction false} FixpointShrinks(code: Code, v: ValueId)
    requires AlgebraicFixpoint.Defines(Fixpoint(code), v)
    ensures AlgebraicFixpoint.Defines(code, v) && v !in AllCopies(code)
    decreases |code|
  {
    if AllCopies(code) != map[] {
      CopyShrinks(code);
      FixpointShrinks(CopyOnce(code), v);
      RoundShrinks(code, v);
    }
  }

  lemma CrossUsesAlongRound(k: KernelValue, w: Where)
    requires HasBlock(k, w) && AllCopies(CodeAt(k, w)) != map[]
    requires AlgebraicFixpoint.CrossUsesSurvive(k, w, Fixpoint(CodeAt(k, w)))
    ensures NotUsedElsewhere(k, w, AllCopies(CodeAt(k, w)).Keys)
    ensures Fixpoint(CodeAt(k, w)) == Fixpoint(CopyOnce(CodeAt(k, w)))
    ensures AlgebraicFixpoint.CrossUsesSurvive(PutBlock(k, w, CopyOnce(CodeAt(k, w))), w, Fixpoint(CopyOnce(CodeAt(k, w))))
  {
    var code := CodeAt(k, w);
    var m := AllCopies(code);
    CopyShrinks(code);
    hide CopyOnce;
    forall v, i, u | v != w && 0 <= i < |CodeAt(k, v)| && u in Uses(CodeAt(k, v)[i].op) ensures u !in m {
      if u in m {
        var j := CopyOrigin(code, |code|, u);
        assert AlgebraicFixpoint.Defines(code, u);
        FixpointShrinks(code, u);
      }
    }
    var k1 := PutBlock(k, w, CopyOnce(code));
    forall v, i, u | v != w && 0 <= i < |CodeAt(k1, v)| && u in Uses(CodeAt(k1, v)[i].op) && AlgebraicFixpoint.Defines(CopyOnce(code), u)
      ensures AlgebraicFixpoint.Defines(Fixpoint(CopyOnce(code)), u)
    {
      RoundShrinks(code, u);
      assert CodeAt(k1, v) == CodeAt(k, v);
    }
  }

  /** The fixpoint of one block preserves every run of the kernel that does not get stuck,
      provided what other blocks use of the block survives it. */
  lemma {:induction false} FixpointPreserves(c: Setting, w: Where, fuel: nat)
    requires Disciplined(c) && HasBlock(c.k, w) && Ssa(CodeAt(c.k, w)) && Laws(c.I)
    requires AlgebraicFixpoint.CrossUsesSurvive(c.k, w, Fixpoint(CodeAt(c.k, w)))
    requires !Fails(RunKernel(c.I, c.k, State(c.mem, []), fuel))
    ensures SameForObserver(RunKernel(c.I, c.k, State(c.mem, []), fuel),
                            RunKernel(c.I, PutBlock(c.k, w, Fixpoint(CodeAt(c.k, w))), State(c.mem, []), fuel))
    ensures Ssa(Fixpoint(CodeAt(c.k, w)))
    ensures Disciplined(c.(k := PutBlock(c.k, w, Fixpoint(CodeAt(c.k, w)))))
    decreases |CodeAt(c.k, w)|
  {
    hide Disciplined, Laws, Semantics.Run, AllCopies, Ssa, AlgebraicFixpoint.CrossUsesSurvive;
    var code := CodeAt(c.k, w);
    if AllCopies(code) != map[] {
      var k1 := PutBlock(c.k, w, CopyOnce(code));
      CrossUsesAlongRound(c.k, w);
      CopyRoundPreserves(c, w, fuel);
      CopyShrinks(code);
      CopyKeepsSsa(code);
      FixpointPreserves(c.(k := k1), w, fuel);
      assert PutBlock(k1, w, Fixpoint(CopyOnce(code))) == PutBlock(c.k, w, Fixpoint(code));
    } else {
      assert PutBlock(c.k, w, code) == c.k;
    }
  }

  // ----- the pass -----

  /** The kernel after the blocks of `order` have been propagated one after another. */
  function Propagated(k: KernelValue, order: seq<Where>): KernelValue
    decreases |order|
  {
    if order == [] then k else Propagated(PutBlock(k, order[0], Fixpoint(CodeAt(k, order[0]))), order[1..])
  }

  /** Each block is in SSA form when its turn comes, and loses nothing others use. */
  ghost predicate Ready(k: KernelValue, order: seq<Where>)
    decreases |order|
  {
    order != [] ==>
      && HasBlock(k, order[0]) && Ssa(CodeAt(k, order[0]))
      && AlgebraicFixpoint.CrossUsesSurvive(k, order[0], Fixpoint(CodeAt(k, order[0])))
      && Ready(PutBlock(k, order[0], Fixpoint(CodeAt(k, order[0]))), order[1..])
  }

  /** The whole pass, in any order of the blocks. */
  lemma {:induction false} PassPreserves(c: Setting, order: seq<Where>, fuel: nat)
    requires Disciplined(c) && Ready(c.k, order) && Laws(c.I)
    requires !Fails(RunKernel(c.I, c.k, State(c.mem, []), fuel))
    ensures SameForObserver(RunKernel(c.I, c.k, State(c.mem, []), fuel),
                            RunKernel(c.I, Propagated(c.k, order), State(c.mem, []), fuel))
    decreases |order|
  {
    hide Disciplined, Laws, AlgebraicFixpoint.CrossUsesSurvive, Semantics.Run;
    if order != [] {
      FixpointPreserves(c, order[0], fuel);
      PassPreserves(c.(k := PutBlock(c.k, order[0], Fixpoint(CodeAt(c.k, order[0])))), order[1..], fuel);
    }
  }

  /** Each block ends at its own fixpoint. */
  lemma {:induction false} PropagatedBlock(k: KernelValue, order: seq<Where>, w: Where)
    requires Ready(k, order) && (forall i, j :: 0 <= i < j < |order| ==> order[i] != order[j]) && HasBlock(k, w)
    ensures CodeAt(Propagated(k, order), w) == if w in order then Fixpoint(CodeAt(k, w)) else CodeAt(k, w)
    decreases |order|
  {
    hide Ssa, AlgebraicFixpoint.CrossUsesSurvive;
    if order != [] {
      var k1 := PutBlock(k, order[0], Fixpoint(CodeAt(k, order[0])));
      assert CodeAt(k1, w) == if w == order[0] then Fixpoint(CodeAt(k, w)) else CodeAt(k, w);
      PropagatedBlock(k1, order[1..], w);
      assert w in order <==> w == order[0] || w in order[1..];
      if w == order[0] { assert w !in order[1..]; }
    }
  }

  /** `CopyPropPass::run` up to its final dead-value sweep. */
  method Run(kernel: Kernel)
    requires kernel.Valid()
    modifies kernel.body, kernel.blocks.Values
    ensures kernel.Valid() && kernel.body.View() == Fixpoint(old(kernel.body.View()))
    ensures forall b :: b in kernel.blocks ==> kernel.blocks[b].View() == Fixpoint(old(kernel.blocks[b].View()))
  {
    hide Fixpoint;
    var todo := kernel.blocks.Keys;
    while todo != {}
      invariant todo <= kernel.blocks.Keys && kernel.Valid() && kernel.body.View() == old(kernel.body.View())
      invariant forall b :: b in todo ==> kernel.blocks[b].View() == old(kernel.blocks[b].View())
      invariant forall b :: b in kernel.blocks.Keys - todo ==> kernel.blocks[b].View() == Fixpoint(old(kernel.blocks[b].View()))
      decreases todo
    {
      var b :| b in todo;
      todo := todo - {b};
      CopyBlockFixpoint(kernel.blocks[b]);
    }
    CopyBlockFixpoint(kernel.body);
  }
}
