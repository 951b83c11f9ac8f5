/**
 Why `CrossUsesSurvive` is needed: a round redirects the uses of its own block only, so a
 nested block can be left using an id that no longer exists.
 */
module AlgebraicDangling {
  import opened Ir
  import opened Semantics
  import opened RewritePlan
  import opened Blocks
  import opened LocalRewrite
  import opened AlgebraicSimplify
  import opened AlgebraicFixpoint

  function StoreOut(v: ValueId): Instr { Instr(Store("out", [], v, None), None) }

  function Body(quotient: ValueId): Code {
    [Instr(ConstOp(3), Some(0)), Instr(ConstOp(1), Some(1)), StoreOut(quotient), Instr(If(1, 1, None), None)]
  }

  /** `v2 = 3 / 1; out = v2; if (1) { out = v2 }` */
  function DividedKernel(): KernelValue {
    KernelValue([Instr(ConstOp(3), Some(0)), Instr(ConstOp(1), Some(1)), Instr(BinOp(Div, 0, 1), Some(2)),
                 StoreOut(2), Instr(If(1, 1, None), None)],
                map[1 := [StoreOut(2)]])
  }

  lemma BodySsa()
    ensures Ssa(DividedKernel().body)
  {
    var code := DividedKernel().body;
    forall i, u | 0 <= i < |code| && u in Uses(code[i].op) ensures Rank(code, u) <= i {
      RankOf(code, u);
    }
  }

  lemma BodyStable()
    ensures !Changes(Body(0))
  {
    hide Rank, FindConst;
    assert Found(Body(0), 4) == map[];
  }

  lemma OneRound()
    ensures SimplifyOnce(DividedKernel().body) == Body(0)
    ensures Changes(DividedKernel().body)
  {
    hide Rank, FindConst, Rewrite, Found, NewOp;
    var code := DividedKernel().body;
    DivisionFound();
    assert AnyUsed(code, map[2 := 0]) by { assert Uses(code[3].op) * map[2 := 0].Keys == {2}; }
    assert Pruned(code) == map[2 := 0];
    assert map[2 := 0].Keys == {2};
    assert Resolved(map[2 := 0]) == map[2 := 0] by { assert Chase(map[2 := 0], 0, {2}) == 0; }
    assert NewOps(code) == OpsOf(code) by { OpsKept(); }
    OneRewrite();
    OnceIs(code, map[2 := 0]);
  }

  lemma OnceIs(code: Code, m: map<ValueId, ValueId>)
    requires Changes(code) && Pruned(code) == m && Resolved(m) == m && NewOps(code) == OpsOf(code)
    ensures SimplifyOnce(code) == Rewrite(code, OpsOf(code), m, m.Keys)
  {
  }

  lemma OpsKept()
    ensures var code := DividedKernel().body; NewOps(code) == OpsOf(code)
  {
    hide Rank, Rewrite, Found;
    var code := DividedKernel().body;
    assert FindConst(code, 1) == Some(1);
    assert NewOps(code)[2] == code[2].op;
  }

  lemma OneRewrite()
    ensures var code := DividedKernel().body; Rewrite(code, OpsOf(code), map[2 := 0], {2}) == Body(0)
  {
    var code, rho, dead := DividedKernel().body, map[2 := 0], {2};
    StoreRedirected();
    var front, back := [code[0], code[1]], [code[3], code[4]];
    BackRewrite();
    hide Rewrite, Subst;
    RewriteCons(code[2], back, rho, dead);
    RewriteCons(code[1], [code[2]] + back, rho, dead);
    assert [code[1]] + ([code[2]] + back) == [code[1], code[2]] + back;
    RewriteCons(code[0], [code[1], code[2]] + back, rho, dead);
    assert [code[0]] + ([code[1], code[2]] + back) == code;
    ConstsStay(rho);
  }

  lemma BackRewrite()
    ensures var back := [StoreOut(2), DividedKernel().body[4]];
            Rewrite(back, OpsOf(back), map[2 := 0], {2}) == [StoreOut(0), DividedKernel().body[4]]
  {
    var last := DividedKernel().body[4];
    StoreRedirected();
    RewriteCons(last, [], map[2 := 0], {2});
    RewriteCons(StoreOut(2), [last], map[2 := 0], {2});
    assert [last] + [] == [last] && [StoreOut(2)] + [last] == [StoreOut(2), last];
  }

  lemma ConstsStay(rho: map<ValueId, ValueId>)
    ensures Subst(ConstOp(3), rho) == ConstOp(3) && Subst(ConstOp(1), rho) == ConstOp(1)
  {
  }

  lemma StoreRedirected()
    ensures Subst(StoreOut(2).op, map[2 := 0]) == StoreOut(0).op
  {
    assert SubstIndices([], map[2 := 0]) == [];
  }

  lemma DivisionFound()
    ensures Found(DividedKernel().body, 5) == map[2 := 0]
  {
    var code := DividedKernel().body;
    assert FindConst(code, 1) == Some(1);
  }

  /** The original kernel stores 3 twice; the simplified one gets stuck in its nested block. */
  lemma DanglingUse(I: Interp, mem: Memory)
    requires I.truthy(1) && I.bin(Div, 3, 1) == Some(3)
    ensures var k := DividedKernel();
            && Ssa(k.body)
            && !CrossUsesSurvive(k, None, Fixpoint(k.body))
            && RunKernel(I, k, State(mem, []), 1).Done?
            && RunKernel(I, PutBlock(k, None, Fixpoint(k.body)), State(mem, []), 1).Stuck?
  {
    var k := DividedKernel();
    FixpointIsBody();
    hide Fixpoint, Ssa, Rank;
    var k' := PutBlock(k, None, Body(0));
    assert Defines(k.body, 2) by { RankOf(k.body, 2); }
    assert 2 in Uses(CodeAt(k, Some(1))[0].op);
    assert !Defines(Body(0), 2) by { RankSkips(); }
    OriginalRuns(I, k, mem);
    SimplifiedSticks(I, k', mem);
  }

  lemma FixpointIsBody()
    ensures Ssa(DividedKernel().body) && Fixpoint(DividedKernel().body) == Body(0)
  {
    BodySsa();
    BodyStable();
    OneRound();
    hide Changes, Ssa, SimplifyOnce;
    var code := DividedKernel().body;
    RoundDescends(code);
    RoundKeepsSsa(code);
    FixpointUnfolds(code);
    assert Fixpoint(Body(0)) == Body(0);
  }

  lemma RankSkips()
    ensures Rank(Body(0), 2) == 0
  {
  }

  function Env3(): Env { map[0 := 3, 1 := 1, 2 := 3] }

  lemma StoreStep(I: Interp, k: KernelValue, v: ValueId, env: Env, st: State, fuel: nat)
    requires v in env
    ensures Step(I, k, StoreOut(v), env, st, fuel) == Done(env, Written(I, st, env[v]))
  {
    assert EvalIndices([], env) == [];
  }

  ghost function Written(I: Interp, st: State, v: Val): State {
    State(st.mem["out" := I.write(Buf(st.mem, "out"), [], v)], st.trace + [Stored("out", [], v)])
  }

  lemma OriginalRuns(I: Interp, k: KernelValue, mem: Memory)
    requires I.truthy(1) && I.bin(Div, 3, 1) == Some(3) && k == DividedKernel()
    ensures RunKernel(I, k, State(mem, []), 1).Done?
  {
    hide Step, Run, Written;
    var st, e, last := State(mem, []), Env3(), k.body[4];
    var st1 := Written(I, st, 3);
    ConstsRun(I, k, [k.body[2], StoreOut(2), last], st);
    assert k.body == [k.body[0], k.body[1]] + [k.body[2], StoreOut(2), last];
    RunCons(I, k, k.body[2], [StoreOut(2), last], map[0 := 3, 1 := 1], st, 1);
    DivideStep(I, k, st);
    StoreStep(I, k, 2, e, st, 1);
    RunCons(I, k, StoreOut(2), [last], e, st, 1);
    NestedRuns(I, k, e, st1);
    BranchRuns(I, k, e, st1, Written(I, st1, 3));
    RunCons(I, k, last, [], e, st1, 1);
    assert Run(I, k, [], e, Written(I, st1, 3), 1).Done? by { RunThrough(I, k, [], [Point(e, Written(I, st1, 3))], 1); }
    assert [last] + [] == [last] && [StoreOut(2)] + [last] == [StoreOut(2), last];
    assert [k.body[2]] + [StoreOut(2), last] == [k.body[2], StoreOut(2), last];
  }

  lemma DivideStep(I: Interp, k: KernelValue, st: State)
    requires I.bin(Div, 3, 1) == Some(3)
    ensures Step(I, k, DividedKernel().body[2], map[0 := 3, 1 := 1], st, 1) == Done(Env3(), st)
  {
  }

  lemma ConstsRun(I: Interp, k: KernelValue, rest: Code, st: State)
    ensures Run(I, k, [Instr(ConstOp(3), Some(0)), Instr(ConstOp(1), Some(1))] + rest, map[], st, 1)
            == Run(I, k, rest, map[0 := 3, 1 := 1], st, 1)
  {
    var c0, c1 := Instr(ConstOp(3), Some(0)), Instr(ConstOp(1), Some(1));
    assert [c0, c1] + rest == [c0] + ([c1] + rest);
    RunCons(I, k, c0, [c1] + rest, map[], st, 1);
    RunCons(I, k, c1, rest, map[0 := 3], st, 1);
    assert map[0 := 3][1 := 1] == map[0 := 3, 1 := 1];
  }

  lemma NestedRuns(I: Interp, k: KernelValue, env: Env, st: State)
    requires 1 in k.blocks && k.blocks[1] == [StoreOut(2)] && 2 in env
    ensures Run(I, k, CodeOf(k, 1), env, st, 0) == Done(env, Written(I, st, env[2]))
  {
    StoreStep(I, k, 2, env, st, 0);
    RunThrough(I, k, k.blocks[1], [Point(env, st), Point(env, Written(I, st, env[2]))], 0);
  }

  lemma BranchRuns(I: Interp, k: KernelValue, env: Env, st: State, st': State)
    requires 1 in env && I.truthy(env[1]) && Run(I, k, CodeOf(k, 1), env, st, 0) == Done(env, st')
    ensures Step(I, k, Instr(If(1, 1, None), None), env, st, 1) == Done(env, st')
  {
  }

  lemma SimplifiedSticks(I: Interp, k: KernelValue, mem: Memory)
    requires I.truthy(1) && k == KernelValue(Body(0), DividedKernel().blocks)
    ensures RunKernel(I, k, State(mem, []), 1).Stuck?
  {
    hide Step, Run, Written;
    var st, e: Env, last := State(mem, []), map[0 := 3, 1 := 1], k.body[3];
    var st1 := Written(I, st, 3);
    ConstsRun(I, k, [StoreOut(0), last], st);
    assert k.body == [k.body[0], k.body[1]] + [StoreOut(0), last];
    StoreStep(I, k, 0, e, st, 1);
    RunCons(I, k, StoreOut(0), [last], e, st, 1);
    NestedSticks(I, k, e, st1);
    BranchSticks(I, k, e, st1);
    RunCons(I, k, last, [], e, st1, 1);
    assert [StoreOut(0)] + [last] == [StoreOut(0), last] && [last] + [] == [last];
  }

  lemma BranchSticks(I: Interp, k: KernelValue, env: Env, st: State)
    requires 1 in env && I.truthy(env[1]) && Run(I, k, CodeOf(k, 1), env, st, 0).Stuck?
    ensures Step(I, k, Instr(If(1, 1, None), None), env, st, 1).Stuck?
  {
  }

  lemma NestedSticks(I: Interp, k: KernelValue, env: Env, st: State)
    requires 1 in k.blocks && k.blocks[1] == [StoreOut(2)] && 2 !in env
    ensures Run(I, k, CodeOf(k, 1), env, st, 0).Stuck?
  {
    RunCons(I, k, StoreOut(2), [], env, st, 0);
  }
}
