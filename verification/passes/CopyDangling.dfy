/**
 The same for copy propagation: a cast to the dtype its operand already has, used in its
 own block and in a nested one.
 */
module CopyDangling {
  import opened Ir
  import opened Semantics
  import opened RewritePlan
  import opened Blocks
  import opened LocalRewrite
  import opened CopyProp
  import opened AlgebraicDangling
  import AlgebraicFixpoint

  /** `v0 = zeros(f32); v1 = 1; v2 = cast(v0, f32); out = v2; if (v1) { out = v2 }` */
  function CastKernel(): KernelValue {
    KernelValue([Instr(Zeros(F32, []), Some(0)), Instr(ConstOp(1), Some(1)), Instr(Cast(0, F32), Some(2)),
                 StoreOut(2), Instr(If(1, 1, None), None)],
                map[1 := [StoreOut(2)]])
  }

  function Propagation(): Code {
    [Instr(Zeros(F32, []), Some(0)), Instr(ConstOp(1), Some(1)), StoreOut(0), Instr(If(1, 1, None), None)]
  }

  lemma CastSsa()
    ensures Ssa(CastKernel().body)
  {
    var code := CastKernel().body;
    forall i, u | 0 <= i < |code| && u in Uses(code[i].op) ensures Rank(code, u) <= i { RankOf(code, u); }
  }

  lemma CastFound()
    ensures AllCopies(CastKernel().body) == map[2 := 0] && AllCopies(Propagation()) == map[]
  {
    var code := CastKernel().body;
    assert InferDType(code, 0) == Some(F32);
    hide InferDType;
    assert Copies(code, 2) == map[];
    assert Copies(code, 3) == map[2 := 0];
    assert Copies(code, 5) == Copies(code, 4) == Copies(code, 3);
    assert Copies(Propagation(), 4) == Copies(Propagation(), 2) == map[];
  }

  lemma CastRewritten()
    ensures CopyOnce(CastKernel().body) == Propagation()
  {
    CastFound();
    ChaseEnds();
    ByRewrite();
    hide Rewrite, AllCopies, Resolved;
    assert map[2 := 0].Keys == {2};
  }

  lemma ChaseEnds()
    ensures Resolved(map[2 := 0]) == map[2 := 0]
  {
    assert Chase(map[2 := 0], 0, {2}) == 0;
  }

  lemma ByRewrite()
    ensures var code := CastKernel().body; Rewrite(code, OpsOf(code), map[2 := 0], {2}) == Propagation()
  {
    var code, rho, dead := CastKernel().body, map[2 := 0], {2};
    FrontStays(rho);
    BackRewrite();
    hide Rewrite, Subst;
    var back := [StoreOut(2), code[4]];
    RewriteCons(code[2], back, rho, dead);
    RewriteCons(code[1], [code[2]] + back, rho, dead);
    RewriteCons(code[0], [code[1]] + ([code[2]] + back), rho, dead);
    assert code == [code[0]] + ([code[1]] + ([code[2]] + back));
  }

  lemma FrontStays(rho: map<ValueId, ValueId>)
    ensures var c := CastKernel().body; Subst(c[0].op, rho) == c[0].op && Subst(c[1].op, rho) == c[1].op
  {
  }

  lemma CastFixpoint()
    ensures Fixpoint(CastKernel().body) == Propagation()
  {
    CastFound();
    CastRewritten();
    hide AllCopies, CopyOnce;
    assert 2 in AllCopies(CastKernel().body);
    assert AllCopies(CastKernel().body) != map[];
    assert Fixpoint(Propagation()) == Propagation();
    assert Fixpoint(CastKernel().body) == Fixpoint(CopyOnce(CastKernel().body));
  }

  /** The original kernel stores twice; the propagated one gets stuck in its nested block. */
  lemma CopyDangles(I: Interp, mem: Memory)
    requires I.truthy(1)
    ensures var k := CastKernel();
            && Ssa(k.body)
            && !NotUsedElsewhere(k, None, AllCopies(k.body).Keys)
            && RunKernel(I, k, State(mem, []), 1).Done?
            && RunKernel(I, PutBlock(k, None, Fixpoint(k.body)), State(mem, []), 1).Stuck?
  {
    var k := CastKernel();
    CastSsa();
    CastFound();
    CastFixpoint();
    hide Fixpoint, Ssa, Rank, AllCopies, Semantics.Run, Step;
    assert 2 in Uses(CodeAt(k, Some(1))[0].op) && 2 in AllCopies(k.body).Keys;
    OriginalStores(I, k, mem);
    PropagatedSticks(I, KernelValue(Propagation(), k.blocks), mem);
  }

  lemma FrontRuns(I: Interp, k: KernelValue, rest: Code, st: State)
    ensures Semantics.Run(I, k, [CastKernel().body[0]] + ([CastKernel().body[1]] + rest), map[], st, 1)
            == Semantics.Run(I, k, rest, map[0 := I.fill(0, F32, []), 1 := 1], st, 1)
  {
    var z, c0, c1 := I.fill(0, F32, []), CastKernel().body[0], CastKernel().body[1];
    RunCons(I, k, c0, [c1] + rest, map[], st, 1);
    RunCons(I, k, c1, rest, map[0 := z], st, 1);
    assert map[0 := z][1 := 1] == map[0 := z, 1 := 1];
  }

  lemma CastStep(I: Interp, k: KernelValue, env: Env, st: State)
    requires 0 in env && 2 !in env
    ensures Step(I, k, CastKernel().body[2], env, st, 1) == Done(env[2 := I.cast(F32, env[0])], st)
  {
  }

  lemma OriginalStores(I: Interp, k: KernelValue, mem: Memory)
    requires I.truthy(1) && k == CastKernel()
    ensures RunKernel(I, k, State(mem, []), 1).Done?
  {
    hide Step, Semantics.Run, Written;
    var st, z, c := State(mem, []), I.fill(0, F32, []), k.body;
    var e1: Env := map[0 := z, 1 := 1];
    var e := e1[2 := I.cast(F32, z)];
    var st1 := Written(I, st, e[2]);
    FrontRuns(I, k, [c[2]] + ([StoreOut(2)] + [c[4]]), st);
    assert c == [c[0]] + ([c[1]] + ([c[2]] + ([StoreOut(2)] + [c[4]])));
    RunCons(I, k, c[2], [StoreOut(2)] + [c[4]], e1, st, 1);
    CastStep(I, k, e1, st);
    StoreStep(I, k, 2, e, st, 1);
    RunCons(I, k, StoreOut(2), [c[4]], e, st, 1);
    NestedRuns(I, k, e, st1);
    BranchRuns(I, k, e, st1, Written(I, st1, e[2]));
    RunCons(I, k, c[4], [], e, st1, 1);
    assert Semantics.Run(I, k, [], e, Written(I, st1, e[2]), 1).Done? by { RunThrough(I, k, [], [Point(e, Written(I, st1, e[2]))], 1); }
    assert [c[4]] + [] == [c[4]];
  }

  lemma PropagatedSticks(I: Interp, k: KernelValue, mem: Memory)
    requires I.truthy(1) && k == KernelValue(Propagation(), CastKernel().blocks)
    ensures RunKernel(I, k, State(mem, []), 1).Stuck?
  {
    hide Step, Semantics.Run, Written;
    var st, z, c := State(mem, []), I.fill(0, F32, []), k.body;
    var e: Env := map[0 := z, 1 := 1];
    var st1 := Written(I, st, z);
    FrontRuns(I, k, [StoreOut(0)] + [c[3]], st);
    assert c == [c[0]] + ([c[1]] + ([StoreOut(0)] + [c[3]]));
    StoreStep(I, k, 0, e, st, 1);
    RunCons(I, k, StoreOut(0), [c[3]], e, st, 1);
    NestedSticks(I, k, e, st1);
    BranchSticks(I, k, e, st1);
    RunCons(I, k, c[3], [], e, st1, 1);
    assert [c[3]] + [] == [c[3]];
  }
}
