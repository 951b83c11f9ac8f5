/**
 Why nested blocks matter. Loads are collected from one block only, so a store that a nested
 block reads counts as dead when the outer block stores again afterwards. The stores here
 are vector stores: type checking, which comes earlier in the standard order, lets a plain
 store target outputs alone and leaves vector stores unchecked.
 */
module DeadStoreNested {
  import opened Ir
  import opened Semantics
  import opened DeadStoreElim
  import opened DeadStoreSound

  function Put(dst: string, v: ValueId): Instr { Instr(VectorStore(dst, 0, 4, v), None) }

  /** `v0 = 1; buf = v0; if (v0) { v1 = buf; out = v1 }; buf = v0` */
  function Body(): Code {
    [Instr(ConstOp(1), Some(0)), Put("buf", 0), Instr(If(0, 1, None), None), Put("buf", 0)]
  }

  function Branch(): Code { [Instr(VectorLoad("buf", 0, 4), Some(1)), Put("out", 1)] }

  function NestedKernel(body: Code): KernelValue { KernelValue(body, map[1 := Branch()]) }

  function SweptBody(): Code { [Body()[0], Body()[2], Body()[3]] }

  lemma FirstStoreIsDead()
    ensures Swept(Body(), {"out"}, 4) == SweptBody()
  {
    var code, key := Body(), VectorKey("buf", 0, 4);
    assert Candidate(code[3].op, {"out"}, key);
    assert IsDeadStore(code, {"out"}, 1);
    assert !IsDeadStore(code, {"out"}, 3) && !IsDeadStore(code, {"out"}, 0) && !IsDeadStore(code, {"out"}, 2);
    hide IsDeadStore;
    assert Swept(code, {"out"}, 1) == [code[0]];
    assert Swept(code, {"out"}, 2) == [code[0]];
    assert Swept(code, {"out"}, 3) == [code[0], code[2]];
  }

  /** One cell per buffer: a read yields the last value written, or 0. */
  ghost predicate OneCell(I: Interp) {
    && I.truthy(1)
    && (forall b, off, len :: I.vectorRead(b, off, len) == if b == [] then 0 else b[0])
    && (forall b, off, len, v :: I.vectorWrite(b, off, len, v) == [v])
  }

  lemma CellLaws(I: Interp, b: Buffer, off: Val, v: Val)
    requires OneCell(I)
    ensures I.truthy(1) && I.vectorRead(b, off, 4) == (if b == [] then 0 else b[0]) && I.vectorWrite(b, off, 4, v) == [v]
  {
  }

  lemma PutStep(I: Interp, k: KernelValue, dst: string, v: ValueId, env: Env, st: State, fuel: nat)
    requires OneCell(I) && v in env && 0 in env
    ensures Step(I, k, Put(dst, v), env, st, fuel)
            == Done(env, State(st.mem[dst := [env[v]]], st.trace + [VectorStored(dst, env[0], 4, env[v])]))
  {
    CellLaws(I, Buf(st.mem, dst), env[0], env[v]);
  }

  /** The nested block stores to `out` what `buf` holds. */
  lemma NestedRuns(I: Interp, k: KernelValue, st: State, x: Val)
    requires OneCell(I) && 1 in k.blocks && k.blocks[1] == Branch() && Buf(st.mem, "buf") == (if x == 0 then [] else [x])
    ensures Run(I, k, CodeOf(k, 1), map[0 := 1], st, 0)
            == Done(map[0 := 1, 1 := x], State(st.mem["out" := [x]], st.trace + [VectorStored("out", 1, 4, x)]))
  {
    var env: Env, env': Env := map[0 := 1], map[0 := 1, 1 := x];
    var load, last := Branch()[0], Branch()[1];
    CellLaws(I, Buf(st.mem, "buf"), 1, 0);
    assert Step(I, k, load, env, st, 0) == Done(env', st) by { assert env[1 := x] == env'; }
    PutStep(I, k, "out", 1, env', st, 0);
    hide Step, OneCell;
    assert Branch() == [load] + [last];
    RunCons(I, k, load, [last], env, st, 0);
    RunCons(I, k, last, [], env', st, 0);
    assert [last] + [] == [last];
  }

  lemma BranchRuns(I: Interp, k: KernelValue, st: State, x: Val)
    requires OneCell(I) && 1 in k.blocks && k.blocks[1] == Branch() && Buf(st.mem, "buf") == (if x == 0 then [] else [x])
    ensures Step(I, k, Body()[2], map[0 := 1], st, 1)
            == Done(map[0 := 1], State(st.mem["out" := [x]], st.trace + [VectorStored("out", 1, 4, x)]))
  {
    NestedRuns(I, k, st, x);
    CellLaws(I, [], 1, 0);
    hide Run, OneCell;
  }

  /** The original stores 1 to `out`; after the pass, 0. */
  lemma NestedReadLost(I: Interp)
    requires OneCell(I)
    ensures Swept(Body(), {"out"}, |Body()|) == SweptBody()
    ensures var o := RunKernel(I, NestedKernel(Body()), State(map[], []), 1); o.Done? && Buf(o.st.mem, "out") == [1]
    ensures var o := RunKernel(I, NestedKernel(SweptBody()), State(map[], []), 1); o.Done? && Buf(o.st.mem, "out") == [0]
  {
    FirstStoreIsDead();
    OriginalRun(I, NestedKernel(Body()));
    SweptRun(I, NestedKernel(SweptBody()));
  }

  lemma ConstStep(I: Interp, k: KernelValue, st: State)
    ensures Step(I, k, Body()[0], map[], st, 1) == Done(map[0 := 1], st)
  {
  }

  lemma TailRuns(I: Interp, k: KernelValue, st: State, x: Val)
    requires OneCell(I) && 1 in k.blocks && k.blocks[1] == Branch() && Buf(st.mem, "buf") == (if x == 0 then [] else [x])
    ensures var o := Run(I, k, [Body()[2], Body()[3]], map[0 := 1], st, 1); o.Done? && Buf(o.st.mem, "out") == [x]
  {
    var env: Env, c2, c3 := map[0 := 1], Body()[2], Body()[3];
    var st1 := State(st.mem["out" := [x]], st.trace + [VectorStored("out", 1, 4, x)]);
    BranchRuns(I, k, st, x);
    PutStep(I, k, "buf", 0, env, st1, 1);
    hide Step, OneCell;
    assert [c2, c3] == [c2] + [c3] && [c3] == [c3] + [];
    RunCons(I, k, c2, [c3], env, st, 1);
    RunCons(I, k, c3, [], env, st1, 1);
  }

  lemma OriginalRun(I: Interp, k: KernelValue)
    requires OneCell(I) && k == NestedKernel(Body())
    ensures var o := RunKernel(I, k, State(map[], []), 1); o.Done? && Buf(o.st.mem, "out") == [1]
  {
    var env: Env, st, c := map[0 := 1], State(map[], []), Body();
    var st1 := State(map["buf" := [1]], [VectorStored("buf", 1, 4, 1)]);
    ConstStep(I, k, st);
    PutStep(I, k, "buf", 0, env, st, 1);
    TailRuns(I, k, st1, 1);
    hide Step, OneCell, Run;
    assert c == [c[0]] + ([c[1]] + [c[2], c[3]]);
    RunCons(I, k, c[0], [c[1]] + [c[2], c[3]], map[], st, 1);
    RunCons(I, k, c[1], [c[2], c[3]], env, st, 1);
    assert map[]["buf" := [1]] == st1.mem && [] + [VectorStored("buf", 1, 4, 1)] == st1.trace;
  }

  lemma SweptRun(I: Interp, k: KernelValue)
    requires OneCell(I) && k == NestedKernel(SweptBody())
    ensures var o := RunKernel(I, k, State(map[], []), 1); o.Done? && Buf(o.st.mem, "out") == [0]
  {
    var st, c := State(map[], []), Body();
    ConstStep(I, k, st);
    TailRuns(I, k, st, 0);
    hide Step, OneCell, Run;
    assert SweptBody() == [c[0]] + [c[2], c[3]];
    RunCons(I, k, c[0], [c[2], c[3]], map[], st, 1);
  }

  // ----- a nested load that never happens -----

  /** `v0 = 1; buf = v0; if (v0) { if (v0) {} else { v1 = buf; out = v1 } }; buf = v0` */
  function Unreached(body: Code): KernelValue {
    KernelValue(body, map[1 := [Instr(If(0, 2, Some(3)), None)], 2 := [], 3 := Branch()])
  }

  lemma UnreachedSweeps()
    ensures SweptKernel(Unreached(Body()), {"out"}) == Unreached(SweptBody())
  {
    FirstStoreIsDead();
    hide Swept, IsDeadStore;
    var k := Unreached(Body());
    forall b | b in k.blocks ensures SweptCode(k.blocks[b], {"out"}) == k.blocks[b] {
      NoLaterStore(k.blocks[b]);
      assert k.blocks[b][..|k.blocks[b]|] == k.blocks[b];
    }
  }

  lemma NoLaterStore(code: Code)
    requires code == [] || code == Branch() || (|code| == 1 && code[0].op.If?)
    ensures SweptCode(code, {"out"}) == code[..|code|]
  {
    NothingSwept(code, {"out"}, |code|);
  }

  /** The nested load reaches the buffer, as far as the blocks tell. */
  lemma UnreachedIsDisturbed()
    ensures !UndisturbedKernel(Unreached(Body()), {"out"})
  {
    FirstStoreIsDead();
    var k, code := Unreached(Body()), Body();
    assert Candidate(code[3].op, {"out"}, VectorKey("buf", 0, 4));
    assert IsDeadStore(code, {"out"}, 1) && Between(code, {"out"}, 1, 2);
    forall safe ensures !(ClosedOff(k, safe, "buf") && AvoidsWithin(code[2], safe, "buf")) {
      if 1 in safe { ReachesLoad(k, safe); }
    }
    assert !Undisturbed(k, CodeAt(k, None), {"out"});
  }

  lemma ReachesLoad(k: KernelValue, safe: set<BlockId>)
    requires k == Unreached(Body()) && 1 in safe
    ensures !ClosedOff(k, safe, "buf")
  {
    if 3 in safe {
      assert CodeOf(k, 3) == Branch() && !AvoidsWithin(Branch()[0], safe, "buf");
      assert !CodeAvoids(CodeOf(k, 3), safe, "buf");
    } else {
      var ins := Instr(If(0, 2, Some(3)), None);
      assert CodeOf(k, 1) == [ins] && 3 in Nested(ins.op);
      assert !AvoidsWithin(CodeOf(k, 1)[0], safe, "buf");
      assert !CodeAvoids(CodeOf(k, 1), safe, "buf");
    }
  }

  lemma UnreachedBranch(I: Interp, k: KernelValue, env: Env, st: State, fuel: nat)
    requires k.blocks == Unreached([]).blocks && 0 in env
    ensures Step(I, k, Body()[2], env, st, fuel)
            == if fuel == 0 || (I.truthy(env[0]) && fuel == 1) then OutOfFuel else Done(env, st)
  {
    if fuel > 0 && I.truthy(env[0]) {
      var inner := Instr(If(0, 2, Some(3)), None);
      assert CodeOf(k, 1) == [inner] + [];
      RunCons(I, k, inner, [], env, st, fuel - 1);
      if fuel > 1 { assert Run(I, k, CodeOf(k, 2), env, st, fuel - 2) == Done(env, st); }
    }
  }

  /** The last two instructions, where the branch is one that does nothing. */
  lemma UnreachedTail(I: Interp, k: KernelValue, st: State, fuel: nat)
    requires k.blocks == Unreached([]).blocks
    ensures var o := Run(I, k, [Body()[2], Body()[3]], map[0 := 1], st, fuel);
            o.OutOfFuel? == (fuel == 0 || (I.truthy(1) && fuel == 1))
            && (o.OutOfFuel? || (o.Done? && o.env == map[0 := 1] && Observed(o.st.trace) == Observed(st.trace)
                  && o.st.mem == Once(I, st.mem)))
  {
    var env: Env, c2, c3 := map[0 := 1], Body()[2], Body()[3];
    UnreachedBranch(I, k, env, st, fuel);
    StraightStep(I, k, c3, env, st, fuel);
    hide Step, Observed;
    assert [c2, c3] == [c2] + [c3] && [c3] == [c3] + [];
    RunCons(I, k, c2, [c3], env, st, fuel);
    if Step(I, k, c2, env, st, fuel).Done? { RunCons(I, k, c3, [], env, st, fuel); }
  }

  lemma FirstStep(I: Interp, k: KernelValue, st: State, fuel: nat)
    ensures Step(I, k, Body()[0], map[], st, fuel) == Done(map[0 := 1], st)
  {
  }

  /** Yet dropping the store is right under every interpretation in which the last write
      wins: that a nested block could reach the buffer does not make the pass wrong. */
  lemma NestedReadUnreached(I: Interp, st: State, fuel: nat)
    requires Overwrites(I) && RunKernel(I, Unreached(Body()), st, fuel).Done?
    ensures !UndisturbedKernel(Unreached(Body()), {"out"})
    ensures SameEnd(RunKernel(I, Unreached(Body()), st, fuel), RunKernel(I, SweptKernel(Unreached(Body()), {"out"}), st, fuel))
  {
    UnreachedIsDisturbed();
    UnreachedSweeps();
    hide UndisturbedKernel, SweptKernel, Swept, IsDeadStore;
    UnreachedRuns(I, st, fuel);
  }

  lemma UnreachedRuns(I: Interp, st: State, fuel: nat)
    requires Overwrites(I) && RunKernel(I, Unreached(Body()), st, fuel).Done?
    ensures SameEnd(RunKernel(I, Unreached(Body()), st, fuel), RunKernel(I, Unreached(SweptBody()), st, fuel))
  {
    var k, k' := Unreached(Body()), Unreached(SweptBody());
    FullFront(I, k, st, fuel);
    SweptFront(I, k', st, fuel);
    FirstStore(I, k, st, fuel);
    UnreachedTail(I, k, Step(I, k, Body()[1], map[0 := 1], st, fuel).st, fuel);
    UnreachedTail(I, k', st, fuel);
    StoredTwice(I, st.mem);
    hide Step, Run, Observed, Overwrites, Once;
  }

  lemma FullFront(I: Interp, k: KernelValue, st: State, fuel: nat)
    ensures Run(I, k, Body(), map[], st, fuel)
            == Run(I, k, [Body()[2], Body()[3]], map[0 := 1], Step(I, k, Body()[1], map[0 := 1], st, fuel).st, fuel)
  {
    var c := Body();
    FirstStep(I, k, st, fuel);
    FirstStore(I, k, st, fuel);
    hide Step, Run, Observed, Once;
    assert c == [c[0]] + ([c[1]] + [c[2], c[3]]);
    RunCons(I, k, c[0], [c[1]] + [c[2], c[3]], map[], st, fuel);
    RunCons(I, k, c[1], [c[2], c[3]], map[0 := 1], st, fuel);
  }

  lemma SweptFront(I: Interp, k: KernelValue, st: State, fuel: nat)
    ensures Run(I, k, SweptBody(), map[], st, fuel) == Run(I, k, [Body()[2], Body()[3]], map[0 := 1], st, fuel)
  {
    var c := Body();
    FirstStep(I, k, st, fuel);
    hide Step, Run;
    assert SweptBody() == [c[0]] + [c[2], c[3]];
    RunCons(I, k, c[0], [c[2], c[3]], map[], st, fuel);
  }

  ghost function Once(I: Interp, mem: Memory): Memory { mem["buf" := I.vectorWrite(Buf(mem, "buf"), 1, 4, 1)] }

  lemma FirstStore(I: Interp, k: KernelValue, st: State, fuel: nat)
    ensures var o := Step(I, k, Body()[1], map[0 := 1], st, fuel);
            && o.Done? && o.env == map[0 := 1] && o.st.mem == Once(I, st.mem) && Observed(o.st.trace) == Observed(st.trace)
  {
    StraightStep(I, k, Body()[1], map[0 := 1], st, fuel);
    hide Step, Observed;
  }

  lemma StoredTwice(I: Interp, mem: Memory)
    requires Overwrites(I)
    ensures Once(I, Once(I, mem)) == Once(I, mem)
  {
    LastWins(I, Buf(mem, "buf"), VectorLoc(1, 4), 1, 1);
  }
}
