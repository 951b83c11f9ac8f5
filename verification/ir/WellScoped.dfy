/**
 A static check under which a kernel never gets stuck: every operand is in scope and
 every definition is new, block by block, given what each nested block may rely on.
 */
module WellScoped {
  import opened Ir
  import opened Semantics

  /** For each nested block: ids surely in scope when it starts, and ids possibly in scope. */
  datatype Scopes = Scopes(must: map<BlockId, set<ValueId>>, may: map<BlockId, set<ValueId>>)

  function Entry(m: map<BlockId, set<ValueId>>, w: Where): set<ValueId> {
    if w.Some? && w.value in m then m[w.value] else {}
  }

  function Binds(ins: Instr): set<ValueId> {
    if IsReader(ins.op) && ins.res.Some? then {ins.res.value} else {}
  }

  function BoundBefore(code: Code, n: nat): set<ValueId>
    requires n <= |code|
  {
    if n == 0 then {} else BoundBefore(code, n - 1) + Binds(code[n - 1])
  }

  /** The check of one instruction, between the sure and the possible scope. */
  predicate InstrScoped(s: Scopes, ins: Instr, must: set<ValueId>, may: set<ValueId>) {
    && Uses(ins.op) <= must
    && Binds(ins) !! may
    && match ins.op
       case Loop(v, _, _, _, b) =>
         && LoopIds(v) !! may
         && Entry(s.must, Some(b)) <= must + LoopIds(v)
         && may + LoopIds(v) <= Entry(s.may, Some(b))
       case If(_, t, e) =>
         && Entry(s.must, Some(t)) <= must && may <= Entry(s.may, Some(t))
         && (e.Some? ==> Entry(s.must, e) <= must && may <= Entry(s.may, e))
       case _ => true
  }

  ghost predicate Scoped(k: KernelValue, s: Scopes) {
    forall w, n :: 0 <= n < |CodeAt(k, w)| ==> ScopedAt(k, s, w, n)
  }

  ghost predicate ScopedAt(k: KernelValue, s: Scopes, w: Where, n: nat)
    requires n < |CodeAt(k, w)|
  {
    var bound := BoundBefore(CodeAt(k, w), n);
    InstrScoped(s, CodeAt(k, w)[n], Entry(s.must, w) + bound, Entry(s.may, w) + bound)
  }

  ghost predicate InScope(k: KernelValue, s: Scopes, w: Where, n: nat, env: Env)
    requires n <= |CodeAt(k, w)|
  {
    var bound := BoundBefore(CodeAt(k, w), n);
    Entry(s.must, w) + bound <= env.Keys <= Entry(s.may, w) + bound
  }

  lemma {:induction false} RunProgresses(I: Interp, k: KernelValue, s: Scopes, w: Where, n: nat, env: Env, st: State, fuel: nat)
    requires Scoped(k, s) && n <= |CodeAt(k, w)| && InScope(k, s, w, n, env)
    ensures !Run(I, k, CodeAt(k, w)[n..], env, st, fuel).Stuck?
    decreases fuel, |CodeAt(k, w)| - n, 0
  {
    var code := CodeAt(k, w);
    if n < |code| {
      assert ScopedAt(k, s, w, n);
      hide Scoped;
      assert code[n..][0] == code[n] && code[n..][1..] == code[n + 1..];
      StepProgresses(I, k, s, w, n, env, st, fuel);
      var o := Step(I, k, code[n], env, st, fuel);
      if o.Done? { RunProgresses(I, k, s, w, n + 1, o.env, o.st, fuel); }
    } else {
      assert code[n..] == [];
    }
  }

  lemma {:induction false} StepProgresses(I: Interp, k: KernelValue, s: Scopes, w: Where, n: nat, env: Env, st: State, fuel: nat)
    requires Scoped(k, s) && n < |CodeAt(k, w)| && InScope(k, s, w, n, env)
    requires ScopedAt(k, s, w, n)
    ensures var o := Step(I, k, CodeAt(k, w)[n], env, st, fuel);
            !o.Stuck? && (o.Done? ==> InScope(k, s, w, n + 1, o.env))
    decreases fuel, 0, 1
  {
    hide Scoped, Run, Iterate, Simple;
    var ins := CodeAt(k, w)[n];
    var bound := BoundBefore(CodeAt(k, w), n);
    if ins.op.Loop? {
      var Loop(v, i, e, inc, b) := ins.op;
      LoopProgresses(I, k, s, v, b, env[i], env[e], env[inc], env, st, fuel);
    } else if ins.op.If? {
      if fuel != 0 {
        var arm := if I.truthy(env[ins.op.cond]) then Some(ins.op.thenBlock) else ins.op.elseBlock;
        if arm.Some? { BlockProgresses(I, k, s, arm.value, env, st, fuel - 1); } else { RunNothing(I, k, env, st, fuel - 1); }
      }
    } else {
      SimpleProgresses(I, ins, env, st);
    }
  }

  lemma RunNothing(I: Interp, k: KernelValue, env: Env, st: State, fuel: nat)
    ensures Run(I, k, [], env, st, fuel) == Done(env, st)
  {
  }

  /** An instruction that is not control flow binds what it may and goes on. */
  lemma SimpleProgresses(I: Interp, ins: Instr, env: Env, st: State)
    requires !ins.op.Loop? && !ins.op.If? && Uses(ins.op) <= env.Keys && Binds(ins) !! env.Keys
    ensures var o := Simple(I, ins, env, st);
            !o.Stuck? && (o.Done? ==> o.env.Keys == env.Keys + Binds(ins))
  {
    hide Eval;
  }

  lemma {:induction false} BlockProgresses(I: Interp, k: KernelValue, s: Scopes, b: BlockId, env: Env, st: State, fuel: nat)
    requires Scoped(k, s)
    requires Entry(s.must, Some(b)) <= env.Keys <= Entry(s.may, Some(b))
    ensures !Run(I, k, CodeOf(k, b), env, st, fuel).Stuck?
    decreases fuel, |CodeOf(k, b)|, 1
  {
    assert CodeAt(k, Some(b))[0..] == CodeOf(k, b);
    RunProgresses(I, k, s, Some(b), 0, env, st, fuel);
  }

  lemma {:induction false} LoopProgresses(I: Interp, k: KernelValue, s: Scopes, v: VarId, b: BlockId,
                                          i: Val, e: Val, inc: Val, env: Env, st: State, fuel: nat)
    requires Scoped(k, s) && LoopIds(v) !! env.Keys
    requires Entry(s.must, Some(b)) <= env.Keys + LoopIds(v) <= Entry(s.may, Some(b))
    ensures var o := Iterate(I, k, v, b, i, e, inc, env, st, fuel);
            !o.Stuck? && (o.Done? ==> o.env == env)
    decreases fuel, 0, 0
  {
    hide Scoped;
    if I.less(i, e) && fuel != 0 {
      var inner := BindLoop(v, i, env);
      assert inner.Keys == env.Keys + LoopIds(v);
      BlockProgresses(I, k, s, b, inner, st, fuel - 1);
      var o := Run(I, k, CodeOf(k, b), inner, st, fuel - 1);
      if o.Done? { LoopProgresses(I, k, s, v, b, I.plus(i, inc), e, inc, env, o.st, fuel - 1); }
    }
  }

  /** A well-scoped kernel never gets stuck, whatever the operators; it may run into an
      operator that is undefined there. */
  lemma ScopedNeverStuck(I: Interp, k: KernelValue, s: Scopes, st: State, fuel: nat)
    requires Scoped(k, s)
    ensures !RunKernel(I, k, st, fuel).Stuck?
  {
    assert CodeAt(k, None)[0..] == k.body;
    RunProgresses(I, k, s, None, 0, map[], st, fuel);
  }
}
