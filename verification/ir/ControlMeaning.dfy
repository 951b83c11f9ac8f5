/**
 What loops and branches mean, on a body that shows the induction variable.
 */
module ControlMeaning {
  import opened Ir
  import opened Semantics

  /** Integer comparison and addition for the loop counter, and effects that leave memory alone. */
  ghost predicate Counts(I: Interp) {
    && (forall a, b :: I.less(a, b) <==> a < b) && (forall a, b :: I.plus(a, b) == a + b)
    && (forall t, bs, vs, st: State :: I.effect(t, bs, vs, st) == st.mem)
  }

  lemma CountsAt(I: Interp, a: Val, b: Val, t: string, vs: seq<Val>, st: State)
    requires Counts(I)
    ensures (I.less(a, b) <==> a < b) && I.plus(a, b) == a + b && I.effect(t, {}, vs, st) == st.mem
  {
  }

  /** A body that shows one id. */
  function Show(tag: string, x: ValueId): Code { [Instr(Effect(tag, {}, [x]), None)] }

  function Shows(tag: string, v: Val): Event { Effected(tag, [v], map[]) }

  /** The n values from i on, inc apart. */
  function Visits(tag: string, i: Val, inc: Val, n: nat): seq<Event>
    decreases n
  {
    if n == 0 then [] else [Shows(tag, i)] + Visits(tag, i + inc, inc, n - 1)
  }

  lemma ShowRuns(I: Interp, k: KernelValue, tag: string, x: ValueId, env: Env, st: State, fuel: nat)
    requires Counts(I) && x in env
    ensures Run(I, k, Show(tag, x), env, st, fuel) == Done(env, State(st.mem, st.trace + [Shows(tag, env[x])]))
  {
    var ins := Show(tag, x)[0];
    assert Show(tag, x) == [ins] + [];
    assert Vals([x], env) == [env[x]] && Shown({}, st.mem) == map[];
    CountsAt(I, 0, 0, tag, [env[x]], st);
    RunCons(I, k, ins, [], env, st, fuel);
  }

  /** A loop from i to e visits i, i + inc, i + 2 * inc, ..., as many as lie below e. */
  lemma {:induction false} LoopVisits(I: Interp, k: KernelValue, v: VarId, b: BlockId, tag: string, x: ValueId,
      i: Val, e: Val, inc: Val, n: nat, env: Env, st: State, fuel: nat)
    requires Counts(I) && x in LoopIds(v) && LoopIds(v) * env.Keys == {} && CodeOf(k, b) == Show(tag, x)
    requires Below(i, e, inc, n) && fuel >= n
    ensures Iterate(I, k, v, b, i, e, inc, env, st, fuel) == Done(env, State(st.mem, st.trace + Visits(tag, i, inc, n)))
    decreases n
  {
    CountsAt(I, i, e, tag, [], st);
    CountsAt(I, i, inc, tag, [], st);
    hide Counts, Run, Show, Shows, Below;
    BelowNext(i, e, inc, n);
    if n == 0 {
      assert st.trace + [] == st.trace;
    } else {
      ShowRuns(I, k, tag, x, BindLoop(v, i, env), st, fuel - 1);
      var st1 := State(st.mem, st.trace + [Shows(tag, i)]);
      LoopVisits(I, k, v, b, tag, x, i + inc, e, inc, n - 1, env, st1, fuel - 1);
      assert st.trace + [Shows(tag, i)] + Visits(tag, i + inc, inc, n - 1) == st.trace + Visits(tag, i, inc, n);
    }
  }

  /** Of i, i + inc, i + 2 * inc, ... exactly the first n lie below e. */
  predicate Below(i: Val, e: Val, inc: Val, n: nat) {
    i + n * inc >= e && (n > 0 ==> inc > 0 && i + (n - 1) * inc < e)
  }

  lemma BelowNext(i: Val, e: Val, inc: Val, n: nat)
    requires Below(i, e, inc, n)
    ensures n > 0 <==> i < e
    ensures n > 0 ==> Below(i + inc, e, inc, n - 1)
  {
    if n > 0 {
      assert (n - 1) * inc >= 0;
      assert (n - 1) * inc == (n - 2) * inc + inc && n * inc == (n - 1) * inc + inc;
    }
  }

  /** A branch runs its first block where the condition holds, else its second if there is one. */
  lemma BranchTakes(I: Interp, k: KernelValue, c: ValueId, t: BlockId, e: Option<BlockId>, x: ValueId, env: Env, st: State, fuel: nat)
    requires Counts(I) && c in env && x in env && fuel > 0
    requires CodeOf(k, t) == Show("then", x) && (e.Some? ==> CodeOf(k, e.value) == Show("else", x))
    ensures Step(I, k, Instr(If(c, t, e), None), env, st, fuel)
            == Done(env, State(st.mem, st.trace + (if I.truthy(env[c]) then [Shows("then", env[x])]
                                                   else if e.Some? then [Shows("else", env[x])] else [])))
  {
    ShowRuns(I, k, "then", x, env, st, fuel - 1);
    ShowRuns(I, k, "else", x, env, st, fuel - 1);
    assert st.trace + [] == st.trace;
    assert Run(I, k, [], env, st, fuel - 1) == Done(env, st);
    hide Run, Step, Counts, Show, Shows;
    BranchStep(I, k, c, t, e, env, st, fuel);
  }

  lemma BranchStep(I: Interp, k: KernelValue, c: ValueId, t: BlockId, e: Option<BlockId>, env: Env, st: State, fuel: nat)
    requires c in env && fuel > 0
    ensures var o := Run(I, k, if I.truthy(env[c]) then CodeOf(k, t) else if e.Some? then CodeOf(k, e.value) else [], env, st, fuel - 1);
            Step(I, k, Instr(If(c, t, e), None), env, st, fuel) == if o.Done? then Done(env, o.st) else o
  {
  }
}
