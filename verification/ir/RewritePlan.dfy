/**
 The rewrite plan: what every pass does to a kernel, and why that is harmless.

 A plan replaces ops, redirects operands and drops value ops, all at once, from
 facts about the kernel as it was. If in every environment that can arise each
 replaced op has its old value and each redirect `v -> w` has `w` in scope with
 the value of `v`, then the rewritten kernel runs as the old one did.

 The facts come from SSA: an id in scope still satisfies its defining equation.
 */
module RewritePlan {
  import opened Ir
  import opened Semantics

  datatype BlockPlan = BlockPlan(ops: seq<Op>, rho: map<ValueId, ValueId>)
  datatype Plan = Plan(dead: set<ValueId>, body: BlockPlan, blocks: map<BlockId, BlockPlan>)

  function PlanAt(p: Plan, w: Where): BlockPlan {
    match w
    case None => p.body
    case Some(b) => if b in p.blocks then p.blocks[b] else BlockPlan([], map[])
  }

  predicate IsDead(res: Option<ValueId>, dead: set<ValueId>) {
    res.Some? && res.value in dead
  }

  /** The block after the plan: dead results dropped, the rest replaced and redirected. */
  function Rewrite(code: Code, ops: seq<Op>, rho: map<ValueId, ValueId>, dead: set<ValueId>): Code
    requires |ops| == |code|
  {
    if code == [] then []
    else if IsDead(code[0].res, dead) then Rewrite(code[1..], ops[1..], rho, dead)
    else [Instr(Subst(ops[0], rho), code[0].res)] + Rewrite(code[1..], ops[1..], rho, dead)
  }

  predicate Fits(k: KernelValue, p: Plan) {
    && |p.body.ops| == |k.body|
    && p.blocks.Keys == k.blocks.Keys
    && forall b :: b in k.blocks ==> |p.blocks[b].ops| == |k.blocks[b]|
  }

  function Apply(k: KernelValue, p: Plan): KernelValue
    requires Fits(k, p)
  {
    KernelValue(Rewrite(k.body, p.body.ops, p.body.rho, p.dead),
                map b | b in k.blocks :: Rewrite(k.blocks[b], p.blocks[b].ops, p.blocks[b].rho, p.dead))
  }

  // ----- what is known of an environment -----

  /** The value depends on the operands and on memory nobody writes. */
  predicate Stable(op: Op, ro: set<string>) {
    IsValueOp(op) && !op.VectorLoad? && (op.Load? ==> op.src in ro)
  }

  ghost predicate SameOn(a: Memory, b: Memory, ro: set<string>) {
    forall n :: n in ro ==> Buf(a, n) == Buf(b, n)
  }

  /** The setting of a run: interpretation, kernel, read-only buffers and their contents. */
  datatype Setting = Setting(I: Interp, k: KernelValue, ro: set<string>, mem: Memory)

  ghost predicate Equation(c: Setting, op: Op, x: ValueId, env: Env)
    requires x in env
  {
    Stable(op, c.ro) ==> Uses(op) <= env.Keys && Eval(c.I, op, env, c.mem) == Some(env[x])
  }

  /** Every id in scope satisfies its defining equation. */
  ghost predicate Equations(c: Setting, env: Env) {
    forall w, i, x :: DefinedAt(c.k, w, i, x) && x in env ==> Equation(c, CodeAt(c.k, w)[i].op, x, env)
  }

  /** The value ops before position `n` of a block have their results in scope. */
  ghost predicate Executed(k: KernelValue, w: Where, n: int, env: Env) {
    forall i, x :: i < n && DefinedAt(k, w, i, x) && IsValueOp(CodeAt(k, w)[i].op) ==> x in env
  }

  /** A block's results come into scope in order. */
  ghost predicate InOrder(k: KernelValue, env: Env) {
    forall w, j, y :: DefinedAt(k, w, j, y) && y in env ==> Executed(k, w, j, env)
  }

  ghost predicate Facts(c: Setting, env: Env) {
    Equations(c, env) && InOrder(c.k, env)
  }

  // ----- when a plan is sound -----

  ghost predicate Redirects(c: Setting, v: ValueId, x: ValueId) {
    forall env :: Facts(c, env) && v in env ==> x in env && env[x] == env[v]
  }

  ghost predicate Replaces(c: Setting, op: Op, alt: Op)
    requires IsValueOp(op) && IsValueOp(alt)
  {
    forall env :: Facts(c, env) && Uses(op) <= env.Keys && Eval(c.I, op, env, c.mem).Some? ==>
      Uses(alt) <= env.Keys && Eval(c.I, alt, env, c.mem) == Eval(c.I, op, env, c.mem)
  }

  /** One instruction of a plan: dropped if dead, else replaced soundly and left
      without a use of a dead id. */
  ghost predicate InstrSound(c: Setting, p: Plan, ins: Instr, alt: Op, rho: map<ValueId, ValueId>) {
    if IsDead(ins.res, p.dead) then IsReader(ins.op) else
      && (forall u :: u in Uses(alt) ==> To(rho, u) !in p.dead)
      && (alt == ins.op || (Stable(ins.op, c.ro) && Stable(alt, c.ro) && Replaces(c, ins.op, alt)))
  }

  ghost predicate BlockSound(c: Setting, p: Plan, w: Where) {
    && |PlanAt(p, w).ops| == |CodeAt(c.k, w)|
    && (forall v :: v in PlanAt(p, w).rho ==> Redirects(c, v, PlanAt(p, w).rho[v]))
    && (forall i :: 0 <= i < |CodeAt(c.k, w)| ==>
          InstrSound(c, p, CodeAt(c.k, w)[i], PlanAt(p, w).ops[i], PlanAt(p, w).rho))
  }

  ghost predicate DefinedSomewhere(k: KernelValue, x: ValueId) {
    exists w, i :: DefinedAt(k, w, i, x)
  }

  ghost predicate Sound(c: Setting, p: Plan) {
    && Fits(c.k, p)
    && (forall x :: x in p.dead ==> DefinedSomewhere(c.k, x))
    && forall w :: BlockSound(c, p, w)
  }

  // ----- what keeps read-only memory read-only -----

  ghost predicate EffectsKeep(I: Interp, ro: set<string>) {
    forall tag, bufs, vals, st: State, n :: n in ro ==> Buf(I.effect(tag, bufs, vals, st), n) == Buf(st.mem, n)
  }

  predicate StoresOutside(op: Op, ro: set<string>) {
    (op.Store? || op.VectorStore?) ==> op.dst !in ro
  }

  ghost predicate NeverStored(k: KernelValue, ro: set<string>) {
    forall w, i :: 0 <= i < |CodeAt(k, w)| ==> StoresOutside(CodeAt(k, w)[i].op, ro)
  }

  ghost predicate Disciplined(c: Setting) {
    UniqueDefs(c.k) && EffectsKeep(c.I, c.ro) && NeverStored(c.k, c.ro)
  }

  // ----- evaluation in a larger environment -----

  lemma EvalExtends(I: Interp, op: Op, env: Env, env': Env, mem: Memory)
    requires IsValueOp(op) && Uses(op) <= env.Keys
    requires forall x :: x in env ==> x in env' && env'[x] == env[x]
    ensures Eval(I, op, env', mem) == Eval(I, op, env, mem)
  {
    SubstNothing(op);
    SubstEval(I, op, map[], env, env', mem);
  }

  lemma EvalStable(c: Setting, op: Op, env: Env, mem: Memory)
    requires Stable(op, c.ro) && Uses(op) <= env.Keys && SameOn(mem, c.mem, c.ro)
    ensures Eval(c.I, op, env, mem) == Eval(c.I, op, env, c.mem)
  {
  }

  // ----- the facts survive a run -----

  /** Binding the result of the instruction at (w, n) keeps everything known. */
  lemma BindKeeps(c: Setting, w: Where, n: nat, v: Val, env: Env)
    requires UniqueDefs(c.k) && Facts(c, env) && Executed(c.k, w, n, env)
    requires n < |CodeAt(c.k, w)|
    requires var ins := CodeAt(c.k, w)[n];
             ins.res.Some? && ins.res.value !in env && Uses(ins.op) <= env.Keys
             && (Stable(ins.op, c.ro) ==> Eval(c.I, ins.op, env, c.mem) == Some(v))
    ensures var env' := env[CodeAt(c.k, w)[n].res.value := v];
            Facts(c, env') && Executed(c.k, w, n + 1, env')
  {
    var x := CodeAt(c.k, w)[n].res.value;
    var env' := env[x := v];
    assert DefinedAt(c.k, w, n, x);
    forall u, i, y | DefinedAt(c.k, u, i, y) && y in env'
      ensures Equation(c, CodeAt(c.k, u)[i].op, y, env')
    {
      var op := CodeAt(c.k, u)[i].op;
      if y == x { assert u == w && i == n; }
      if Stable(op, c.ro) {
        assert Uses(op) <= env.Keys;
        EvalExtends(c.I, op, env, env', c.mem);
      }
    }
    forall u, j, y | DefinedAt(c.k, u, j, y) && y in env' ensures Executed(c.k, u, j, env') {
      if y == x { assert u == w && j == n; }
    }
  }

  ghost predicate LoopIdsFree(k: KernelValue, v: VarId) {
    forall w, i, x :: DefinedAt(k, w, i, x) ==> x !in LoopIds(v)
  }

  /** Entering a loop body binds ids no instruction defines. */
  lemma BindLoopKeeps(c: Setting, v: VarId, i: Val, env: Env)
    requires Facts(c, env) && LoopIdsFree(c.k, v)
    requires LoopIds(v) * env.Keys == {}
    ensures Facts(c, BindLoop(v, i, env))
  {
    var env' := BindLoop(v, i, env);
    forall x | x in env ensures x in env' && env'[x] == env[x] {
      assert x !in LoopIds(v) * env.Keys;
    }
    forall u, j, y | DefinedAt(c.k, u, j, y) && y in env'
      ensures Equation(c, CodeAt(c.k, u)[j].op, y, env') && Executed(c.k, u, j, env')
    {
      assert y !in LoopIds(v);
      assert y in env;
      var op := CodeAt(c.k, u)[j].op;
      if Stable(op, c.ro) { EvalExtends(c.I, op, env, env', c.mem); }
      assert Executed(c.k, u, j, env);
    }
  }

  // ----- the simulation -----

  function Visible(env: Env, dead: set<ValueId>): Env { env - dead }

  /** What the rewritten run must end with. */
  function Hide(o: Outcome, dead: set<ValueId>): Outcome {
    if o.Done? then Done(Visible(o.env, dead), o.st) else o
  }

  /** An operand read through a sound redirect has its old value. */
  lemma OperandKept(c: Setting, p: Plan, w: Where, u: ValueId, env: Env)
    requires BlockSound(c, p, w) && Facts(c, env) && u in env
    requires To(PlanAt(p, w).rho, u) !in p.dead
    ensures var u' := To(PlanAt(p, w).rho, u);
            u' in Visible(env, p.dead) && Visible(env, p.dead)[u'] == env[u]
  {
    if u in PlanAt(p, w).rho { assert Redirects(c, u, PlanAt(p, w).rho[u]); }
  }

  lemma OperandsKept(c: Setting, p: Plan, w: Where, op: Op, env: Env)
    requires BlockSound(c, p, w) && Facts(c, env) && Uses(op) <= env.Keys
    requires forall u :: u in Uses(op) ==> To(PlanAt(p, w).rho, u) !in p.dead
    ensures forall u :: u in Uses(op) ==>
              var u' := To(PlanAt(p, w).rho, u);
              u' in Visible(env, p.dead) && Visible(env, p.dead)[u'] == env[u]
  {
    forall u | u in Uses(op) ensures
      var u' := To(PlanAt(p, w).rho, u);
      u' in Visible(env, p.dead) && Visible(env, p.dead)[u'] == env[u]
    {
      OperandKept(c, p, w, u, env);
    }
  }

  /** The instruction at (w, n), seen from an environment in which it can run. */
  ghost predicate Poised(c: Setting, p: Plan, w: Where, n: nat, env: Env) {
    && Disciplined(c) && BlockSound(c, p, w) && Facts(c, env) && Executed(c.k, w, n, env)
    && n < |CodeAt(c.k, w)| && Uses(CodeAt(c.k, w)[n].op) <= env.Keys
  }

  /** A value op that yields v: dropped, or replaced by one that yields v. */
  lemma ValueSimulates(c: Setting, p: Plan, w: Where, n: nat, env: Env, mem: Memory, v: Val)
    requires Poised(c, p, w, n, env) && SameOn(mem, c.mem, c.ro)
    requires IsValueOp(CodeAt(c.k, w)[n].op) && Eval(c.I, CodeAt(c.k, w)[n].op, env, mem) == Some(v)
    ensures |PlanAt(p, w).ops| == |CodeAt(c.k, w)|
    ensures !IsDead(CodeAt(c.k, w)[n].res, p.dead) ==>
              var alt := Subst(PlanAt(p, w).ops[n], PlanAt(p, w).rho);
              IsValueOp(alt) && Uses(alt) <= Visible(env, p.dead).Keys && Eval(c.I, alt, Visible(env, p.dead), mem) == Some(v)
  {
    hide Facts, Executed, UniqueDefs, Replaces, Redirects, SameOn, Eval;
    var ins, alt, rho := CodeAt(c.k, w)[n], PlanAt(p, w).ops[n], PlanAt(p, w).rho;
    InstrOf(c, p, w, n);
    hide BlockSound;
    if !IsDead(ins.res, p.dead) {
      if alt != ins.op {
        EvalStable(c, ins.op, env, mem);
        ReplacedValue(c, ins.op, alt, env);
        EvalStable(c, alt, env, mem);
      }
      OperandsKept(c, p, w, alt, env);
      SubstEval(c.I, alt, rho, env, Visible(env, p.dead), mem);
    }
  }

  /** Binding, in the environment the rewritten run sees. */
  lemma BindSimulates(res: Option<ValueId>, v: Val, env: Env, st: State, dead: set<ValueId>)
    ensures var o := Bind(res, v, env, st);
            o.Done? ==>
              if IsDead(res, dead) then Visible(o.env, dead) == Visible(env, dead) && o.st == st
              else Bind(res, v, Visible(env, dead), st) == Hide(o, dead)
  {
    if res.Some? && res.value !in env && res.value !in dead {
      assert Visible(env[res.value := v], dead) == Visible(env, dead)[res.value := v];
    }
  }

  /** Binding the instruction's own result keeps what is known. */
  lemma BoundKeeps(c: Setting, w: Where, n: nat, v: Val, env: Env, st: State)
    requires UniqueDefs(c.k) && Facts(c, env) && Executed(c.k, w, n, env)
    requires n < |CodeAt(c.k, w)| && Uses(CodeAt(c.k, w)[n].op) <= env.Keys
    requires Stable(CodeAt(c.k, w)[n].op, c.ro) ==> Eval(c.I, CodeAt(c.k, w)[n].op, env, c.mem) == Some(v)
    ensures var o := Bind(CodeAt(c.k, w)[n].res, v, env, st);
            o.Done? ==> Facts(c, o.env) && Executed(c.k, w, n + 1, o.env)
  {
    hide Facts, Executed, UniqueDefs;
    var res := CodeAt(c.k, w)[n].res;
    if res.None? {
      ExecutedPast(c.k, w, n, env);
    } else if res.value !in env {
      BindKeeps(c, w, n, v, env);
    }
  }

  /** One instruction that is not control flow. */
  lemma SimpleSimulates(c: Setting, p: Plan, w: Where, n: nat, env: Env, st: State)
    requires Poised(c, p, w, n, env) && SameOn(st.mem, c.mem, c.ro)
    requires !CodeAt(c.k, w)[n].op.Loop? && !CodeAt(c.k, w)[n].op.If?
    ensures |PlanAt(p, w).ops| == |CodeAt(c.k, w)|
    ensures var ins := CodeAt(c.k, w)[n];
            var o := Simple(c.I, ins, env, st);
            o.Done? ==>
              && Facts(c, o.env) && Executed(c.k, w, n + 1, o.env) && SameOn(o.st.mem, c.mem, c.ro)
              && (IsDead(ins.res, p.dead) ==> Visible(o.env, p.dead) == Visible(env, p.dead) && o.st == st)
              && (!IsDead(ins.res, p.dead) ==>
                    var alt := Subst(PlanAt(p, w).ops[n], PlanAt(p, w).rho);
                    var env' := Visible(env, p.dead);
                    && !alt.Loop? && !alt.If? && Uses(alt) <= env'.Keys
                    && Simple(c.I, Instr(alt, ins.res), env', st) == Hide(o, p.dead))
  {
    hide Facts, Executed, UniqueDefs, Replaces, Redirects, SameOn, Eval, Act, Bind, NeverStored, EffectsKeep;
    var ins := CodeAt(c.k, w)[n];
    InstrOf(c, p, w, n);
    var o := Simple(c.I, ins, env, st);
    if o.Done? {
      if IsValueOp(ins.op) {
        if Stable(ins.op, c.ro) { EvalStable(c, ins.op, env, st.mem); }
        var v := Eval(c.I, ins.op, env, st.mem).value;
        ValueSimulates(c, p, w, n, env, st.mem, v);
        BindSimulates(ins.res, v, env, st, p.dead);
        BoundKeeps(c, w, n, v, env, st);
        BindKeepsState(ins.res, v, env, st);
      } else {
        ActKeepsReadOnly(c, w, n, env, st);
        ExecutedPast(c.k, w, n, env);
        var (st', v) := Act(c.I, ins.op, env, st);
        if IsDead(ins.res, p.dead) {
          FetchKeepsState(c.I, ins.op, env, st);
        } else {
          OperandsKept(c, p, w, ins.op, env);
          SubstAct(c.I, ins.op, PlanAt(p, w).rho, env, Visible(env, p.dead), st);
        }
        if v.Some? {
          BindSimulates(ins.res, v.value, env, st', p.dead);
          BoundKeeps(c, w, n, v.value, env, st');
          BindKeepsState(ins.res, v.value, env, st');
        }
      }
    }
  }

  lemma FetchKeepsState(I: Interp, op: Op, env: Env, st: State)
    requires op.Fetch? && Uses(op) <= env.Keys
    ensures Act(I, op, env, st).0 == st && Act(I, op, env, st).1.Some?
  {
  }

  lemma BindKeepsState(res: Option<ValueId>, v: Val, env: Env, st: State)
    ensures var o := Bind(res, v, env, st); o.Done? ==> o.st == st
  {
  }

  lemma ReplacedValue(c: Setting, op: Op, alt: Op, env: Env)
    requires IsValueOp(op) && IsValueOp(alt) && Replaces(c, op, alt) && Facts(c, env)
    requires Uses(op) <= env.Keys && Eval(c.I, op, env, c.mem).Some?
    ensures Uses(alt) <= env.Keys && Eval(c.I, alt, env, c.mem) == Eval(c.I, op, env, c.mem)
  {
  }

  lemma ExecutedPast(k: KernelValue, w: Where, n: nat, env: Env)
    requires Executed(k, w, n, env) && n < |CodeAt(k, w)|
    requires var ins := CodeAt(k, w)[n]; !IsValueOp(ins.op) || ins.res.None?
    ensures Executed(k, w, n + 1, env)
  {
  }

  lemma ActKeepsReadOnly(c: Setting, w: Where, n: nat, env: Env, st: State)
    requires Disciplined(c) && SameOn(st.mem, c.mem, c.ro)
    requires n < |CodeAt(c.k, w)|
    requires var op := CodeAt(c.k, w)[n].op;
             !IsValueOp(op) && !op.Loop? && !op.If? && Uses(op) <= env.Keys
    ensures SameOn(Act(c.I, CodeAt(c.k, w)[n].op, env, st).0.mem, c.mem, c.ro)
  {
    assert StoresOutside(CodeAt(c.k, w)[n].op, c.ro);
  }

  /** The step of the induction over a block: its tail after position n. */
  function Tail(k: KernelValue, p: Plan, w: Where, n: nat): Code
    requires n <= |CodeAt(k, w)| == |PlanAt(p, w).ops|
  {
    Rewrite(CodeAt(k, w)[n..], PlanAt(p, w).ops[n..], PlanAt(p, w).rho, p.dead)
  }

  lemma CodeAtApply(k: KernelValue, p: Plan, w: Where)
    requires Fits(k, p)
    ensures |CodeAt(k, w)| == |PlanAt(p, w).ops|
    ensures CodeAt(Apply(k, p), w) == Tail(k, p, w, 0)
  {
    assert CodeAt(k, w)[0..] == CodeAt(k, w);
    assert PlanAt(p, w).ops[0..] == PlanAt(p, w).ops;
  }

  /** From any point of any block, with the facts in force, the rewritten tail ends
      as the original tail does, unless the original gets stuck. */
  lemma {:induction false} RunSimulates(c: Setting, p: Plan, w: Where, n: nat, env: Env, st: State, fuel: nat)
    requires Disciplined(c) && Sound(c, p) && n <= |CodeAt(c.k, w)|
    requires Facts(c, env) && Executed(c.k, w, n, env) && SameOn(st.mem, c.mem, c.ro)
    ensures BlockSound(c, p, w)
    ensures var o := Run(c.I, c.k, CodeAt(c.k, w)[n..], env, st, fuel);
            && (!Fails(o) ==> Run(c.I, Apply(c.k, p), Tail(c.k, p, w, n), Visible(env, p.dead), st, fuel) == Hide(o, p.dead))
            && (o.Done? ==> SameOn(o.st.mem, c.mem, c.ro))
    decreases fuel, |CodeAt(c.k, w)| - n, 0
  {
    hide Facts, Executed, SameOn, BlockSound, Sound, Disciplined, Apply, Step, Subst, PlanAt, Tail, Run, CodeAt, Fits, Hide, Visible;
    SoundAt(c, p, w);
    var code := CodeAt(c.k, w);
    if n < |code| {
      assert code[n..] == [code[n]] + code[n + 1..];
      RunCons(c.I, c.k, code[n], code[n + 1..], env, st, fuel);
      var o := Step(c.I, c.k, code[n], env, st, fuel);
      if !Fails(o) {
        TailSimulates(c, p, w, n, env, st, fuel);
        if o.Done? { RunSimulates(c, p, w, n + 1, o.env, o.st, fuel); }
      }
    } else {
      assert code[n..] == [];
      TailEnd(c.k, p, w);
      RunNothing(c.I, c.k, env, st, fuel);
      RunNothing(c.I, Apply(c.k, p), Visible(env, p.dead), st, fuel);
      assert Hide(Done(env, st), p.dead) == Done(Visible(env, p.dead), st) by { HideDone(env, st, p.dead); }
    }
  }

  lemma HideDone(env: Env, st: State, dead: set<ValueId>)
    ensures Hide(Done(env, st), dead) == Done(Visible(env, dead), st)
  {
  }

  lemma SoundAt(c: Setting, p: Plan, w: Where)
    requires Sound(c, p)
    ensures Fits(c.k, p) && BlockSound(c, p, w) && |PlanAt(p, w).ops| == |CodeAt(c.k, w)|
  {
  }

  /** The first instruction of the tail, if it is still there. */
  lemma {:induction false} TailSimulates(c: Setting, p: Plan, w: Where, n: nat, env: Env, st: State, fuel: nat)
    requires Disciplined(c) && Sound(c, p) && BlockSound(c, p, w) && n < |CodeAt(c.k, w)|
    requires Facts(c, env) && Executed(c.k, w, n, env) && SameOn(st.mem, c.mem, c.ro)
    requires !Fails(Step(c.I, c.k, CodeAt(c.k, w)[n], env, st, fuel))
    ensures |PlanAt(p, w).ops| == |CodeAt(c.k, w)|
    ensures var o := Step(c.I, c.k, CodeAt(c.k, w)[n], env, st, fuel);
            && (o.Done? ==> Facts(c, o.env) && Executed(c.k, w, n + 1, o.env) && SameOn(o.st.mem, c.mem, c.ro))
            && Run(c.I, Apply(c.k, p), Tail(c.k, p, w, n), Visible(env, p.dead), st, fuel)
               == if o.Done? then Run(c.I, Apply(c.k, p), Tail(c.k, p, w, n + 1), Visible(o.env, p.dead), o.st, fuel)
                  else Hide(o, p.dead)
    decreases fuel, 0, 3
  {
    assert Fits(c.k, p);
    hide Facts, Executed, SameOn, Sound, Disciplined, Apply, Step, Subst, Tail, Run, BlockSound, PlanAt;
    StepSimulates(c, p, w, n, env, st, fuel);
    TailStep(c.k, p, w, n);
    var ins, rest := CodeAt(c.k, w)[n], Tail(c.k, p, w, n + 1);
    if IsDead(ins.res, p.dead) {
      assert [] + rest == rest;
    } else {
      var alt := Instr(Subst(PlanAt(p, w).ops[n], PlanAt(p, w).rho), ins.res);
      RunCons(c.I, Apply(c.k, p), alt, rest, Visible(env, p.dead), st, fuel);
    }
  }

  lemma RunNothing(I: Interp, k: KernelValue, env: Env, st: State, fuel: nat)
    ensures Run(I, k, [], env, st, fuel) == Done(env, st)
  {
  }

  lemma TailEnd(k: KernelValue, p: Plan, w: Where)
    requires |PlanAt(p, w).ops| == |CodeAt(k, w)|
    ensures Tail(k, p, w, |CodeAt(k, w)|) == []
  {
  }

  /** One instruction: skipped if dead, otherwise its replacement steps alike. */
  lemma {:induction false} StepSimulates(c: Setting, p: Plan, w: Where, n: nat, env: Env, st: State, fuel: nat)
    requires Disciplined(c) && Sound(c, p) && BlockSound(c, p, w) && n < |CodeAt(c.k, w)|
    requires Facts(c, env) && Executed(c.k, w, n, env) && SameOn(st.mem, c.mem, c.ro)
    requires !Fails(Step(c.I, c.k, CodeAt(c.k, w)[n], env, st, fuel))
    ensures |PlanAt(p, w).ops| == |CodeAt(c.k, w)|
    ensures var ins := CodeAt(c.k, w)[n];
            var o := Step(c.I, c.k, ins, env, st, fuel);
            var alt := Instr(Subst(PlanAt(p, w).ops[n], PlanAt(p, w).rho), ins.res);
            && (o.Done? ==> Facts(c, o.env) && Executed(c.k, w, n + 1, o.env) && SameOn(o.st.mem, c.mem, c.ro))
            && (IsDead(ins.res, p.dead) ==> o.Done? && Visible(o.env, p.dead) == Visible(env, p.dead) && o.st == st)
            && (!IsDead(ins.res, p.dead) ==> Step(c.I, Apply(c.k, p), alt, Visible(env, p.dead), st, fuel) == Hide(o, p.dead))
    decreases fuel, 0, 2
  {
    hide Facts, Executed, UniqueDefs, Replaces, Redirects, SameOn;
    InstrOf(c, p, w, n);
    hide BlockSound;
    var ins := CodeAt(c.k, w)[n];
    if ins.op.Loop? || ins.op.If? {
      ControlSimulates(c, p, w, n, env, st, fuel);
    } else {
      SimpleSimulates(c, p, w, n, env, st);
    }
  }

  lemma TailStep(k: KernelValue, p: Plan, w: Where, n: nat)
    requires n < |CodeAt(k, w)| == |PlanAt(p, w).ops|
    ensures var ins := CodeAt(k, w)[n];
            Tail(k, p, w, n) ==
              (if IsDead(ins.res, p.dead) then [] else [Instr(Subst(PlanAt(p, w).ops[n], PlanAt(p, w).rho), ins.res)])
              + Tail(k, p, w, n + 1)
  {
    var code, ops := CodeAt(k, w), PlanAt(p, w).ops;
    assert code[n..][0] == code[n] && code[n..][1..] == code[n + 1..];
    assert ops[n..][0] == ops[n] && ops[n..][1..] == ops[n + 1..];
  }

  lemma InstrOf(c: Setting, p: Plan, w: Where, n: nat)
    requires BlockSound(c, p, w) && n < |CodeAt(c.k, w)|
    ensures |PlanAt(p, w).ops| == |CodeAt(c.k, w)|
    ensures InstrSound(c, p, CodeAt(c.k, w)[n], PlanAt(p, w).ops[n], PlanAt(p, w).rho)
  {
  }

  /** A loop's induction ids are never defined, so never dropped. */
  lemma LoopIdsAlive(c: Setting, p: Plan, w: Where, n: nat)
    requires UniqueDefs(c.k) && Sound(c, p) && n < |CodeAt(c.k, w)| && CodeAt(c.k, w)[n].op.Loop?
    ensures LoopIdsFree(c.k, CodeAt(c.k, w)[n].op.loopVar)
    ensures LoopIds(CodeAt(c.k, w)[n].op.loopVar) !! p.dead
  {
    forall x | x in p.dead ensures x !in LoopIds(CodeAt(c.k, w)[n].op.loopVar) {
      assert DefinedSomewhere(c.k, x);
      var u, j :| DefinedAt(c.k, u, j, x);
    }
  }

  lemma {:induction false} ControlSimulates(c: Setting, p: Plan, w: Where, n: nat, env: Env, st: State, fuel: nat)
    requires Disciplined(c) && Sound(c, p) && BlockSound(c, p, w) && n < |CodeAt(c.k, w)|
    requires Facts(c, env) && Executed(c.k, w, n, env) && SameOn(st.mem, c.mem, c.ro)
    requires CodeAt(c.k, w)[n].op.Loop? || CodeAt(c.k, w)[n].op.If?
    requires !Fails(Step(c.I, c.k, CodeAt(c.k, w)[n], env, st, fuel))
    ensures var ins := CodeAt(c.k, w)[n];
            var o := Step(c.I, c.k, ins, env, st, fuel);
            var alt := Instr(Subst(PlanAt(p, w).ops[n], PlanAt(p, w).rho), ins.res);
            && !IsDead(ins.res, p.dead)
            && Step(c.I, Apply(c.k, p), alt, Visible(env, p.dead), st, fuel) == Hide(o, p.dead)
            && (o.Done? ==> o.env == env && Executed(c.k, w, n + 1, env) && SameOn(o.st.mem, c.mem, c.ro))
    decreases fuel, 0, 1
  {
    hide Facts, Executed, UniqueDefs, EffectsKeep, NeverStored, SameOn, Sound, BlockSound, Run, Iterate, Apply, LoopIdsFree;
    ExecutedPast(c.k, w, n, env);
    ControlOperands(c, p, w, n, env);
    hide PlanAt, Subst, Uses;
    var op := CodeAt(c.k, w)[n].op;
    if op.Loop? {
      LoopIdsAlive(c, p, w, n);
      LoopSimulates(c, p, op.loopVar, op.body, env[op.start], env[op.end], env[op.step], env, st, fuel);
    } else if fuel != 0 {
      var arm := if c.I.truthy(env[op.cond]) then Some(op.thenBlock) else op.elseBlock;
      BranchSimulates(c, p, arm, env, st, fuel - 1);
    }
  }

  /** A loop or branch stays, with operands of the same value. */
  lemma ControlOperands(c: Setting, p: Plan, w: Where, n: nat, env: Env)
    requires BlockSound(c, p, w) && n < |CodeAt(c.k, w)| && Facts(c, env)
    requires var op := CodeAt(c.k, w)[n].op; (op.Loop? || op.If?) && Uses(op) <= env.Keys
    ensures |PlanAt(p, w).ops| == |CodeAt(c.k, w)| && !IsDead(CodeAt(c.k, w)[n].res, p.dead)
    ensures var op, seen, alt := CodeAt(c.k, w)[n].op, Visible(env, p.dead), Subst(PlanAt(p, w).ops[n], PlanAt(p, w).rho);
            && Uses(alt) <= seen.Keys
            && if op.Loop? then
                 && alt.Loop? && alt.loopVar == op.loopVar && alt.body == op.body && {alt.start, alt.end, alt.step} <= seen.Keys
                 && {op.start, op.end, op.step} <= env.Keys
                 && seen[alt.start] == env[op.start] && seen[alt.end] == env[op.end] && seen[alt.step] == env[op.step]
               else
                 && alt.If? && alt.thenBlock == op.thenBlock && alt.elseBlock == op.elseBlock
                 && alt.cond in seen && op.cond in env && seen[alt.cond] == env[op.cond]
  {
    var op, rho := CodeAt(c.k, w)[n].op, PlanAt(p, w).rho;
    InstrOf(c, p, w, n);
    hide BlockSound, Facts, Replaces, Redirects;
    assert PlanAt(p, w).ops[n] == op;
    OperandsKept(c, p, w, op, env);
    UsesOfSubst(op, rho);
  }

  /** Entering a block from its top: a loop body, or the arm an `If` takes. */
  function ArmCode(k: KernelValue, arm: Where): Code {
    if arm.Some? then CodeOf(k, arm.value) else []
  }

  lemma {:induction false} BranchSimulates(c: Setting, p: Plan, arm: Where, env: Env, st: State, fuel: nat)
    requires Disciplined(c) && Sound(c, p)
    requires Facts(c, env) && SameOn(st.mem, c.mem, c.ro)
    ensures var o := Run(c.I, c.k, ArmCode(c.k, arm), env, st, fuel);
            && (!Fails(o) ==> Run(c.I, Apply(c.k, p), ArmCode(Apply(c.k, p), arm), Visible(env, p.dead), st, fuel) == Hide(o, p.dead))
            && (o.Done? ==> SameOn(o.st.mem, c.mem, c.ro))
    decreases fuel, |ArmCode(c.k, arm)|, 1
  {
    if arm.Some? {
      assert CodeAt(c.k, arm)[0..] == CodeAt(c.k, arm);
      CodeAtApply(c.k, p, arm);
      RunSimulates(c, p, arm, 0, env, st, fuel);
    }
  }

  lemma {:induction false} LoopSimulates(c: Setting, p: Plan, v: VarId, b: BlockId, i: Val, e: Val, inc: Val,
                                         env: Env, st: State, fuel: nat)
    requires Disciplined(c) && Sound(c, p) && LoopIdsFree(c.k, v) && LoopIds(v) !! p.dead
    requires Facts(c, env) && SameOn(st.mem, c.mem, c.ro)
    requires !Fails(Iterate(c.I, c.k, v, b, i, e, inc, env, st, fuel))
    ensures var o := Iterate(c.I, c.k, v, b, i, e, inc, env, st, fuel);
            && Iterate(c.I, Apply(c.k, p), v, b, i, e, inc, Visible(env, p.dead), st, fuel) == Hide(o, p.dead)
            && (o.Done? ==> o.env == env && SameOn(o.st.mem, c.mem, c.ro))
    decreases fuel, 0, 0
  {
    hide Facts, UniqueDefs, SameOn, Sound, Disciplined, Run, LoopIdsFree;
    if c.I.less(i, e) && fuel != 0 {
      var inner := BindLoop(v, i, env);
      assert Visible(inner, p.dead) == BindLoop(v, i, Visible(env, p.dead));
      BindLoopKeeps(c, v, i, env);
      BranchSimulates(c, p, Some(b), inner, st, fuel - 1);
      var o := Run(c.I, c.k, CodeOf(c.k, b), inner, st, fuel - 1);
      if o.Done? {
        LoopSimulates(c, p, v, b, c.I.plus(i, inc), e, inc, env, o.st, fuel - 1);
      }
    }
  }

  /** A sound plan preserves every run of the kernel that does not get stuck, and every id
      that survives keeps its value. */
  lemma PlanPreserves(c: Setting, p: Plan, fuel: nat)
    requires Disciplined(c) && Sound(c, p)
    requires !Fails(RunKernel(c.I, c.k, State(c.mem, []), fuel))
    ensures SameForObserver(RunKernel(c.I, c.k, State(c.mem, []), fuel),
                            RunKernel(c.I, Apply(c.k, p), State(c.mem, []), fuel))
    ensures RunKernel(c.I, Apply(c.k, p), State(c.mem, []), fuel)
            == Hide(RunKernel(c.I, c.k, State(c.mem, []), fuel), p.dead)
  {
    assert CodeAt(c.k, None)[0..] == c.k.body;
    CodeAtApply(c.k, p, None);
    assert Visible(map[], p.dead) == map[];
    RunSimulates(c, p, None, 0, map[], State(c.mem, []), fuel);
  }
}
