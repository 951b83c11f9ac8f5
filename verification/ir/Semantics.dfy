/**
 What one thread does when it runs a kernel.

 Operators are uninterpreted: an `Interp` supplies them, so a statement "for every
 interpretation" covers integers, floats and anything another thread contributes
 through a `Fetch` or an `Effect`. Nested blocks have C scoping, as the emitted `for`/`if` do:
 what a nested block defines is forgotten when it ends.

 `Stuck` stands for what the emitted program must never do: use an id that is not
 in scope, or define one that is. `Undefined` is an operator applied outside its
 domain, as in a division by zero. Fuel is spent on loop iterations and nested blocks
 only; statements quantify over it.
 */
module Semantics {
  import opened Ir

  type Val = int
  type Buffer = seq<Val>
  type Memory = map<string, Buffer>
  type Env = map<ValueId, Val>

  datatype IndexVal = At(at: Val) | Span(from: Val, length: int)

  /** What other threads and the host can observe. */
  datatype Event =
    | Stored(dst: string, idx: seq<IndexVal>, val: Val)
    | VectorStored(dst: string, off: Val, len: nat, val: Val)
    | Effected(tag: string, vals: seq<Val>, seen: map<string, Buffer>)

  datatype State = State(mem: Memory, trace: seq<Event>)

  datatype Interp = Interp(
    programId: nat -> Val,
    bin: (BinOpKind, Val, Val) -> Option<Val>,
    un: (UnaryOpKind, Val) -> Val,
    cast: (DType, Val) -> Val,
    act: (ActKind, Val) -> Val,
    broadcast: (Shape, Val) -> Val,
    reshape: (Shape, Val) -> Val,
    expandDims: (nat, Val) -> Val,
    transpose: Val -> Val,
    fill: (int, DType, Shape) -> Val,
    pureOp: (string, seq<Val>) -> Val,
    truthy: Val -> bool,
    less: (Val, Val) -> bool,
    plus: (Val, Val) -> Val,
    read: (Buffer, seq<IndexVal>) -> Val,
    write: (Buffer, seq<IndexVal>, Val) -> Buffer,
    vectorRead: (Buffer, Val, nat) -> Val,
    vectorWrite: (Buffer, Val, nat, Val) -> Buffer,
    fetch: (string, set<string>, seq<Val>, State) -> Val,
    effect: (string, set<string>, seq<Val>, State) -> Memory)

  /** A partial operator yields v wherever it is defined. */
  predicate IfDefined(o: Option<Val>, v: Val) { o.Some? ==> o.value == v }

  datatype Outcome = Stuck | Undefined | OutOfFuel | Done(env: Env, st: State)

  /** Runs of which nothing is promised. */
  predicate Fails(o: Outcome) { o.Stuck? || o.Undefined? }

  ghost function Buf(mem: Memory, name: string): Buffer {
    if name in mem then mem[name] else []
  }

  /** What an effect shows of the buffers it names. */
  ghost function Shown(bufs: set<string>, mem: Memory): map<string, Buffer> {
    map b | b in bufs :: Buf(mem, b)
  }

  ghost function EvalIndex(i: IndexExpr, env: Env): IndexVal
    requires !i.Const? ==> i.id in env
  {
    match i
    case Value(v) => At(env[v])
    case Const(n) => At(n)
    case Range(v, n) => Span(env[v], n)
  }

  ghost function EvalIndices(indices: seq<IndexExpr>, env: Env): seq<IndexVal>
    requires IndexIds(indices) <= env.Keys
  {
    seq(|indices|, i requires 0 <= i < |indices| =>
      assert indices[i] in indices; EvalIndex(indices[i], env))
  }

  ghost function Vals(args: seq<ValueId>, env: Env): seq<Val>
    requires (set a | a in args) <= env.Keys
  {
    seq(|args|, i requires 0 <= i < |args| => assert args[i] in args; env[args[i]])
  }

  /** The value of a value op; `None` when a partial operator is undefined there. */
  ghost function Eval(I: Interp, op: Op, env: Env, mem: Memory): Option<Val>
    requires IsValueOp(op) && Uses(op) <= env.Keys
  {
    match op
    case ConstOp(n) => Some(n)
    case ProgramId(axis) => Some(I.programId(axis))
    case BinOp(k, l, r) => I.bin(k, env[l], env[r])
    case UnaryOp(k, x) => Some(I.un(k, env[x]))
    case Cast(x, d) => Some(I.cast(d, env[x]))
    case Activation(k, x) => Some(I.act(k, env[x]))
    case Select(c, a, b) => Some(if I.truthy(env[c]) then env[a] else env[b])
    case Broadcast(x, s) => Some(I.broadcast(s, env[x]))
    case Reshape(x, s) => Some(I.reshape(s, env[x]))
    case ExpandDims(x, a) => Some(I.expandDims(a, env[x]))
    case Transpose(x) => Some(I.transpose(env[x]))
    case Zeros(d, s) => Some(I.fill(0, d, s))
    case Splat(f, d, s) => Some(I.fill(f, d, s))
    case Load(src, indices, mask, other) =>
      if mask.Some? && !I.truthy(env[mask.value]) then
        Some(if other.Some? then other.value else 0)
      else
        Some(I.read(Buf(mem, src), EvalIndices(indices, env)))
    case VectorLoad(src, off, len) => Some(I.vectorRead(Buf(mem, src), env[off], len))
    case Pure(tag, args) => Some(I.pureOp(tag, Vals(args, env)))
  }

  ghost function Bind(res: Option<ValueId>, v: Val, env: Env, st: State): Outcome {
    match res
    case None => Done(env, st)
    case Some(x) => if x in env then Stuck else Done(env[x := v], st)
  }

  /** What a store, a fetch or an effect does: the new state, and the value a fetch yields. */
  ghost function Act(I: Interp, op: Op, env: Env, st: State): (State, Option<Val>)
    requires !IsValueOp(op) && !op.Loop? && !op.If? && Uses(op) <= env.Keys
  {
    match op
    case Store(dst, indices, v, mask) =>
      if mask.Some? && !I.truthy(env[mask.value]) then (st, None) else
      var idx := EvalIndices(indices, env);
      (State(st.mem[dst := I.write(Buf(st.mem, dst), idx, env[v])],
             st.trace + [Stored(dst, idx, env[v])]), None)
    case VectorStore(dst, off, len, v) =>
      (State(st.mem[dst := I.vectorWrite(Buf(st.mem, dst), env[off], len, env[v])],
             st.trace + [VectorStored(dst, env[off], len, env[v])]), None)
    case Fetch(tag, bufs, args) =>
      (st, Some(I.fetch(tag, bufs, Vals(args, env), st)))
    case Effect(tag, bufs, args) =>
      var vals := Vals(args, env);
      (State(I.effect(tag, bufs, vals, st), st.trace + [Effected(tag, vals, Shown(bufs, st.mem))]), None)
  }

  /** Any op that is not control flow. */
  ghost function Simple(I: Interp, ins: Instr, env: Env, st: State): Outcome
    requires !ins.op.Loop? && !ins.op.If? && Uses(ins.op) <= env.Keys
  {
    if IsValueOp(ins.op) then
      var v := Eval(I, ins.op, env, st.mem);
      if v.None? then Undefined else Bind(ins.res, v.value, env, st)
    else
      var (st', v) := Act(I, ins.op, env, st);
      if v.None? then Done(env, st') else Bind(ins.res, v.value, env, st')
  }

  ghost function Step(I: Interp, k: KernelValue, ins: Instr, env: Env, st: State, fuel: nat): Outcome
    decreases fuel, 0, 1
  {
    if !(Uses(ins.op) <= env.Keys) then Stuck else
    match ins.op
    case Loop(v, s, e, inc, b) =>
      var o := Iterate(I, k, v, b, env[s], env[e], env[inc], env, st, fuel);
      if o.Done? then Done(env, o.st) else o
    case If(c, t, e) =>
      if fuel == 0 then OutOfFuel else
      var code := if I.truthy(env[c]) then CodeOf(k, t) else if e.Some? then CodeOf(k, e.value) else [];
      var o := Run(I, k, code, env, st, fuel - 1);
      if o.Done? then Done(env, o.st) else o
    case _ => Simple(I, ins, env, st)
  }

  /** `for (i = s; i < e; i += inc)`: the bounds are values, fixed before the loop. */
  ghost function Iterate(I: Interp, k: KernelValue, v: VarId, b: BlockId,
                         i: Val, e: Val, inc: Val, env: Env, st: State, fuel: nat): Outcome
    decreases fuel, 0, 0
  {
    if !I.less(i, e) then Done(env, st)
    else if fuel == 0 then OutOfFuel
    else if LoopIds(v) * env.Keys != {} then Stuck
    else
      var o := Run(I, k, CodeOf(k, b), BindLoop(v, i, env), st, fuel - 1);
      if o.Done? then Iterate(I, k, v, b, I.plus(i, inc), e, inc, env, o.st, fuel - 1) else o
  }

  ghost function BindLoop(v: VarId, i: Val, env: Env): Env {
    env[0xC000_0000 + v := i][0x4000_0000 + v := i]
  }

  ghost function Run(I: Interp, k: KernelValue, code: Code, env: Env, st: State, fuel: nat): Outcome
    decreases fuel, |code|, 0
  {
    if code == [] then Done(env, st) else
    var o := Step(I, k, code[0], env, st, fuel);
    if o.Done? then Run(I, k, code[1..], o.env, o.st, fuel) else o
  }

  ghost function RunKernel(I: Interp, k: KernelValue, st: State, fuel: nat): Outcome {
    Run(I, k, k.body, map[], st, fuel)
  }

  datatype Point = Point(env: Env, st: State)

  /** A concrete run, given the points it passes. */
  lemma {:induction false} RunThrough(I: Interp, k: KernelValue, code: Code, points: seq<Point>, fuel: nat)
    requires |points| == |code| + 1
    requires forall i :: 0 <= i < |code| ==>
               Step(I, k, code[i], points[i].env, points[i].st, fuel) == Done(points[i + 1].env, points[i + 1].st)
    ensures Run(I, k, code, points[0].env, points[0].st, fuel) == Done(points[|code|].env, points[|code|].st)
  {
    if code != [] {
      forall i | 0 <= i < |code| - 1
        ensures Step(I, k, code[1..][i], points[1..][i].env, points[1..][i].st, fuel)
                == Done(points[1..][i + 1].env, points[1..][i + 1].st)
      {
        assert code[1..][i] == code[i + 1] && points[1..][i] == points[i + 1];
      }
      RunThrough(I, k, code[1..], points[1..], fuel);
    }
  }

  /** One step of a concrete run. */
  lemma RunCons(I: Interp, k: KernelValue, ins: Instr, rest: Code, env: Env, st: State, fuel: nat)
    ensures var o := Step(I, k, ins, env, st, fuel);
            Run(I, k, [ins] + rest, env, st, fuel) == if o.Done? then Run(I, k, rest, o.env, o.st, fuel) else o
  {
    assert ([ins] + rest)[1..] == rest;
  }

  /** Same end of the run for an observer: same outcome, memory and trace. */
  ghost predicate SameForObserver(a: Outcome, b: Outcome) {
    || (a.Stuck? && b.Stuck?)
    || (a.Undefined? && b.Undefined?)
    || (a.OutOfFuel? && b.OutOfFuel?)
    || (a.Done? && b.Done? && a.st == b.st)
  }

  /** More fuel never changes a finished run, so fuel is no bound on what is modelled. */
  lemma {:induction false} FuelMonotone(I: Interp, k: KernelValue, code: Code, env: Env, st: State, fuel: nat, more: nat)
    requires fuel <= more
    ensures var o := Run(I, k, code, env, st, fuel);
            o.OutOfFuel? || Run(I, k, code, env, st, more) == o
    decreases fuel, |code|, 0
  {
    if code != [] {
      FuelMonotoneStep(I, k, code[0], env, st, fuel, more);
      var o := Step(I, k, code[0], env, st, fuel);
      if o.Done? { FuelMonotone(I, k, code[1..], o.env, o.st, fuel, more); }
    }
  }

  lemma {:induction false} FuelMonotoneStep(I: Interp, k: KernelValue, ins: Instr, env: Env, st: State, fuel: nat, more: nat)
    requires fuel <= more
    ensures var o := Step(I, k, ins, env, st, fuel);
            o.OutOfFuel? || Step(I, k, ins, env, st, more) == o
    decreases fuel, 0, 1
  {
    if Uses(ins.op) <= env.Keys {
      match ins.op
      case Loop(v, s, e, inc, b) =>
        FuelMonotoneLoop(I, k, v, b, env[s], env[e], env[inc], env, st, fuel, more);
      case If(c, t, e) =>
        if fuel != 0 {
          var code := if I.truthy(env[c]) then CodeOf(k, t) else if e.Some? then CodeOf(k, e.value) else [];
          FuelMonotone(I, k, code, env, st, fuel - 1, more - 1);
        }
      case _ =>
    }
  }

  lemma {:induction false} FuelMonotoneLoop(I: Interp, k: KernelValue, v: VarId, b: BlockId,
      i: Val, e: Val, inc: Val, env: Env, st: State, fuel: nat, more: nat)
    requires fuel <= more
    ensures var o := Iterate(I, k, v, b, i, e, inc, env, st, fuel);
            o.OutOfFuel? || Iterate(I, k, v, b, i, e, inc, env, st, more) == o
    decreases fuel, 0, 0
  {
    if I.less(i, e) && fuel != 0 && LoopIds(v) * env.Keys == {} {
      FuelMonotone(I, k, CodeOf(k, b), BindLoop(v, i, env), st, fuel - 1, more - 1);
      var o := Run(I, k, CodeOf(k, b), BindLoop(v, i, env), st, fuel - 1);
      if o.Done? {
        FuelMonotoneLoop(I, k, v, b, I.plus(i, inc), e, inc, env, o.st, fuel - 1, more - 1);
      }
    }
  }

  /** An op whose operands have equal values under two environments has equal value,
      where the second environment is read through a substitution. */
  lemma SubstEval(I: Interp, op: Op, m: map<ValueId, ValueId>, env: Env, env': Env, mem: Memory)
    requires IsValueOp(op) && Uses(op) <= env.Keys
    requires forall u :: u in Uses(op) ==> To(m, u) in env' && env'[To(m, u)] == env[u]
    ensures Uses(Subst(op, m)) <= env'.Keys
    ensures Eval(I, Subst(op, m), env', mem) == Eval(I, op, env, mem)
  {
    UsesOfSubst(op, m);
    if op.Load? {
      hide EvalIndices, SubstIndices, IndexIds;
      IndicesOfSubst(op.indices, m, env, env');
    } else if op.Pure? {
      hide Vals, SubstArgs;
      ValsOfSubst(op.args, m, env, env');
    } else {
      SubstScalar(I, op, m, env, env', mem);
    }
  }

  lemma SubstScalar(I: Interp, op: Op, m: map<ValueId, ValueId>, env: Env, env': Env, mem: Memory)
    requires IsValueOp(op) && !op.Load? && !op.Pure? && Uses(op) <= env.Keys && Uses(Subst(op, m)) <= env'.Keys
    requires forall u :: u in Uses(op) ==> To(m, u) in env' && env'[To(m, u)] == env[u]
    ensures Eval(I, Subst(op, m), env', mem) == Eval(I, op, env, mem)
  {
  }

  lemma IndicesOfSubst(indices: seq<IndexExpr>, m: map<ValueId, ValueId>, env: Env, env': Env)
    requires IndexIds(indices) <= env.Keys
    requires forall u :: u in IndexIds(indices) ==> To(m, u) in env' && env'[To(m, u)] == env[u]
    ensures IndexIds(SubstIndices(indices, m)) <= env'.Keys
    ensures EvalIndices(SubstIndices(indices, m), env') == EvalIndices(indices, env)
  {
    IndexIdsOfSubst(indices, m);
    var out := SubstIndices(indices, m);
    forall i | 0 <= i < |indices| ensures EvalIndices(out, env')[i] == EvalIndices(indices, env)[i] {
      assert indices[i] in indices;
    }
    assert |EvalIndices(out, env')| == |EvalIndices(indices, env)|;
  }

  lemma ValsOfSubst(args: seq<ValueId>, m: map<ValueId, ValueId>, env: Env, env': Env)
    requires (set a | a in args) <= env.Keys
    requires forall u :: u in args ==> To(m, u) in env' && env'[To(m, u)] == env[u]
    ensures (set a | a in SubstArgs(args, m)) <= env'.Keys
    ensures Vals(SubstArgs(args, m), env') == Vals(args, env)
  {
    ArgsOfSubst(args, m);
    var out := SubstArgs(args, m);
    forall i | 0 <= i < |args| ensures Vals(out, env')[i] == Vals(args, env)[i] {
      assert args[i] in args;
    }
  }

  /** The same for an op with effects: same state change, same yielded value. */
  lemma SubstAct(I: Interp, op: Op, m: map<ValueId, ValueId>, env: Env, env': Env, st: State)
    requires !IsValueOp(op) && !op.Loop? && !op.If? && Uses(op) <= env.Keys
    requires forall u :: u in Uses(op) ==> To(m, u) in env' && env'[To(m, u)] == env[u]
    ensures Uses(Subst(op, m)) <= env'.Keys
    ensures Act(I, Subst(op, m), env', st) == Act(I, op, env, st)
  {
    UsesOfSubst(op, m);
    match op
    case Store(_, indices, _, _) => IndicesOfSubst(indices, m, env, env');
    case VectorStore(_, _, _, _) =>
    case Fetch(_, _, args) => ValsOfSubst(args, m, env, env');
    case Effect(_, _, args) => ValsOfSubst(args, m, env, env');
  }
}
