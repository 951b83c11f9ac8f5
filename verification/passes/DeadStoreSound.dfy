/**
 Dead-store elimination keeps what a kernel computes: every id, the final memory and all
 that its effects show. Two things are asked for. Distinct keys of one buffer denote
 disjoint locations in every block run, and between a dead store and the store that
 overwrites it no loop, branch, fetch or effect gets at the buffer.
 */
module DeadStoreSound {
  import opened Ir
  import opened Semantics
  import opened DeadStoreElim

  // ----- locations -----

  /** What a key denotes once its ids have values. */
  datatype Loc = ScalarLoc(idx: seq<IndexVal>) | VectorLoc(off: Val, len: nat)

  function KeyIds(key: StoreKey): set<ValueId> {
    match key
    case ScalarKey(_, indices) => IndexIds(indices)
    case VectorKey(_, off, _) => {off}
  }

  ghost function LocOf(key: StoreKey, env: Env): Loc
    requires KeyIds(key) <= env.Keys
  {
    match key
    case ScalarKey(_, indices) => ScalarLoc(EvalIndices(indices, env))
    case VectorKey(_, off, len) => VectorLoc(env[off], len)
  }

  ghost function ReadAt(I: Interp, b: Buffer, l: Loc): Val {
    match l
    case ScalarLoc(idx) => I.read(b, idx)
    case VectorLoc(off, len) => I.vectorRead(b, off, len)
  }

  ghost function WriteAt(I: Interp, b: Buffer, l: Loc, v: Val): Buffer {
    match l
    case ScalarLoc(idx) => I.write(b, idx, v)
    case VectorLoc(off, len) => I.vectorWrite(b, off, len, v)
  }

  /** The last write to a location wins. */
  ghost predicate Overwrites(I: Interp) {
    forall b, l, v, v' :: WriteAt(I, WriteAt(I, b, l, v), l, v') == WriteAt(I, b, l, v')
  }

  /** A write to one location is not seen at the other and commutes with writes there. */
  ghost predicate Apart(I: Interp, l: Loc, l': Loc) {
    && (forall b, v :: ReadAt(I, WriteAt(I, b, l, v), l') == ReadAt(I, b, l'))
    && (forall b, v, v' :: WriteAt(I, WriteAt(I, b, l, v), l', v') == WriteAt(I, WriteAt(I, b, l', v'), l, v))
  }

  function MemoryKey(op: Op): Option<StoreKey> {
    if KeyOfStore(op).Some? then KeyOfStore(op) else KeyOfLoad(op)
  }

  /** An access of another key of the same buffer is apart from this location. */
  ghost predicate ApartFrom(I: Interp, op: Op, key: StoreKey, l: Loc, env: Env) {
    var other := MemoryKey(op);
    other.Some? && other.value != key && other.value.dst == key.dst ==>
      KeyIds(other.value) <= env.Keys && Apart(I, l, LocOf(other.value, env))
  }

  /** What a dead store writes is disjoint from what the block's other keys of that buffer
      denote, with the ids' final values. */
  ghost predicate KeysApart(I: Interp, code: Code, outputs: set<string>, env: Env) {
    forall i, j, key :: 0 <= i < |code| && 0 <= j < |code| && IsDeadStore(code, outputs, i) && KeyOfStore(code[i].op) == Some(key) ==>
      KeyIds(key) <= env.Keys && ApartFrom(I, code[j].op, key, LocOf(key, env), env)
  }

  // ----- what fetches and effects may depend on -----

  /** What the thread shows others through its effects. */
  function Observed(trace: seq<Event>): seq<Event> {
    if trace == [] then [] else
    var last := trace[|trace| - 1];
    Observed(trace[..|trace| - 1]) + (if last.Effected? then [last] else [])
  }

  lemma ObservedSnoc(trace: seq<Event>, e: Event)
    ensures Observed(trace + [e]) == Observed(trace) + (if e.Effected? then [e] else [])
  {
    assert (trace + [e])[..|trace|] == trace;
  }

  /** One buffer with other contents. */
  datatype Patch = Patch(buf: string, contents: Buffer)

  function Patched(mem: Memory, p: Option<Patch>): Memory {
    if p.None? then mem else mem[p.value.buf := p.value.contents]
  }

  /** The same memory up to the patch, and the same effects so far. */
  ghost predicate Near(s: State, s': State, p: Option<Patch>) {
    s.mem == Patched(s'.mem, p) && Observed(s.trace) == Observed(s'.trace)
  }

  ghost predicate SameBuf(mem: Memory, mem': Memory, p: Option<Patch>) {
    p.Some? ==> Buf(mem, p.value.buf) == Buf(mem', p.value.buf)
  }

  /** Fetches and effects depend on what the effects have shown and on memory, and neither
      see nor change a buffer they do not name. */
  ghost predicate Local(I: Interp) {
    forall tag, bufs, vals, s, s', p :: Near(s, s', p) && (p.Some? ==> p.value.buf !in bufs) ==>
      && I.fetch(tag, bufs, vals, s) == I.fetch(tag, bufs, vals, s')
      && I.effect(tag, bufs, vals, s) == Patched(I.effect(tag, bufs, vals, s'), p)
      && SameBuf(I.effect(tag, bufs, vals, s'), s'.mem, p)
  }

  // ----- steps -----

  ghost predicate Extends(env: Env, env': Env) {
    forall x :: x in env ==> x in env' && env'[x] == env[x]
  }

  lemma LocExtends(key: StoreKey, env: Env, env': Env)
    requires Extends(env, env') && KeyIds(key) <= env.Keys
    ensures KeyIds(key) <= env'.Keys && LocOf(key, env') == LocOf(key, env)
  {
    match key
    case ScalarKey(_, indices) =>
      forall i | 0 <= i < |indices| ensures EvalIndices(indices, env')[i] == EvalIndices(indices, env)[i] {
        assert indices[i] in indices;
      }
      assert EvalIndices(indices, env') == EvalIndices(indices, env);
    case VectorKey(_, _, _) =>
  }

  /** What a store does to memory. */
  ghost function StoreMem(I: Interp, op: Op, env: Env, mem: Memory): Memory
    requires (op.Store? || op.VectorStore?) && Uses(op) <= env.Keys
  {
    if op.Store? && op.mask.Some? && !I.truthy(env[op.mask.value]) then mem else
    var key := KeyOfStore(op).value;
    mem[key.dst := WriteAt(I, Buf(mem, key.dst), LocOf(key, env), env[op.stored])]
  }

  /** A straight op yields a value from memory, or changes memory. */
  lemma StraightStep(I: Interp, k: KernelValue, ins: Instr, env: Env, st: State, fuel: nat)
    requires StraightOp(ins.op)
    ensures var o := Step(I, k, ins, env, st, fuel);
            if !(Uses(ins.op) <= env.Keys) then o.Stuck?
            else if IsValueOp(ins.op) then
              var v := Eval(I, ins.op, env, st.mem);
              o == if v.None? then Undefined else Bind(ins.res, v.value, env, st)
            else o.Done? && o.env == env && o.st.mem == StoreMem(I, ins.op, env, st.mem)
                 && Observed(o.st.trace) == Observed(st.trace)
  {
    if Uses(ins.op) <= env.Keys && !IsValueOp(ins.op) { StoreStep(I, k, ins, env, st, fuel); }
    hide Eval, StoreMem, Observed;
  }

  lemma StoreStep(I: Interp, k: KernelValue, ins: Instr, env: Env, st: State, fuel: nat)
    requires (ins.op.Store? || ins.op.VectorStore?) && Uses(ins.op) <= env.Keys
    ensures var o := Step(I, k, ins, env, st, fuel);
            o.Done? && o.env == env && o.st.mem == StoreMem(I, ins.op, env, st.mem) && Observed(o.st.trace) == Observed(st.trace)
  {
    var op := ins.op;
    assert Step(I, k, ins, env, st, fuel) == Simple(I, ins, env, st);
    hide Step, Observed;
    ObservedSnoc(st.trace, if op.Store? then Stored(op.dst, EvalIndices(op.indices, env), env[op.stored])
                           else VectorStored(op.dst, env[op.byteOffset], op.len, env[op.stored]));
  }

  /** Ids keep their values. */
  lemma StepExtends(I: Interp, k: KernelValue, ins: Instr, env: Env, st: State, fuel: nat)
    requires Step(I, k, ins, env, st, fuel).Done?
    ensures Extends(env, Step(I, k, ins, env, st, fuel).env)
  {
    if ins.op.Loop? {
      var o := Iterate(I, k, ins.op.loopVar, ins.op.body, env[ins.op.start], env[ins.op.end], env[ins.op.step], env, st, fuel);
      assert o.Done?;
    } else if !ins.op.If? {
      assert Step(I, k, ins, env, st, fuel) == Simple(I, ins, env, st);
    }
  }

  lemma {:induction false} RunExtends(I: Interp, k: KernelValue, code: Code, env: Env, st: State, fuel: nat)
    requires Run(I, k, code, env, st, fuel).Done?
    ensures Extends(env, Run(I, k, code, env, st, fuel).env)
    decreases |code|
  {
    hide Step;
    if code != [] {
      StepExtends(I, k, code[0], env, st, fuel);
      var o := Step(I, k, code[0], env, st, fuel);
      RunExtends(I, k, code[1..], o.env, o.st, fuel);
    }
  }

  // ----- runs that stay away from the patch -----

  ghost predicate StaysNear(o: Outcome, o': Outcome, p: Option<Patch>, before: Memory) {
    o.Done? ==> o'.Done? && o'.env == o.env && Near(o.st, o'.st, p) && SameBuf(o'.st.mem, before, p)
  }

  /** No patch, or one that nothing run from here gets at. */
  predicate Clear(code: Code, safe: set<BlockId>, p: Option<Patch>) {
    p.Some? ==> CodeAvoids(code, safe, p.value.buf)
  }

  ghost predicate ClearBlocks(k: KernelValue, safe: set<BlockId>, p: Option<Patch>) {
    p.Some? ==> ClosedOff(k, safe, p.value.buf)
  }

  lemma StraightNear(I: Interp, k: KernelValue, ins: Instr, env: Env, s: State, s': State, fuel: nat, p: Option<Patch>)
    requires StraightOp(ins.op) && Near(s, s', p) && (p.Some? ==> !Touches(ins, p.value.buf))
    ensures StaysNear(Step(I, k, ins, env, s, fuel), Step(I, k, ins, env, s', fuel), p, s'.mem)
  {
    hide Step, Observed, Eval, StoreMem, Touches;
    StraightStep(I, k, ins, env, s, fuel);
    StraightStep(I, k, ins, env, s', fuel);
    if Uses(ins.op) <= env.Keys {
      if IsValueOp(ins.op) {
        EvalNear(I, ins, env, s'.mem, p);
      } else {
        StoreNear(I, ins, env, s'.mem, p);
      }
    }
  }

  lemma EvalNear(I: Interp, ins: Instr, env: Env, mem: Memory, p: Option<Patch>)
    requires IsValueOp(ins.op) && Uses(ins.op) <= env.Keys && (p.Some? ==> !Touches(ins, p.value.buf))
    ensures Eval(I, ins.op, env, Patched(mem, p)) == Eval(I, ins.op, env, mem)
  {
  }

  lemma StoreNear(I: Interp, ins: Instr, env: Env, mem: Memory, p: Option<Patch>)
    requires (ins.op.Store? || ins.op.VectorStore?) && Uses(ins.op) <= env.Keys && (p.Some? ==> !Touches(ins, p.value.buf))
    ensures StoreMem(I, ins.op, env, Patched(mem, p)) == Patched(StoreMem(I, ins.op, env, mem), p)
    ensures SameBuf(StoreMem(I, ins.op, env, mem), mem, p)
  {
    hide WriteAt, LocOf;
  }

  lemma OutsideNear(I: Interp, k: KernelValue, ins: Instr, env: Env, s: State, s': State, fuel: nat, p: Option<Patch>)
    requires ins.op.Fetch? || ins.op.Effect?
    requires Local(I) && Near(s, s', p) && (p.Some? ==> !Touches(ins, p.value.buf))
    ensures StaysNear(Step(I, k, ins, env, s, fuel), Step(I, k, ins, env, s', fuel), p, s'.mem)
  {
    if Uses(ins.op) <= env.Keys {
      var op := ins.op;
      var vals := Vals(op.args, env);
      StepOutside(I, k, ins, env, s, fuel);
      StepOutside(I, k, ins, env, s', fuel);
      hide Step, Observed, Vals, Near;
      if p.None? || p.value.buf !in op.bufs {
        LocalAt(I, op.tag, op.bufs, vals, s, s', p);
      }
    }
  }

  lemma LocalAt(I: Interp, tag: string, bufs: set<string>, vals: seq<Val>, s: State, s': State, p: Option<Patch>)
    requires Local(I) && Near(s, s', p) && (p.Some? ==> p.value.buf !in bufs)
    ensures I.fetch(tag, bufs, vals, s) == I.fetch(tag, bufs, vals, s')
    ensures var e, e' := Effected(tag, vals, Shown(bufs, s.mem)), Effected(tag, vals, Shown(bufs, s'.mem));
            Near(State(I.effect(tag, bufs, vals, s), s.trace + [e]), State(I.effect(tag, bufs, vals, s'), s'.trace + [e']), p)
    ensures SameBuf(I.effect(tag, bufs, vals, s'), s'.mem, p)
  {
    LocalParts(I, tag, bufs, vals, s, s', p);
    SameShown(bufs, s, s', p);
    var e := Effected(tag, vals, Shown(bufs, s.mem));
    hide Local, Shown, Observed;
    ObservedSnoc(s.trace, e);
    ObservedSnoc(s'.trace, e);
  }

  lemma LocalParts(I: Interp, tag: string, bufs: set<string>, vals: seq<Val>, s: State, s': State, p: Option<Patch>)
    requires Local(I) && Near(s, s', p) && (p.Some? ==> p.value.buf !in bufs)
    ensures I.fetch(tag, bufs, vals, s) == I.fetch(tag, bufs, vals, s')
    ensures I.effect(tag, bufs, vals, s) == Patched(I.effect(tag, bufs, vals, s'), p)
    ensures SameBuf(I.effect(tag, bufs, vals, s'), s'.mem, p)
  {
    hide Near, Patched, SameBuf, Observed;
  }

  lemma SameShown(bufs: set<string>, s: State, s': State, p: Option<Patch>)
    requires Near(s, s', p) && (p.Some? ==> p.value.buf !in bufs)
    ensures Shown(bufs, s.mem) == Shown(bufs, s'.mem)
  {
    hide Observed;
  }

  /** What a fetch or an effect does. */
  lemma StepOutside(I: Interp, k: KernelValue, ins: Instr, env: Env, st: State, fuel: nat)
    requires (ins.op.Fetch? || ins.op.Effect?) && Uses(ins.op) <= env.Keys
    ensures var op, vals := ins.op, Vals(ins.op.args, env);
            Step(I, k, ins, env, st, fuel)
            == if op.Fetch? then Bind(ins.res, I.fetch(op.tag, op.bufs, vals, st), env, st)
               else Done(env, State(I.effect(op.tag, op.bufs, vals, st), st.trace + [Effected(op.tag, vals, Shown(op.bufs, st.mem))]))
  {
  }

  lemma {:induction false} RunNear(I: Interp, k: KernelValue, code: Code, env: Env, s: State, s': State, fuel: nat,
                                   p: Option<Patch>, safe: set<BlockId>)
    requires Local(I) && Near(s, s', p) && Clear(code, safe, p) && ClearBlocks(k, safe, p)
    ensures StaysNear(Run(I, k, code, env, s, fuel), Run(I, k, code, env, s', fuel), p, s'.mem)
    decreases fuel, |code|, 0
  {
    hide Step, Local, Near, ClosedOff, AvoidsWithin;
    if code != [] {
      StepNear(I, k, code[0], env, s, s', fuel, p, safe);
      var o, o' := Step(I, k, code[0], env, s, fuel), Step(I, k, code[0], env, s', fuel);
      if o.Done? {
        RunNear(I, k, code[1..], o.env, o.st, o'.st, fuel, p, safe);
      }
    }
  }

  lemma {:induction false} StepNear(I: Interp, k: KernelValue, ins: Instr, env: Env, s: State, s': State, fuel: nat,
                                    p: Option<Patch>, safe: set<BlockId>)
    requires Local(I) && Near(s, s', p) && ClearBlocks(k, safe, p)
    requires p.Some? ==> AvoidsWithin(ins, safe, p.value.buf)
    ensures StaysNear(Step(I, k, ins, env, s, fuel), Step(I, k, ins, env, s', fuel), p, s'.mem)
    decreases fuel, 0, 1
  {
    hide Local, Near;
    if StraightOp(ins.op) {
      StraightNear(I, k, ins, env, s, s', fuel, p);
    } else if ins.op.Fetch? || ins.op.Effect? {
      OutsideNear(I, k, ins, env, s, s', fuel, p);
    } else if Uses(ins.op) <= env.Keys {
      if ins.op.Loop? {
        IterateNear(I, k, ins.op.loopVar, ins.op.body, env[ins.op.start], env[ins.op.end], env[ins.op.step],
                    env, s, s', fuel, p, safe);
      } else if fuel > 0 {
        var e := ins.op.elseBlock;
        var code := if I.truthy(env[ins.op.cond]) then CodeOf(k, ins.op.thenBlock)
                    else if e.Some? then CodeOf(k, e.value) else [];
        RunNear(I, k, code, env, s, s', fuel - 1, p, safe);
      }
    }
  }

  lemma {:induction false} IterateNear(I: Interp, k: KernelValue, v: VarId, b: BlockId, i: Val, e: Val, inc: Val,
      env: Env, s: State, s': State, fuel: nat, p: Option<Patch>, safe: set<BlockId>)
    requires Local(I) && Near(s, s', p) && ClearBlocks(k, safe, p) && (p.Some? ==> b in safe)
    ensures StaysNear(Iterate(I, k, v, b, i, e, inc, env, s, fuel), Iterate(I, k, v, b, i, e, inc, env, s', fuel), p, s'.mem)
    decreases fuel, 0, 0
  {
    hide Local, Near;
    if I.less(i, e) && fuel > 0 && LoopIds(v) * env.Keys == {} {
      var inner := BindLoop(v, i, env);
      RunNear(I, k, CodeOf(k, b), inner, s, s', fuel - 1, p, safe);
      var o, o' := Run(I, k, CodeOf(k, b), inner, s, fuel - 1), Run(I, k, CodeOf(k, b), inner, s', fuel - 1);
      if o.Done? {
        IterateNear(I, k, v, b, I.plus(i, inc), e, inc, env, o.st, o'.st, fuel - 1, p, safe);
      }
    }
  }

  // ----- one step with a superfluous write outstanding -----

  /** The first memory is the second with one more write. */
  ghost predicate Overlay(I: Interp, a: Memory, b: Memory, dst: string, l: Loc, v: Val) {
    a == b[dst := WriteAt(I, Buf(b, dst), l, v)]
  }

  /** An op that is no load of the key does not see the outstanding write. */
  lemma EvalUnderOverlay(I: Interp, op: Op, env: Env, a: Memory, b: Memory, key: StoreKey, l: Loc, v: Val)
    requires IsValueOp(op) && Uses(op) <= env.Keys && Overlay(I, a, b, key.dst, l, v)
    requires KeyOfLoad(op) != Some(key) && ApartFrom(I, op, key, l, env)
    ensures Eval(I, op, env, a) == Eval(I, op, env, b)
  {
    if KeyOfLoad(op).Some? {
      var other := KeyOfLoad(op).value;
      LoadReads(I, op, env, a);
      LoadReads(I, op, env, b);
      if other.dst == key.dst { assert Apart(I, l, LocOf(other, env)); }
    }
  }

  lemma LoadReads(I: Interp, op: Op, env: Env, mem: Memory)
    requires IsValueOp(op) && Uses(op) <= env.Keys && KeyOfLoad(op).Some?
    ensures var key := KeyOfLoad(op).value;
            KeyIds(key) <= env.Keys
            && Eval(I, op, env, mem) ==
                 if op.Load? && op.mask.Some? && !I.truthy(env[op.mask.value]) then
                   Some(if op.other.Some? then op.other.value else 0)
                 else Some(ReadAt(I, Buf(mem, key.dst), LocOf(key, env)))
  {
  }

  /** A store of the key settles the difference; any other store carries it along. */
  lemma StoreUnderOverlay(I: Interp, op: Op, env: Env, a: Memory, b: Memory, key: StoreKey, l: Loc, v: Val)
    requires (op.Store? || op.VectorStore?) && Uses(op) <= env.Keys && Overlay(I, a, b, key.dst, l, v) && Overwrites(I)
    requires KeyIds(key) <= env.Keys && LocOf(key, env) == l && ApartFrom(I, op, key, l, env)
    ensures var a', b' := StoreMem(I, op, env, a), StoreMem(I, op, env, b);
            if KeyOfStore(op) == Some(key) && !HasMask(op) then a' == b' else a' == b' || Overlay(I, a', b', key.dst, l, v)
  {
    hide Overwrites, Apart, WriteAt, LocOf;
    var other := KeyOfStore(op).value;
    if op.Store? && op.mask.Some? && !I.truthy(env[op.mask.value]) {
      return;
    }
    var l', v' := LocOf(other, env), env[op.stored];
    StoreTaken(I, op, env, a);
    StoreTaken(I, op, env, b);
    if other == key {
      LastWins(I, Buf(b, key.dst), l, v, v');
    } else if other.dst == key.dst {
      WritesCommute(I, Buf(b, key.dst), l, v, l', v');
    } else {
      OtherBuffer(b, key.dst, WriteAt(I, Buf(b, key.dst), l, v), other.dst, WriteAt(I, Buf(b, other.dst), l', v'));
    }
  }

  lemma StoreTaken(I: Interp, op: Op, env: Env, mem: Memory)
    requires (op.Store? || op.VectorStore?) && Uses(op) <= env.Keys && !(op.Store? && op.mask.Some? && !I.truthy(env[op.mask.value]))
    ensures var key := KeyOfStore(op).value;
            KeyIds(key) <= env.Keys
            && StoreMem(I, op, env, mem) == mem[key.dst := WriteAt(I, Buf(mem, key.dst), LocOf(key, env), env[op.stored])]
  {
  }

  lemma OtherBuffer(m: Memory, d: string, x: Buffer, e: string, y: Buffer)
    requires d != e
    ensures m[d := x][e := y] == m[e := y][d := x]
    ensures Buf(m[d := x], e) == Buf(m, e) && Buf(m[e := y], d) == Buf(m, d)
  {
  }

  lemma LastWins(I: Interp, b: Buffer, l: Loc, v: Val, v': Val)
    requires Overwrites(I)
    ensures WriteAt(I, WriteAt(I, b, l, v), l, v') == WriteAt(I, b, l, v')
  {
  }

  lemma WritesCommute(I: Interp, b: Buffer, l: Loc, v: Val, l': Loc, v': Val)
    requires Apart(I, l, l')
    ensures WriteAt(I, WriteAt(I, b, l, v), l', v') == WriteAt(I, WriteAt(I, b, l', v'), l, v)
  {
  }

  // ----- the rest of the block -----

  /** The same values, the same memory, and the same shown to others; the trace may lack
      the superfluous stores. */
  ghost predicate SameEnd(a: Outcome, b: Outcome) {
    a.Done? && b.Done? && a.env == b.env && Near(a.st, b.st, None)
  }

  /** Only stores of the key and accesses apart from its location, or ops that avoid the buffer. */
  ghost predicate QuietOp(I: Interp, k: KernelValue, ins: Instr, key: StoreKey, l: Loc, env: Env) {
    if StraightOp(ins.op) then KeyOfLoad(ins.op) != Some(key) && ApartFrom(I, ins.op, key, l, env)
    else Avoids(k, ins, key.dst)
  }

  predicate SettledBefore(code: Code, key: StoreKey, t: nat) {
    exists j :: 0 <= j < t && j < |code| && Settles(code[j].op, key)
  }

  /** All is quiet until the key is stored. */
  ghost predicate Quiet(I: Interp, k: KernelValue, code: Code, key: StoreKey, l: Loc, env: Env) {
    forall t :: 0 <= t < |code| && !SettledBefore(code, key, t) ==> QuietOp(I, k, code[t], key, l, env)
  }

  /** One straight step with the write outstanding. */
  lemma StraightUnderOverlay(I: Interp, k: KernelValue, ins: Instr, env: Env, st: State, st': State, fuel: nat,
                             key: StoreKey, l: Loc, v: Val, last: Env)
    requires StraightOp(ins.op) && Overwrites(I) && Overlay(I, st.mem, st'.mem, key.dst, l, v)
    requires Observed(st.trace) == Observed(st'.trace)
    requires Step(I, k, ins, env, st, fuel).Done? && Extends(Step(I, k, ins, env, st, fuel).env, last)
    requires KeyIds(key) <= env.Keys && LocOf(key, env) == l
    requires KeyOfLoad(ins.op) != Some(key) && ApartFrom(I, ins.op, key, l, last)
    ensures var o, o' := Step(I, k, ins, env, st, fuel), Step(I, k, ins, env, st', fuel);
            && o'.Done? && o'.env == o.env && Observed(o.st.trace) == Observed(o'.st.trace)
            && (if Settles(ins.op, key) then o.st.mem == o'.st.mem
                else o.st.mem == o'.st.mem || exists v' :: Overlay(I, o.st.mem, o'.st.mem, key.dst, l, v'))
  {
    StraightStep(I, k, ins, env, st, fuel);
    StraightStep(I, k, ins, env, st', fuel);
    StepExtends(I, k, ins, env, st, fuel);
    ApartEarlier(I, ins.op, key, l, env, last);
    if IsValueOp(ins.op) {
      EvalUnderOverlay(I, ins.op, env, st.mem, st'.mem, key, l, v);
    } else {
      StoreUnderOverlay(I, ins.op, env, st.mem, st'.mem, key, l, v);
    }
    hide Step, Overlay, StoreMem, Eval, Observed;
  }

  /** Ids have their final values from the start. */
  lemma ApartEarlier(I: Interp, op: Op, key: StoreKey, l: Loc, env: Env, last: Env)
    requires Extends(env, last) && Uses(op) <= env.Keys && ApartFrom(I, op, key, l, last)
    ensures ApartFrom(I, op, key, l, env)
  {
    hide Apart;
    if MemoryKey(op).Some? { LocExtends(MemoryKey(op).value, env, last); }
  }

  /** Any quiet step with the write outstanding. */
  lemma StepUnderOverlay(I: Interp, k: KernelValue, ins: Instr, env: Env, st: State, st': State, fuel: nat,
                         key: StoreKey, l: Loc, v: Val, last: Env)
    requires Local(I) && Overwrites(I) && Overlay(I, st.mem, st'.mem, key.dst, l, v) && Observed(st.trace) == Observed(st'.trace)
    requires Step(I, k, ins, env, st, fuel).Done? && Extends(Step(I, k, ins, env, st, fuel).env, last)
    requires KeyIds(key) <= env.Keys && LocOf(key, env) == l && QuietOp(I, k, ins, key, l, last)
    ensures var o, o' := Step(I, k, ins, env, st, fuel), Step(I, k, ins, env, st', fuel);
            && o'.Done? && o'.env == o.env && Observed(o.st.trace) == Observed(o'.st.trace)
            && (if Settles(ins.op, key) then o.st.mem == o'.st.mem
                else o.st.mem == o'.st.mem || exists v' :: Overlay(I, o.st.mem, o'.st.mem, key.dst, l, v'))
  {
    if StraightOp(ins.op) {
      StraightUnderOverlay(I, k, ins, env, st, st', fuel, key, l, v, last);
    } else {
      hide Step, Local, Overwrites, AvoidsWithin, ClosedOff, WriteAt;
      var p := Some(Patch(key.dst, WriteAt(I, Buf(st'.mem, key.dst), l, v)));
      var safe :| ClosedOff(k, safe, key.dst) && AvoidsWithin(ins, safe, key.dst);
      assert Near(st, st', p);
      StepNear(I, k, ins, env, st, st', fuel, p, safe);
      var o, o' := Step(I, k, ins, env, st, fuel), Step(I, k, ins, env, st', fuel);
      assert Overlay(I, o.st.mem, o'.st.mem, key.dst, l, v);
    }
  }

  predicate StoresKey(code: Code, key: StoreKey) {
    exists j :: 0 <= j < |code| && Settles(code[j].op, key)
  }

  /** Running on with the write outstanding: same values throughout, and the same memory
      in the end, as the key is stored again. */
  lemma {:induction false} RunUnderOverlay(I: Interp, k: KernelValue, code: Code, env: Env, st: State, st': State, fuel: nat,
                                           key: StoreKey, l: Loc, v: Val)
    requires Local(I) && Overwrites(I) && Overlay(I, st.mem, st'.mem, key.dst, l, v) && Observed(st.trace) == Observed(st'.trace)
    requires Run(I, k, code, env, st, fuel).Done? && KeyIds(key) <= env.Keys && LocOf(key, env) == l
    requires Quiet(I, k, code, key, l, Run(I, k, code, env, st, fuel).env) && StoresKey(code, key)
    ensures SameEnd(Run(I, k, code, env, st, fuel), Run(I, k, code, env, st', fuel))
    decreases |code|
  {
    hide Step, Overwrites, Overlay, StraightOp, LocOf, Local, QuietOp, Settles, Observed;
    var last := Run(I, k, code, env, st, fuel).env;
    var o := Step(I, k, code[0], env, st, fuel);
    RunExtends(I, k, code[1..], o.env, o.st, fuel);
    assert !SettledBefore(code, key, 0);
    StepUnderOverlay(I, k, code[0], env, st, st', fuel, key, l, v, last);
    var o' := Step(I, k, code[0], env, st', fuel);
    if o.st.mem == o'.st.mem {
      RunNear(I, k, code[1..], o.env, o.st, o'.st, fuel, None, {});
    } else {
      var v' :| Overlay(I, o.st.mem, o'.st.mem, key.dst, l, v');
      StepExtends(I, k, code[0], env, st, fuel);
      LocExtends(key, env, o.env);
      StoredLater(code, key);
      QuietRest(I, k, code, key, l, last);
      RunUnderOverlay(I, k, code[1..], o.env, o.st, o'.st, fuel, key, l, v');
    }
  }

  lemma StoredLater(code: Code, key: StoreKey)
    requires StoresKey(code, key) && !Settles(code[0].op, key)
    ensures StoresKey(code[1..], key)
  {
    var j :| 0 <= j < |code| && Settles(code[j].op, key);
    assert code[1..][j - 1] == code[j];
  }

  lemma QuietRest(I: Interp, k: KernelValue, code: Code, key: StoreKey, l: Loc, env: Env)
    requires code != [] && Quiet(I, k, code, key, l, env) && !Settles(code[0].op, key)
    ensures Quiet(I, k, code[1..], key, l, env)
  {
    hide QuietOp, Settles;
    var rest := code[1..];
    forall t | 0 <= t < |rest| && !SettledBefore(rest, key, t) ensures QuietOp(I, k, rest[t], key, l, env) {
      SettledLater(code, key, t);
    }
  }

  lemma SettledLater(code: Code, key: StoreKey, t: nat)
    requires code != [] && !Settles(code[0].op, key)
    ensures SettledBefore(code, key, t + 1) ==> SettledBefore(code[1..], key, t)
  {
    if SettledBefore(code, key, t + 1) {
      var j :| 0 <= j < t + 1 && j < |code| && Settles(code[j].op, key);
      assert code[1..][j - 1] == code[j];
    }
  }

  // ----- dropping one store -----

  function Without(code: Code, i: nat): Code
    requires i < |code|
  {
    code[..i] + code[i + 1..]
  }

  /** The superfluous store is the first op of what is run. */
  lemma DropFirst(I: Interp, k: KernelValue, code: Code, env: Env, st: State, fuel: nat, key: StoreKey)
    requires Local(I) && Overwrites(I) && Run(I, k, code, env, st, fuel).Done? && code != []
    requires Settles(code[0].op, key) && StoresKey(code[1..], key)
    requires KeyIds(key) <= Run(I, k, code, env, st, fuel).env.Keys
    requires Quiet(I, k, code[1..], key, LocOf(key, Run(I, k, code, env, st, fuel).env), Run(I, k, code, env, st, fuel).env)
    ensures SameEnd(Run(I, k, code, env, st, fuel), Run(I, k, code[1..], env, st, fuel))
  {
    StraightStep(I, k, code[0], env, st, fuel);
    hide Step, Overwrites, Quiet, StraightOp, Local, Observed;
    var o := Step(I, k, code[0], env, st, fuel);
    RunExtends(I, k, code[1..], o.env, o.st, fuel);
    LocExtends(key, env, Run(I, k, code, env, st, fuel).env);
    var l, v := LocOf(key, env), env[code[0].op.stored];
    assert Overlay(I, o.st.mem, st.mem, key.dst, l, v);
    RunUnderOverlay(I, k, code[1..], env, o.st, st, fuel, key, l, v);
  }

  lemma {:induction false} DropStore(I: Interp, k: KernelValue, code: Code, i: nat, env: Env, st: State, fuel: nat, key: StoreKey)
    requires Local(I) && Overwrites(I) && Run(I, k, code, env, st, fuel).Done? && i < |code|
    requires Settles(code[i].op, key) && StoresKey(code[i + 1..], key)
    requires KeyIds(key) <= Run(I, k, code, env, st, fuel).env.Keys
    requires Quiet(I, k, code[i + 1..], key, LocOf(key, Run(I, k, code, env, st, fuel).env), Run(I, k, code, env, st, fuel).env)
    ensures SameEnd(Run(I, k, code, env, st, fuel), Run(I, k, Without(code, i), env, st, fuel))
    decreases i
  {
    hide Step, Overwrites, Quiet, StraightOp, LocOf, Local, Near, Settles;
    if i == 0 {
      assert Without(code, 0) == code[1..];
      DropFirst(I, k, code, env, st, fuel, key);
    } else {
      var o := Step(I, k, code[0], env, st, fuel);
      assert code[1..][i..] == code[i + 1..] && code[1..][i - 1] == code[i];
      DropStore(I, k, code[1..], i - 1, o.env, o.st, fuel, key);
      WithoutRest(code, i);
    }
  }

  lemma WithoutRest(code: Code, i: nat)
    requires 0 < i < |code|
    ensures Without(code, i)[0] == code[0] && Without(code, i)[1..] == Without(code[1..], i - 1)
  {
    assert code[1..][..i - 1] == code[..i][1..] && code[1..][i..] == code[i + 1..];
    assert Without(code, i)[1..] == code[..i][1..] + code[i + 1..];
  }

  // ----- dropping all of them -----

  /** A dead store's key is quiet after it, and stored again. */
  lemma DeadIsQuiet(I: Interp, k: KernelValue, code: Code, outputs: set<string>, n: nat, env: Env)
    requires n < |code| && IsDeadStore(code, outputs, n) && KeysApart(I, code, outputs, env) && Undisturbed(k, code, outputs)
    ensures var key := KeyOfStore(code[n].op).value;
            && Settles(code[n].op, key)
            && KeyIds(key) <= env.Keys && Quiet(I, k, code[n + 1..], key, LocOf(key, env), env) && StoresKey(code[n + 1..], key)
  {
    hide ApartFrom, LocOf, KeyIds, StraightOp, Avoids, QuietOp, Undisturbed, Settles;
    var key := KeyOfStore(code[n].op).value;
    DeadStoreKey(code, outputs, n, key);
    var rest := code[n + 1..];
    assert KeyIds(key) <= env.Keys;
    forall t | 0 <= t < |rest| && !SettledBefore(rest, key, t) ensures QuietOp(I, k, rest[t], key, LocOf(key, env), env) {
      StillPending(code, n, t, key);
      QuietThere(I, k, code, outputs, n, n + 1 + t, env);
    }
  }

  lemma DeadStoreKey(code: Code, outputs: set<string>, n: nat, key: StoreKey)
    requires n < |code| && IsDeadStore(code, outputs, n) && KeyOfStore(code[n].op) == Some(key)
    ensures Settles(code[n].op, key) && StoresKey(code[n + 1..], key)
    ensures forall j :: 0 <= j < |code| ==> KeyOfLoad(code[j].op) != Some(key)
  {
    var j :| n + 1 <= j < |code| && Candidate(code[j].op, outputs, key);
    assert code[n + 1..][j - n - 1] == code[j];
  }

  lemma StillPending(code: Code, n: nat, t: nat, key: StoreKey)
    requires n + 1 + t < |code| && !SettledBefore(code[n + 1..], key, t)
    ensures Pending(code, n, n + 1 + t, key)
  {
    hide Settles;
    forall j | n < j < n + 1 + t ensures !Settles(code[j].op, key) {
      assert code[n + 1..][j - n - 1] == code[j];
    }
  }

  lemma QuietThere(I: Interp, k: KernelValue, code: Code, outputs: set<string>, n: nat, t: nat, env: Env)
    requires n < t < |code| && IsDeadStore(code, outputs, n) && KeysApart(I, code, outputs, env) && Undisturbed(k, code, outputs)
    requires Pending(code, n, t, KeyOfStore(code[n].op).value) && KeyIds(KeyOfStore(code[n].op).value) <= env.Keys
    ensures var key := KeyOfStore(code[n].op).value; QuietOp(I, k, code[t], key, LocOf(key, env), env)
  {
    var key := KeyOfStore(code[n].op).value;
    hide ApartFrom, LocOf, KeyIds, StraightOp, Avoids, Pending, StoredFrom, Candidate;
    assert KeyOfStore(code[n].op) == Some(key);
    assert ApartFrom(I, code[t].op, key, LocOf(key, env), env);
  }

  /** Dropping the dead stores among the first n changes nothing. */
  lemma {:induction false} SweepPreserves(I: Interp, k: KernelValue, code: Code, outputs: set<string>, n: nat, env: Env, st: State, fuel: nat)
    requires Local(I) && Overwrites(I) && n <= |code| && Run(I, k, code, env, st, fuel).Done?
    requires KeysApart(I, code, outputs, Run(I, k, code, env, st, fuel).env) && Undisturbed(k, code, outputs)
    ensures SameEnd(Run(I, k, code, env, st, fuel), Run(I, k, Swept(code, outputs, n) + code[n..], env, st, fuel))
  {
    hide Run, Overwrites, KeysApart, Local, IsDeadStore, Undisturbed;
    if n == 0 {
      assert Swept(code, outputs, 0) + code[0..] == code;
      SameTwice(Run(I, k, code, env, st, fuel));
    } else {
      SweepPreserves(I, k, code, outputs, n - 1, env, st, fuel);
      var front := Swept(code, outputs, n - 1);
      SweptNext(code, outputs, n - 1);
      hide Swept, SameEnd;
      if IsDeadStore(code, outputs, n - 1) {
        DropDead(I, k, code, outputs, n - 1, front, env, st, fuel);
      } else {
        assert front + [code[n - 1]] + code[n..] == front + code[n - 1..];
      }
    }
  }

  lemma SameTwice(o: Outcome)
    requires o.Done?
    ensures SameEnd(o, o)
  {
  }

  /** Position n is a dead store, and what comes before it has been swept. */
  lemma DropDead(I: Interp, k: KernelValue, code: Code, outputs: set<string>, n: nat, front: Code, env: Env, st: State, fuel: nat)
    requires Local(I) && Overwrites(I) && n < |code| && IsDeadStore(code, outputs, n) && Undisturbed(k, code, outputs)
    requires Run(I, k, code, env, st, fuel).Done? && KeysApart(I, code, outputs, Run(I, k, code, env, st, fuel).env)
    requires SameEnd(Run(I, k, code, env, st, fuel), Run(I, k, front + code[n..], env, st, fuel))
    ensures SameEnd(Run(I, k, code, env, st, fuel), Run(I, k, front + code[n + 1..], env, st, fuel))
  {
    DeadIsQuiet(I, k, code, outputs, n, Run(I, k, code, env, st, fuel).env);
    hide Run, Overwrites, KeysApart, Local, Undisturbed, Quiet, LocOf, StoresKey, Settles, IsDeadStore;
    SplitAt(front, code, n);
    DropStore(I, k, front + code[n..], |front|, env, st, fuel, KeyOfStore(code[n].op).value);
  }

  lemma SplitAt(front: Code, code: Code, n: nat)
    requires n < |code|
    ensures var all := front + code[n..];
            && all[|front|] == code[n] && all[|front| + 1..] == code[n + 1..]
            && Without(all, |front|) == front + code[n + 1..]
  {
    var all := front + code[n..];
    assert all[..|front|] == front;
    assert all[|front| + 1..] == code[n..][1..] == code[n + 1..];
  }

  // ----- the kernel -----

  /** Every block run on the way, this one included, ends with its keys apart. */
  ghost predicate BlockApart(I: Interp, k: KernelValue, outputs: set<string>, code: Code, env: Env, st: State, fuel: nat)
    decreases fuel, |code|, 1
  {
    var o := Run(I, k, code, env, st, fuel);
    (o.Done? ==> KeysApart(I, code, outputs, o.env)) && RunApart(I, k, outputs, code, env, st, fuel)
  }

  ghost predicate RunApart(I: Interp, k: KernelValue, outputs: set<string>, code: Code, env: Env, st: State, fuel: nat)
    decreases fuel, |code|, 0
  {
    code == [] ||
    var o := Step(I, k, code[0], env, st, fuel);
    StepApart(I, k, outputs, code[0], env, st, fuel) && (o.Done? ==> RunApart(I, k, outputs, code[1..], o.env, o.st, fuel))
  }

  ghost predicate StepApart(I: Interp, k: KernelValue, outputs: set<string>, ins: Instr, env: Env, st: State, fuel: nat)
    decreases fuel, 0, 1
  {
    Uses(ins.op) <= env.Keys ==>
      match ins.op
      case Loop(v, s, e, inc, b) => IterateApart(I, k, outputs, v, b, env[s], env[e], env[inc], env, st, fuel)
      case If(c, t, e) =>
        fuel > 0 ==>
          var code := if I.truthy(env[c]) then CodeOf(k, t) else if e.Some? then CodeOf(k, e.value) else [];
          BlockApart(I, k, outputs, code, env, st, fuel - 1)
      case _ => true
  }

  ghost predicate IterateApart(I: Interp, k: KernelValue, outputs: set<string>, v: VarId, b: BlockId, i: Val, e: Val, inc: Val,
                               env: Env, st: State, fuel: nat)
    decreases fuel, 0, 0
  {
    I.less(i, e) && fuel > 0 && LoopIds(v) * env.Keys == {} ==>
      var inner := BindLoop(v, i, env);
      var o := Run(I, k, CodeOf(k, b), inner, st, fuel - 1);
      && BlockApart(I, k, outputs, CodeOf(k, b), inner, st, fuel - 1)
      && (o.Done? ==> IterateApart(I, k, outputs, v, b, I.plus(i, inc), e, inc, env, o.st, fuel - 1))
  }

  /** The laws of memory, and a kernel in which nothing comes between. */
  ghost predicate Sweepable(I: Interp, k: KernelValue, outputs: set<string>) {
    Local(I) && Overwrites(I) && UndisturbedKernel(k, outputs)
  }

  /** A block of the kernel against the swept block in the swept kernel. */
  lemma {:induction false} BlockSwept(I: Interp, k: KernelValue, outputs: set<string>, w: Where, env: Env, s: State, s': State, fuel: nat)
    requires Sweepable(I, k, outputs) && Near(s, s', None)
    requires Run(I, k, CodeAt(k, w), env, s, fuel).Done? && BlockApart(I, k, outputs, CodeAt(k, w), env, s, fuel)
    ensures SameEnd(Run(I, k, CodeAt(k, w), env, s, fuel),
                    Run(I, SweptKernel(k, outputs), SweptCode(CodeAt(k, w), outputs), env, s', fuel))
    decreases fuel, |CodeAt(k, w)|, 1
  {
    hide Run, RunApart, KeysApart, Near, Local, Overwrites, SweptKernel, Undisturbed;
    var k', code := SweptKernel(k, outputs), CodeAt(k, w);
    RunSwept(I, k, outputs, code, env, s, s', fuel);
    UndisturbedSwept(k, outputs, code);
    SweepPreserves(I, k', code, outputs, |code|, env, s', fuel);
    assert Swept(code, outputs, |code|) + code[|code|..] == SweptCode(code, outputs);
    NearTwice(Run(I, k, code, env, s, fuel), Run(I, k', code, env, s', fuel), Run(I, k', SweptCode(code, outputs), env, s', fuel));
  }

  lemma NearTwice(a: Outcome, b: Outcome, c: Outcome)
    requires SameEnd(a, b) && SameEnd(b, c)
    ensures SameEnd(a, c)
  {
  }

  lemma UndisturbedSwept(k: KernelValue, outputs: set<string>, code: Code)
    requires Undisturbed(k, code, outputs)
    ensures Undisturbed(SweptKernel(k, outputs), code, outputs)
  {
    hide Pending, StraightOp, Avoids, SweptKernel, StoredFrom, IsRead;
    forall i: nat, t: nat | Between(code, outputs, i, t)
      ensures StraightOp(code[t].op) || Avoids(SweptKernel(k, outputs), code[t], KeyOfStore(code[i].op).value.dst)
    {
      if !StraightOp(code[t].op) { AvoidsSwept(k, outputs, code[t], KeyOfStore(code[i].op).value.dst); }
    }
  }

  /** The same code, while the blocks it runs are swept. */
  lemma {:induction false} RunSwept(I: Interp, k: KernelValue, outputs: set<string>, code: Code, env: Env, s: State, s': State, fuel: nat)
    requires Sweepable(I, k, outputs) && Near(s, s', None)
    requires Run(I, k, code, env, s, fuel).Done? && RunApart(I, k, outputs, code, env, s, fuel)
    ensures SameEnd(Run(I, k, code, env, s, fuel), Run(I, SweptKernel(k, outputs), code, env, s', fuel))
    decreases fuel, |code|, 0
  {
    hide Step, StepApart, Near, Sweepable, SweptKernel;
    if code != [] {
      StepSwept(I, k, outputs, code[0], env, s, s', fuel);
      var o, o' := Step(I, k, code[0], env, s, fuel), Step(I, SweptKernel(k, outputs), code[0], env, s', fuel);
      RunSwept(I, k, outputs, code[1..], o.env, o.st, o'.st, fuel);
    }
  }

  lemma {:induction false} StepSwept(I: Interp, k: KernelValue, outputs: set<string>, ins: Instr, env: Env, s: State, s': State, fuel: nat)
    requires Sweepable(I, k, outputs) && Near(s, s', None)
    requires Step(I, k, ins, env, s, fuel).Done? && StepApart(I, k, outputs, ins, env, s, fuel)
    ensures SameEnd(Step(I, k, ins, env, s, fuel), Step(I, SweptKernel(k, outputs), ins, env, s', fuel))
    decreases fuel, 0, 1
  {
    var k' := SweptKernel(k, outputs);
    hide SweptKernel, Near, UndisturbedKernel, Local, Overwrites, BlockApart, IterateApart;
    if ins.op.Loop? {
      IterateSwept(I, k, outputs, ins.op.loopVar, ins.op.body, env[ins.op.start], env[ins.op.end], env[ins.op.step], env, s, s', fuel);
    } else if ins.op.If? {
      var (c, t, e) := (ins.op.cond, ins.op.thenBlock, ins.op.elseBlock);
      if I.truthy(env[c]) || e.Some? {
        var b := if I.truthy(env[c]) then t else e.value;
        SweptAt(k, outputs, b);
        assert CodeAt(k, Some(b)) == CodeOf(k, b);
        BlockSwept(I, k, outputs, Some(b), env, s, s', fuel - 1);
      }
    } else {
      StepElsewhere(I, k, k', ins, env, s', fuel);
      StepNear(I, k, ins, env, s, s', fuel, None, {});
    }
  }

  lemma StepElsewhere(I: Interp, k: KernelValue, k': KernelValue, ins: Instr, env: Env, st: State, fuel: nat)
    requires !ins.op.Loop? && !ins.op.If?
    ensures Step(I, k, ins, env, st, fuel) == Step(I, k', ins, env, st, fuel)
  {
  }

  lemma {:induction false} IterateSwept(I: Interp, k: KernelValue, outputs: set<string>, v: VarId, b: BlockId,
      i: Val, e: Val, inc: Val, env: Env, s: State, s': State, fuel: nat)
    requires Sweepable(I, k, outputs) && Near(s, s', None)
    requires Iterate(I, k, v, b, i, e, inc, env, s, fuel).Done? && IterateApart(I, k, outputs, v, b, i, e, inc, env, s, fuel)
    ensures SameEnd(Iterate(I, k, v, b, i, e, inc, env, s, fuel), Iterate(I, SweptKernel(k, outputs), v, b, i, e, inc, env, s', fuel))
    decreases fuel, 0, 0
  {
    hide SweptKernel, Near, Sweepable, BlockApart;
    if I.less(i, e) {
      var inner, k' := BindLoop(v, i, env), SweptKernel(k, outputs);
      SweptAt(k, outputs, b);
      assert CodeAt(k, Some(b)) == CodeOf(k, b);
      BlockSwept(I, k, outputs, Some(b), inner, s, s', fuel - 1);
      var o, o' := Run(I, k, CodeOf(k, b), inner, s, fuel - 1), Run(I, k', CodeOf(k', b), inner, s', fuel - 1);
      IterateSwept(I, k, outputs, v, b, I.plus(i, inc), e, inc, env, o.st, o'.st, fuel - 1);
    }
  }

  /** The pass on a kernel: every id of the entry block, the final memory and everything the
      effects show are the same. */
  lemma PassPreserves(I: Interp, k: KernelValue, outputs: set<string>, st: State, fuel: nat)
    requires Local(I) && Overwrites(I) && UndisturbedKernel(k, outputs)
    requires RunKernel(I, k, st, fuel).Done? && BlockApart(I, k, outputs, k.body, map[], st, fuel)
    ensures SameEnd(RunKernel(I, k, st, fuel), RunKernel(I, SweptKernel(k, outputs), st, fuel))
  {
    assert CodeAt(k, None) == k.body;
    hide Local, Overwrites, UndisturbedKernel, BlockApart;
    BlockSwept(I, k, outputs, None, map[], st, st, fuel);
  }
}
