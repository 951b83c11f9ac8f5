/**
 When the sweep shows. If a fetch or an effect gets at a buffer after a dead store and
 before the store that overwrites it, then some interpretation that obeys every law of
 `DeadStoreSound` tells the swept kernel from the original. For a kernel of one block this
 gives the exact condition under which the pass is right.
 */
module DeadStoreShows {
  import opened Ir
  import opened Semantics
  import opened DeadStoreElim
  import opened DeadStoreSound

  /** The instruction lets a value or another thread depend on the buffer, or changes it
      behind the keys' back. */
  predicate Sees(ins: Instr, buf: string) {
    (ins.op.Effect? && buf in ins.op.bufs) || (ins.op.Fetch? && buf in ins.op.bufs && ins.res.Some?)
  }

  /** Position t sees what the dead store i wrote. */
  predicate Exposed(code: Code, outputs: set<string>, i: nat, t: nat) {
    Between(code, outputs, i, t) && Sees(code[t], KeyOfStore(code[i].op).value.dst)
  }

  predicate NoControl(code: Code) {
    forall i :: 0 <= i < |code| ==> !code[i].op.Loop? && !code[i].op.If?
  }

  /** Loops and branches can be made to run nothing. */
  predicate Skippable(code: Code) {
    forall i :: 0 <= i < |code| ==> code[i].op.If? ==> code[i].op.elseBlock.None?
  }

  ghost predicate Total(I: Interp) { forall op, a, b :: I.bin(op, a, b).Some? }

  const Start := State(map[], [])

  // ----- interpretations in which no condition holds -----

  ghost predicate Idle(I: Interp) { (forall v :: !I.truthy(v)) && (forall a, b :: !I.less(a, b)) }

  lemma IdleAt(I: Interp, a: Val, b: Val)
    requires Idle(I)
    ensures !I.truthy(a) && !I.less(a, b)
  {
  }

  lemma TotalAt(I: Interp, op: BinOpKind, a: Val, b: Val)
    requires Total(I)
    ensures I.bin(op, a, b).Some?
  {
  }

  /** Loops and branches do nothing. */
  lemma IdleControl(I: Interp, k: KernelValue, ins: Instr, env: Env, st: State)
    requires Idle(I) && (ins.op.Loop? || (ins.op.If? && ins.op.elseBlock.None?)) && Uses(ins.op) <= env.Keys
    ensures Step(I, k, ins, env, st, 1) == Done(env, st)
  {
    if ins.op.Loop? {
      var op := ins.op;
      IdleAt(I, env[op.start], env[op.end]);
      assert Iterate(I, k, op.loopVar, op.body, env[op.start], env[op.end], env[op.step], env, st, 1) == Done(env, st);
    } else {
      IdleAt(I, env[ins.op.cond], 0);
      assert Run(I, k, [], env, st, 0) == Done(env, st);
    }
  }

  lemma EvalTotal(I: Interp, op: Op, env: Env, mem: Memory)
    requires Total(I) && IsValueOp(op) && Uses(op) <= env.Keys
    ensures Eval(I, op, env, mem).Some?
  {
    if op.BinOp? { TotalAt(I, op.bin, env[op.lhs], env[op.rhs]); }
  }

  // ----- interpretations that watch one location -----

  /** No condition holds, loads and fetches yield 0, and no store has an effect. */
  ghost function Blind(I: Interp): Interp {
    I.(truthy := _ => false, less := (_, _) => false,
       read := (_, _) => 0, vectorRead := (_, _, _) => 0,
       write := (b, _, _) => b, vectorWrite := (b, _, _, _) => b,
       fetch := (_, _, _, _) => 0, effect := (_, _, _, st: State) => st.mem)
  }

  /** The same, but a store to one location leaves a mark, and a fetch from the buffer sees it. */
  ghost function Watching(I: Interp, l: Loc, buf: string): Interp {
    Blind(I).(
      write := (b, idx, _) => if ScalarLoc(idx) == l then [1] else b,
      vectorWrite := (b, off, len: nat, _) => if VectorLoc(off, len) == l then [1] else b,
      fetch := (_, bufs, _, st: State) => if buf in bufs && Buf(st.mem, buf) != [] then 1 else 0)
  }

  /** A watching interpretation obeys the laws; no location interferes with any other. */
  lemma WatchingIsLawful(I: Interp, l: Loc, buf: string)
    ensures Local(Watching(I, l, buf)) && Overwrites(Watching(I, l, buf))
    ensures forall a, b :: Apart(Watching(I, l, buf), a, b)
  {
    var W := Watching(I, l, buf);
    forall b, a, v ensures WriteAt(W, b, a, v) == (if a == l then [1] else b) && ReadAt(W, b, a) == 0 {}
    assert Overwrites(W);
    assert forall a, b :: Apart(W, a, b);
    hide Observed;
    assert Local(W);
  }

  ghost predicate StoresTo(op: Op, buf: string, l: Loc, env: Env) {
    var key := KeyOfStore(op);
    key.Some? && key.value.dst == buf && KeyIds(key.value) <= env.Keys && LocOf(key.value, env) == l
  }

  /** An op that does not mark the watched cell and sees no mark. */
  ghost predicate Unmarked(ins: Instr, env: Env, st: State, l: Loc, buf: string) {
    && (ins.op.Fetch? && Sees(ins, buf) ==> Buf(st.mem, buf) == [])
    && (HasMask(ins.op) || !StoresTo(ins.op, buf, l, env))
  }

  ghost predicate Follows(b: Outcome, o: Outcome, st: State, buf: string, ins: Instr) {
    && o.Done? && b.Done? && o.env == b.env && Buf(o.st.mem, buf) == Buf(st.mem, buf)
    && |Observed(o.st.trace)| == |Observed(st.trace)| + (if ins.op.Effect? then 1 else 0)
  }

  /** Such an op does what it does blindly, in whatever memory. */
  lemma StepWatched(I: Interp, k: KernelValue, k': KernelValue, ins: Instr, env: Env, blind: State, st: State, l: Loc, buf: string)
    requires Step(Blind(I), k, ins, env, blind, 1).Done? && (ins.op.If? ==> ins.op.elseBlock.None?)
    requires Unmarked(ins, env, st, l, buf)
    ensures Follows(Step(Blind(I), k, ins, env, blind, 1), Step(Watching(I, l, buf), k', ins, env, st, 1), st, buf, ins)
  {
    var W := Watching(I, l, buf);
    if IsValueOp(ins.op) {
      ValueWatched(I, ins, env, blind.mem, st.mem, l, buf);
      StraightStep(Blind(I), k, ins, env, blind, 1);
      StraightStep(W, k', ins, env, st, 1);
      hide Step, Observed, Eval, Blind, Watching, Unmarked;
    } else if KeyOfStore(ins.op).Some? {
      StoreWatched(I, k, k', ins, env, blind, st, l, buf);
    } else if ins.op.Fetch? || ins.op.Effect? {
      OutsideWatched(I, k, k', ins, env, blind, st, l, buf);
    } else {
      IdleControl(Blind(I), k, ins, env, blind);
      IdleControl(W, k', ins, env, st);
      hide Step, Observed, Blind, Watching, Unmarked;
    }
  }

  lemma OutsideWatched(I: Interp, k: KernelValue, k': KernelValue, ins: Instr, env: Env, blind: State, st: State, l: Loc, buf: string)
    requires (ins.op.Fetch? || ins.op.Effect?) && Step(Blind(I), k, ins, env, blind, 1).Done? && Unmarked(ins, env, st, l, buf)
    ensures Follows(Step(Blind(I), k, ins, env, blind, 1), Step(Watching(I, l, buf), k', ins, env, st, 1), st, buf, ins)
  {
    StepOutside(Blind(I), k, ins, env, blind, 1);
    StepOutside(Watching(I, l, buf), k', ins, env, st, 1);
    ObservedSnoc(st.trace, Effected(ins.op.tag, Vals(ins.op.args, env), Shown(ins.op.bufs, st.mem)));
    hide Step, Observed, Vals;
  }

  lemma ValueWatched(I: Interp, ins: Instr, env: Env, blind: Memory, mem: Memory, l: Loc, buf: string)
    requires IsValueOp(ins.op) && Uses(ins.op) <= env.Keys
    ensures Eval(Watching(I, l, buf), ins.op, env, mem) == Eval(Blind(I), ins.op, env, blind)
  {
  }

  lemma StoreWatched(I: Interp, k: KernelValue, k': KernelValue, ins: Instr, env: Env, blind: State, st: State, l: Loc, buf: string)
    requires KeyOfStore(ins.op).Some? && Step(Blind(I), k, ins, env, blind, 1).Done? && Unmarked(ins, env, st, l, buf)
    ensures Follows(Step(Blind(I), k, ins, env, blind, 1), Step(Watching(I, l, buf), k', ins, env, st, 1), st, buf, ins)
  {
    var W := Watching(I, l, buf);
    hide Step, Observed, LocOf, StoreMem, Watching, Blind, Unmarked;
    StraightStep(Blind(I), k, ins, env, blind, 1);
    StraightStep(W, k', ins, env, st, 1);
    UnmarkedStore(I, ins, env, st, l, buf);
  }

  lemma UnmarkedStore(I: Interp, ins: Instr, env: Env, st: State, l: Loc, buf: string)
    requires (ins.op.Store? || ins.op.VectorStore?) && Uses(ins.op) <= env.Keys && Unmarked(ins, env, st, l, buf)
    ensures Buf(StoreMem(Watching(I, l, buf), ins.op, env, st.mem), buf) == Buf(st.mem, buf)
  {
    hide LocOf;
  }

  /** A store to the watched location leaves its mark. */
  lemma StoreMarks(I: Interp, k: KernelValue, ins: Instr, env: Env, blind: State, st: State, key: StoreKey, l: Loc)
    requires Settles(ins.op, key) && Step(Blind(I), k, ins, env, blind, 1).Done?
    requires KeyIds(key) <= env.Keys ==> LocOf(key, env) == l
    ensures var b, o := Step(Blind(I), k, ins, env, blind, 1), Step(Watching(I, l, key.dst), k, ins, env, st, 1);
            && b.Done? && o.Done? && o.env == b.env == env
            && Buf(o.st.mem, key.dst) == [1] && Observed(o.st.trace) == Observed(st.trace)
  {
    StraightStep(Blind(I), k, ins, env, blind, 1);
    StraightStep(Watching(I, l, key.dst), k, ins, env, st, 1);
    hide Step, Observed, LocOf;
  }

  // ----- runs -----

  lemma {:induction false} RunAppend(I: Interp, k: KernelValue, a: Code, b: Code, env: Env, st: State, fuel: nat)
    ensures var o := Run(I, k, a, env, st, fuel);
            Run(I, k, a + b, env, st, fuel) == if o.Done? then Run(I, k, b, o.env, o.st, fuel) else o
    decreases |a|
  {
    hide Step;
    if a == [] {
      assert a + b == b;
    } else {
      assert (a + b)[1..] == a[1..] + b;
      var o := Step(I, k, a[0], env, st, fuel);
      if o.Done? { RunAppend(I, k, a[1..], b, o.env, o.st, fuel); }
    }
  }

  lemma RunOne(I: Interp, k: KernelValue, ins: Instr, env: Env, st: State, fuel: nat)
    ensures Run(I, k, [ins], env, st, fuel) == Step(I, k, ins, env, st, fuel)
  {
    RunCons(I, k, ins, [], env, st, fuel);
    assert [ins] + [] == [ins];
    hide Step;
  }

  /** One more instruction. */
  lemma RunSnoc(I: Interp, k: KernelValue, code: Code, n: nat, env: Env, st: State, fuel: nat)
    requires n < |code|
    ensures var o := Run(I, k, code[..n], env, st, fuel);
            Run(I, k, code[..n + 1], env, st, fuel) == if o.Done? then Step(I, k, code[n], o.env, o.st, fuel) else o
  {
    hide Step, Run;
    assert code[..n + 1] == code[..n] + [code[n]];
    RunAppend(I, k, code[..n], [code[n]], env, st, fuel);
    var o := Run(I, k, code[..n], env, st, fuel);
    if o.Done? { RunOne(I, k, code[n], o.env, o.st, fuel); }
  }

  lemma PrefixDone(I: Interp, k: KernelValue, code: Code, n: nat, env: Env, st: State, fuel: nat)
    requires n <= |code| && Run(I, k, code, env, st, fuel).Done?
    ensures Run(I, k, code[..n], env, st, fuel).Done?
    ensures Extends(Run(I, k, code[..n], env, st, fuel).env, Run(I, k, code, env, st, fuel).env)
  {
    hide Run;
    assert code == code[..n] + code[n..];
    RunAppend(I, k, code[..n], code[n..], env, st, fuel);
    var o := Run(I, k, code[..n], env, st, fuel);
    RunExtends(I, k, code[n..], o.env, o.st, fuel);
  }

  // ----- the two runs up to the exposed position -----

  /** Other keys of the buffer denote other locations than this one. */
  ghost predicate Distinct(code: Code, key: StoreKey, env: Env) {
    && KeyIds(key) <= env.Keys
    && forall j :: 0 <= j < |code| && KeyOfStore(code[j].op) != Some(key) ==>
        !StoresTo(code[j].op, key.dst, LocOf(key, env), env)
  }

  /** t is the first position that sees a dead store of the key. */
  ghost predicate FirstExposed(code: Code, outputs: set<string>, key: StoreKey, i: nat, t: nat) {
    && Exposed(code, outputs, i, t) && KeyOfStore(code[i].op) == Some(key)
    && forall j: nat, n: nat :: n < t && Exposed(code, outputs, j, n) ==> KeyOfStore(code[j].op) != Some(key)
  }

  /** Before t every store of the key is dead. */
  lemma DeadBefore(code: Code, outputs: set<string>, key: StoreKey, i: nat, t: nat, n: nat)
    requires FirstExposed(code, outputs, key, i, t) && n < t < |code| && Settles(code[n].op, key)
    ensures IsDeadStore(code, outputs, n)
  {
    assert n <= i;
    var j :| i + 1 <= j < |code| && Candidate(code[j].op, outputs, key);
    assert n + 1 <= j;
  }

  lemma ExposedThere(code: Code, outputs: set<string>, key: StoreKey, j: nat, n: nat)
    requires j < n < |code| && IsDeadStore(code, outputs, j) && KeyOfStore(code[j].op) == Some(key) && Sees(code[n], key.dst)
    requires forall q :: j < q < n ==> !Settles(code[q].op, key)
    ensures Exposed(code, outputs, j, n)
  {
  }

  /** Before t whatever sees the buffer sees no mark. */
  lemma {:induction false} CleanBefore(code: Code, outputs: set<string>, key: StoreKey, i: nat, t: nat, n: nat, m: nat)
    requires FirstExposed(code, outputs, key, i, t) && m <= n < t < |code| && Sees(code[n], key.dst)
    requires forall j :: m <= j < n ==> !Settles(code[j].op, key)
    ensures !SettledBefore(code, key, m)
    decreases m
  {
    hide Sees, IsDeadStore;
    if m > 0 {
      if Settles(code[m - 1].op, key) {
        DeadBefore(code, outputs, key, i, t, m - 1);
        ExposedThere(code, outputs, key, m - 1, n);
        assert false;
      }
      CleanBefore(code, outputs, key, i, t, n, m - 1);
    }
  }

  /** The blind run, the original and the swept one after n instructions. */
  ghost predicate InStep(b: Outcome, o: Outcome, o': Outcome, buf: string, marked: bool) {
    && b.Done? && o.Done? && o'.Done? && b.env == o.env == o'.env
    && Buf(o.st.mem, buf) == (if marked then [1] else []) && Buf(o'.st.mem, buf) == []
    && |Observed(o.st.trace)| == |Observed(o'.st.trace)|
  }

  ghost predicate PrefixInStep(I: Interp, k: KernelValue, k': KernelValue, code: Code, outputs: set<string>,
                               key: StoreKey, l: Loc, env: Env, n: nat)
    requires n <= |code|
  {
    var W := Watching(I, l, key.dst);
    InStep(Run(Blind(I), k, code[..n], env, Start, 1), Run(W, k, code[..n], env, Start, 1),
           Run(W, k', Swept(code, outputs, n), env, Start, 1), key.dst, SettledBefore(code, key, n))
  }

  lemma {:induction false} PrefixRuns(I: Interp, k: KernelValue, k': KernelValue, code: Code, outputs: set<string>,
                                      key: StoreKey, i: nat, t: nat, env: Env, n: nat)
    requires Skippable(code) && FirstExposed(code, outputs, key, i, t) && n <= t < |code|
    requires Run(Blind(I), k, code, env, Start, 1).Done? && Distinct(code, key, Run(Blind(I), k, code, env, Start, 1).env)
    ensures PrefixInStep(I, k, k', code, outputs, key, LocOf(key, Run(Blind(I), k, code, env, Start, 1).env), env, n)
  {
    if n == 0 { return; }
    hide Run, Step, Blind, Watching, Distinct, FirstExposed, LocOf, Observed;
    PrefixRuns(I, k, k', code, outputs, key, i, t, env, n - 1);
    PrefixStep(I, k, k', code, outputs, key, i, t, env, n - 1);
  }

  lemma PrefixStep(I: Interp, k: KernelValue, k': KernelValue, code: Code, outputs: set<string>,
                   key: StoreKey, i: nat, t: nat, env: Env, n: nat)
    requires Skippable(code) && FirstExposed(code, outputs, key, i, t) && n < t < |code|
    requires Run(Blind(I), k, code, env, Start, 1).Done? && Distinct(code, key, Run(Blind(I), k, code, env, Start, 1).env)
    requires PrefixInStep(I, k, k', code, outputs, key, LocOf(key, Run(Blind(I), k, code, env, Start, 1).env), env, n)
    ensures PrefixInStep(I, k, k', code, outputs, key, LocOf(key, Run(Blind(I), k, code, env, Start, 1).env), env, n + 1)
  {
    var B, l := Blind(I), LocOf(key, Run(Blind(I), k, code, env, Start, 1).env);
    var W := Watching(I, l, key.dst);
    hide Run, Step, Blind, Watching, Observed, LocOf, Sees, IsDeadStore, Swept, Distinct, FirstExposed;
    PrefixDone(B, k, code, n + 1, env, Start, 1);
    RunSnoc(B, k, code, n, env, Start, 1);
    RunSnoc(W, k, code, n, env, Start, 1);
    var b, o := Run(B, k, code[..n], env, Start, 1), Run(W, k, code[..n], env, Start, 1);
    var o' := Run(W, k', Swept(code, outputs, n), env, Start, 1);
    StepExtends(B, k, code[n], b.env, b.st, 1);
    SettledNext(code, key, n);
    if Settles(code[n].op, key) {
      KeyEarlier(key, b.env, Run(B, k, code, env, Start, 1).env);
      StoreMarks(I, k, code[n], b.env, b.st, o.st, key, l);
      DeadBefore(code, outputs, key, i, t, n);
      SweptNext(code, outputs, n);
    } else {
      NoMark(I, code, outputs, key, i, t, n, b.env, o.st, Run(B, k, code, env, Start, 1).env);
      UnmarkedClean(code[n], b.env, o.st, o'.st, l, key.dst);
      StepWatched(I, k, k, code[n], b.env, b.st, o.st, l, key.dst);
      StepWatched(I, k, k', code[n], b.env, b.st, o'.st, l, key.dst);
      SweptNext(code, outputs, n);
      if IsDeadStore(code, outputs, n) {
        DeadIsSilent(B, k, code, outputs, n, b.env, b.st);
      } else {
        RunAppend(W, k', Swept(code, outputs, n), [code[n]], env, Start, 1);
        RunOne(W, k', code[n], o'.env, o'.st, 1);
      }
    }
  }

  lemma SettledNext(code: Code, key: StoreKey, n: nat)
    requires n < |code|
    ensures SettledBefore(code, key, n + 1) <==> SettledBefore(code, key, n) || Settles(code[n].op, key)
  {
    hide Settles;
  }

  lemma DeadIsSilent(I: Interp, k: KernelValue, code: Code, outputs: set<string>, n: nat, env: Env, st: State)
    requires n < |code| && IsDeadStore(code, outputs, n) && Step(I, k, code[n], env, st, 1).Done?
    ensures Step(I, k, code[n], env, st, 1).env == env && !code[n].op.Effect?
  {
    StraightStep(I, k, code[n], env, st, 1);
    hide Step, Observed;
  }

  lemma KeyEarlier(key: StoreKey, env: Env, last: Env)
    requires Extends(env, last) && KeyIds(key) <= last.Keys
    ensures KeyIds(key) <= env.Keys ==> LocOf(key, env) == LocOf(key, last)
  {
    if KeyIds(key) <= env.Keys { LocExtends(key, env, last); }
  }

  lemma NoMark(I: Interp, code: Code, outputs: set<string>, key: StoreKey, i: nat, t: nat, n: nat, env: Env, st: State, last: Env)
    requires FirstExposed(code, outputs, key, i, t) && n < t < |code| && !Settles(code[n].op, key)
    requires Extends(env, last) && Distinct(code, key, last)
    requires Buf(st.mem, key.dst) == if SettledBefore(code, key, n) then [1] else []
    ensures Unmarked(code[n], env, st, LocOf(key, last), key.dst)
  {
    hide LocOf, FirstExposed, SettledBefore, KeyIds;
    var ins := code[n];
    if ins.op.Fetch? && Sees(ins, key.dst) {
      CleanBefore(code, outputs, key, i, t, n, n);
    }
    if StoresTo(ins.op, key.dst, LocOf(key, last), env) {
      LocExtends(KeyOfStore(ins.op).value, env, last);
      assert StoresTo(ins.op, key.dst, LocOf(key, last), last);
    }
  }

  lemma UnmarkedClean(ins: Instr, env: Env, st: State, st': State, l: Loc, buf: string)
    requires Unmarked(ins, env, st, l, buf) && Buf(st'.mem, buf) == []
    ensures Unmarked(ins, env, st', l, buf)
  {
  }

  // ----- the two runs from there on -----

  /** What is observed only grows. */
  lemma {:induction false} RunObserves(I: Interp, k: KernelValue, code: Code, env: Env, st: State)
    requires Idle(I) && Skippable(code) && Run(I, k, code, env, st, 1).Done?
    ensures Observed(st.trace) <= Observed(Run(I, k, code, env, st, 1).st.trace)
    decreases |code|
  {
    hide Step, Observed;
    if code != [] {
      StepObserves(I, k, code[0], env, st);
      var o := Step(I, k, code[0], env, st, 1);
      RunObserves(I, k, code[1..], o.env, o.st);
    }
  }

  lemma StepObserves(I: Interp, k: KernelValue, ins: Instr, env: Env, st: State)
    requires Idle(I) && (ins.op.If? ==> ins.op.elseBlock.None?) && Step(I, k, ins, env, st, 1).Done?
    ensures Observed(st.trace) <= Observed(Step(I, k, ins, env, st, 1).st.trace)
  {
    if StraightOp(ins.op) {
      StraightStep(I, k, ins, env, st, 1);
    } else if ins.op.Fetch? || ins.op.Effect? {
      StepOutside(I, k, ins, env, st, 1);
      ObservedSnoc(st.trace, Effected(ins.op.tag, Vals(ins.op.args, env), Shown(ins.op.bufs, st.mem)));
    } else {
      IdleControl(I, k, ins, env, st);
    }
    hide Observed, Eval, StoreMem, StraightOp, Step;
  }

  /** Where no operator is partial, whether a run completes depends on the ids alone. */
  lemma {:induction false} RunCompletes(I: Interp, J: Interp, k: KernelValue, code: Code, env: Env, env': Env, st: State, st': State)
    requires Idle(I) && Idle(J) && Total(J) && Skippable(code) && env.Keys == env'.Keys && Run(I, k, code, env, st, 1).Done?
    ensures Run(J, k, code, env', st', 1).Done?
    decreases |code|
  {
    hide Step, Idle, Total;
    if code != [] {
      StepCompletes(I, J, k, code[0], env, env', st, st');
      var o, o' := Step(I, k, code[0], env, st, 1), Step(J, k, code[0], env', st', 1);
      RunCompletes(I, J, k, code[1..], o.env, o'.env, o.st, o'.st);
    }
  }

  lemma StepCompletes(I: Interp, J: Interp, k: KernelValue, ins: Instr, env: Env, env': Env, st: State, st': State)
    requires Idle(I) && Idle(J) && Total(J) && (ins.op.If? ==> ins.op.elseBlock.None?) && env.Keys == env'.Keys
    requires Step(I, k, ins, env, st, 1).Done?
    ensures var o, o' := Step(I, k, ins, env, st, 1), Step(J, k, ins, env', st', 1); o'.Done? && o.env.Keys == o'.env.Keys
  {
    if StraightOp(ins.op) {
      StraightStep(I, k, ins, env, st, 1);
      StraightStep(J, k, ins, env', st', 1);
      if IsValueOp(ins.op) { EvalTotal(J, ins.op, env', st'.mem); }
      hide Step, Eval, StoreMem, Observed;
    } else if ins.op.Fetch? || ins.op.Effect? {
      StepOutside(I, k, ins, env, st, 1);
      StepOutside(J, k, ins, env', st', 1);
      hide Step;
    } else {
      IdleControl(I, k, ins, env, st);
      IdleControl(J, k, ins, env', st');
      hide Step;
    }
  }

  lemma {:induction false} UsesDefined(I: Interp, k: KernelValue, code: Code, env: Env, st: State, fuel: nat, j: nat)
    requires Run(I, k, code, env, st, fuel).Done? && j < |code|
    ensures Uses(code[j].op) <= Run(I, k, code, env, st, fuel).env.Keys
    decreases |code|
  {
    var o := Step(I, k, code[0], env, st, fuel);
    assert Uses(code[0].op) <= env.Keys;
    RunExtends(I, k, code, env, st, fuel);
    hide Step;
    if j > 0 {
      UsesDefined(I, k, code[1..], o.env, o.st, fuel, j - 1);
    }
  }

  lemma {:induction false} IdleRunApart(I: Interp, k: KernelValue, outputs: set<string>, code: Code, env: Env, st: State)
    requires Idle(I) && Skippable(code)
    ensures RunApart(I, k, outputs, code, env, st, 1)
    decreases |code|
  {
    hide Step;
    if code != [] {
      IdleStepApart(I, k, outputs, code[0], env, st);
      var o := Step(I, k, code[0], env, st, 1);
      if o.Done? { IdleRunApart(I, k, outputs, code[1..], o.env, o.st); }
    }
  }

  lemma IdleStepApart(I: Interp, k: KernelValue, outputs: set<string>, ins: Instr, env: Env, st: State)
    requires Idle(I) && (ins.op.If? ==> ins.op.elseBlock.None?)
    ensures StepApart(I, k, outputs, ins, env, st, 1)
  {
    if Uses(ins.op) <= env.Keys {
      if ins.op.Loop? {
        IdleAt(I, env[ins.op.start], env[ins.op.end]);
      } else if ins.op.If? {
        IdleAt(I, env[ins.op.cond], 0);
        assert RunApart(I, k, outputs, [], env, st, 0);
        assert KeysApart(I, [], outputs, env);
        assert BlockApart(I, k, outputs, [], env, st, 0);
      }
    }
  }

  /** Where no location interferes with another, any two keys are apart. */
  lemma AllApart(I: Interp, code: Code, outputs: set<string>, env: Env)
    requires (forall a, b :: Apart(I, a, b)) && forall j :: 0 <= j < |code| ==> Uses(code[j].op) <= env.Keys
    ensures KeysApart(I, code, outputs, env)
  {
    hide Apart, IsDeadStore, LocOf;
  }

  /** Under a watching interpretation all keys are apart. */
  lemma WatchedApart(I: Interp, l: Loc, buf: string, k: KernelValue, outputs: set<string>, code: Code, env: Env)
    requires Skippable(code)
    ensures BlockApart(Watching(I, l, buf), k, outputs, code, env, Start, 1)
  {
    var W := Watching(I, l, buf);
    WatchingIsLawful(I, l, buf);
    IdleRunApart(W, k, outputs, code, env, Start);
    hide Run, RunApart, Watching, KeysApart, Apart, Local, Uses, Skippable;
    var o := Run(W, k, code, env, Start, 1);
    if o.Done? {
      forall j: nat | j < |code| ensures Uses(code[j].op) <= o.env.Keys {
        UsesDefined(W, k, code, env, Start, 1, j);
      }
      AllApart(W, code, outputs, o.env);
    }
  }

  /** After the exposed position the two runs differ for good. */
  lemma ExposedDiffers(I: Interp, k: KernelValue, k': KernelValue, ins: Instr, rest: Code, rest': Code,
                       env: Env, st: State, st': State, l: Loc, buf: string)
    requires Sees(ins, buf) && Skippable(rest) && Skippable(rest')
    requires Buf(st.mem, buf) == [1] && Buf(st'.mem, buf) == [] && |Observed(st.trace)| == |Observed(st'.trace)|
    ensures var W := Watching(I, l, buf);
            !SameEnd(Run(W, k, [ins] + rest, env, st, 1), Run(W, k', [ins] + rest', env, st', 1))
  {
    var W := Watching(I, l, buf);
    RunCons(W, k, ins, rest, env, st, 1);
    RunCons(W, k', ins, rest', env, st', 1);
    var a, a' := Run(W, k, [ins] + rest, env, st, 1), Run(W, k', [ins] + rest', env, st', 1);
    if a.Done? && a'.Done? {
      var o, o' := Step(W, k, ins, env, st, 1), Step(W, k', ins, env, st', 1);
      if ins.op.Fetch? {
        FetchDiffers(I, k, k', ins, env, st, st', l, buf);
        RunExtends(W, k, rest, o.env, o.st, 1);
        RunExtends(W, k', rest', o'.env, o'.st, 1);
        hide Run, Step, Watching, Observed, Skippable;
      } else {
        EffectDiffers(W, k, k', ins, env, st, st', buf);
        WatchingIsIdle(I, l, buf);
        RunObserves(W, k, rest, o.env, o.st);
        RunObserves(W, k', rest', o'.env, o'.st);
        hide Run, Step, Watching, Observed, Skippable;
        var c := |Observed(st.trace)|;
        assert Observed(a.st.trace)[c] == Observed(o.st.trace)[c] && Observed(a'.st.trace)[c] == Observed(o'.st.trace)[c];
      }
    }
  }

  lemma WatchingIsIdle(I: Interp, l: Loc, buf: string)
    ensures Idle(Watching(I, l, buf))
  {
  }

  lemma FetchDiffers(I: Interp, k: KernelValue, k': KernelValue, ins: Instr, env: Env, st: State, st': State, l: Loc, buf: string)
    requires ins.op.Fetch? && Sees(ins, buf) && Buf(st.mem, buf) == [1] && Buf(st'.mem, buf) == []
    ensures var W := Watching(I, l, buf);
            var o, o' := Step(W, k, ins, env, st, 1), Step(W, k', ins, env, st', 1);
            o.Done? && o'.Done? ==> ins.res.value in o.env && ins.res.value in o'.env && o.env[ins.res.value] != o'.env[ins.res.value]
  {
    var W := Watching(I, l, buf);
    if Uses(ins.op) <= env.Keys {
      StepOutside(W, k, ins, env, st, 1);
      StepOutside(W, k', ins, env, st', 1);
    }
    hide Step;
  }

  lemma EffectDiffers(I: Interp, k: KernelValue, k': KernelValue, ins: Instr, env: Env, st: State, st': State, buf: string)
    requires ins.op.Effect? && Sees(ins, buf) && Buf(st.mem, buf) == [1] && Buf(st'.mem, buf) == []
    requires |Observed(st.trace)| == |Observed(st'.trace)|
    ensures var c, o, o' := |Observed(st.trace)|, Step(I, k, ins, env, st, 1), Step(I, k', ins, env, st', 1);
            o.Done? && o'.Done? ==>
              |Observed(o.st.trace)| == |Observed(o'.st.trace)| == c + 1 && Observed(o.st.trace)[c] != Observed(o'.st.trace)[c]
  {
    if Uses(ins.op) <= env.Keys {
      StepOutside(I, k, ins, env, st, 1);
      StepOutside(I, k', ins, env, st', 1);
      var vals := Vals(ins.op.args, env);
      var e, e' := Effected(ins.op.tag, vals, Shown(ins.op.bufs, st.mem)), Effected(ins.op.tag, vals, Shown(ins.op.bufs, st'.mem));
      assert e.seen[buf] != e'.seen[buf];
      ObservedSnoc(st.trace, e);
      ObservedSnoc(st'.trace, e');
      hide Step, Observed, Shown;
    }
  }

  // ----- the converse -----

  /** Some lawful interpretation under which the original runs to its end tells the swept
      kernel from it. */
  ghost predicate Shows(I: Interp, k: KernelValue, outputs: set<string>) {
    && Local(I) && Overwrites(I) && BlockApart(I, k, outputs, k.body, map[], Start, 1)
    && RunKernel(I, k, Start, 1).Done?
    && !SameEnd(RunKernel(I, k, Start, 1), RunKernel(I, SweptKernel(k, outputs), Start, 1))
  }

  /** Operators under which the kernel's scoping is right and every key of a dead store
      denotes a location of its own. */
  ghost predicate Separates(I: Interp, k: KernelValue, outputs: set<string>) {
    var o := RunKernel(Blind(I), k, Start, 1);
    && Total(I) && o.Done?
    && forall i :: 0 <= i < |k.body| && IsDeadStore(k.body, outputs, i) ==> Distinct(k.body, KeyOfStore(k.body[i].op).value, o.env)
  }

  /** The first position that sees a dead store of the same key. */
  lemma {:induction false} FirstExposure(code: Code, outputs: set<string>, key: StoreKey, i: nat, t: nat) returns (j: nat, n: nat)
    requires Exposed(code, outputs, i, t) && KeyOfStore(code[i].op) == Some(key)
    ensures FirstExposed(code, outputs, key, j, n)
    decreases t
  {
    if i', t' :| 0 <= i' && 0 <= t' < t && Exposed(code, outputs, i', t') && KeyOfStore(code[i'].op) == Some(key) {
      j, n := FirstExposure(code, outputs, key, i', t');
    } else {
      j, n := i, t;
    }
  }

  lemma ExposedShows(I: Interp, k: KernelValue, outputs: set<string>, i: nat, t: nat)
    requires Skippable(k.body) && Exposed(k.body, outputs, i, t) && Separates(I, k, outputs)
    ensures exists W :: Shows(W, k, outputs)
  {
    var code, key := k.body, KeyOfStore(k.body[i].op).value;
    var j, n := FirstExposure(code, outputs, key, i, t);
    FirstShows(I, k, outputs, key, j, n);
  }

  lemma FirstShows(I: Interp, k: KernelValue, outputs: set<string>, key: StoreKey, i: nat, t: nat)
    requires Skippable(k.body) && FirstExposed(k.body, outputs, key, i, t) && Separates(I, k, outputs)
    ensures exists W :: Shows(W, k, outputs)
  {
    var code, l := k.body, LocOf(key, Run(Blind(I), k, k.body, map[], Start, 1).env);
    var W := Watching(I, l, key.dst);
    FirstDiffers(I, k, outputs, key, i, t);
    WatchingIsLawful(I, l, key.dst);
    WatchedApart(I, l, key.dst, k, outputs, code, map[]);
    hide Run, Watching, Separates, BlockApart, Local, Overwrites, LocOf, FirstExposed, SameEnd, SweptKernel;
    OriginalCompletes(I, k, l, key.dst);
    assert Shows(W, k, outputs);
  }

  lemma OriginalCompletes(I: Interp, k: KernelValue, l: Loc, buf: string)
    requires Skippable(k.body) && Total(I) && RunKernel(Blind(I), k, Start, 1).Done?
    ensures RunKernel(Watching(I, l, buf), k, Start, 1).Done?
  {
    assert forall op, a, b :: Watching(I, l, buf).bin(op, a, b) == I.bin(op, a, b);
    RunCompletes(Blind(I), Watching(I, l, buf), k, k.body, map[], map[], Start, Start);
  }

  lemma FirstDiffers(I: Interp, k: KernelValue, outputs: set<string>, key: StoreKey, i: nat, t: nat)
    requires Skippable(k.body) && FirstExposed(k.body, outputs, key, i, t) && Separates(I, k, outputs)
    ensures var W := Watching(I, LocOf(key, RunKernel(Blind(I), k, Start, 1).env), key.dst);
            !SameEnd(RunKernel(W, k, Start, 1), RunKernel(W, SweptKernel(k, outputs), Start, 1))
  {
    var code, k' := k.body, SweptKernel(k, outputs);
    ExposedFacts(code, outputs, key, i, t);
    DistinctKey(I, k, outputs, i);
    hide Blind, Watching, LocOf, Observed, IsDeadStore, Distinct, SameEnd, Sees, FirstExposed, Separates, SettledBefore, Swept, Skippable, Run;
    var l := LocOf(key, Run(Blind(I), k, code, map[], Start, 1).env);
    PrefixRuns(I, k, k', code, outputs, key, i, t, map[], t);
    AfterPrefix(I, k, k', code, outputs, key, l, t);
  }

  lemma AfterPrefix(I: Interp, k: KernelValue, k': KernelValue, code: Code, outputs: set<string>, key: StoreKey, l: Loc, t: nat)
    requires t < |code| && Skippable(code) && PrefixInStep(I, k, k', code, outputs, key, l, map[], t)
    requires Sees(code[t], key.dst) && KeyOfStore(code[t].op).None? && SettledBefore(code, key, t)
    ensures var W := Watching(I, l, key.dst);
            !SameEnd(Run(W, k, code, map[], Start, 1), Run(W, k', SweptCode(code, outputs), map[], Start, 1))
  {
    hide Run, Watching, Observed, SameEnd, Sees, SettledBefore, Swept, Skippable, SweptCode;
    SkippableRest(code, t);
    var kept, rest' := SplitSwept(code, outputs, t);
    SplitAround(code, t);
    SplitDiffers(I, k, k', code[..t], kept, code[t], code[t + 1..], rest', l, key.dst);
  }

  lemma SplitAround(code: Code, t: nat)
    requires t < |code|
    ensures code == code[..t] + ([code[t]] + code[t + 1..])
  {
  }

  /** What the first exposed position is like. */
  lemma ExposedFacts(code: Code, outputs: set<string>, key: StoreKey, i: nat, t: nat)
    requires FirstExposed(code, outputs, key, i, t)
    ensures i < t < |code| && IsDeadStore(code, outputs, i) && KeyOfStore(code[i].op) == Some(key)
    ensures Sees(code[t], key.dst) && KeyOfStore(code[t].op).None? && SettledBefore(code, key, t)
  {
    SeesIsNoStore(code[t], key.dst);
    DeadSettles(code, outputs, i, t);
  }

  /** The two runs up to the exposed position, and on. */
  lemma SplitDiffers(I: Interp, k: KernelValue, k': KernelValue, front: Code, front': Code, ins: Instr, rest: Code, rest': Code,
                     l: Loc, buf: string)
    requires Sees(ins, buf) && Skippable(rest) && Skippable(rest')
    requires var W := Watching(I, l, buf);
             var o, o' := Run(W, k, front, map[], Start, 1), Run(W, k', front', map[], Start, 1);
             && o.Done? && o'.Done? && o.env == o'.env && Buf(o.st.mem, buf) == [1] && Buf(o'.st.mem, buf) == []
             && |Observed(o.st.trace)| == |Observed(o'.st.trace)|
    ensures var W := Watching(I, l, buf);
            !SameEnd(Run(W, k, front + ([ins] + rest), map[], Start, 1), Run(W, k', front' + ([ins] + rest'), map[], Start, 1))
  {
    var W := Watching(I, l, buf);
    hide Run, Watching, Observed, SameEnd, Sees, Skippable, Buf;
    RunAppend(W, k, front, [ins] + rest, map[], Start, 1);
    RunAppend(W, k', front', [ins] + rest', map[], Start, 1);
    var o, o' := Run(W, k, front, map[], Start, 1), Run(W, k', front', map[], Start, 1);
    ExposedDiffers(I, k, k', ins, rest, rest', o.env, o.st, o'.st, l, buf);
  }

  lemma DistinctKey(I: Interp, k: KernelValue, outputs: set<string>, i: nat)
    requires Separates(I, k, outputs) && i < |k.body| && IsDeadStore(k.body, outputs, i)
    ensures KeyOfStore(k.body[i].op).Some? && RunKernel(Blind(I), k, Start, 1).Done?
    ensures Distinct(k.body, KeyOfStore(k.body[i].op).value, RunKernel(Blind(I), k, Start, 1).env)
  {
  }

  lemma SkippableRest(code: Code, t: nat)
    requires Skippable(code) && t < |code|
    ensures Skippable(code[t + 1..])
  {
  }

  lemma SeesIsNoStore(ins: Instr, buf: string)
    requires Sees(ins, buf)
    ensures KeyOfStore(ins.op).None?
  {
  }

  lemma DeadSettles(code: Code, outputs: set<string>, i: nat, t: nat)
    requires i < t && i < |code| && IsDeadStore(code, outputs, i)
    ensures SettledBefore(code, KeyOfStore(code[i].op).value, t)
  {
    assert Settles(code[i].op, KeyOfStore(code[i].op).value);
  }

  /** The swept block around a position that is kept. */
  lemma SplitSwept(code: Code, outputs: set<string>, t: nat) returns (kept: Code, rest: Code)
    requires t < |code| && KeyOfStore(code[t].op).None? && Skippable(code)
    ensures kept == Swept(code, outputs, t) && SweptCode(code, outputs) == kept + ([code[t]] + rest) && Skippable(rest)
  {
    KeptInOrder(code, outputs, |code|, t);
    SweptFrom(code, outputs, |code|);
    var all := SweptCode(code, outputs);
    kept := Swept(code, outputs, t);
    rest := all[|kept| + 1..];
    hide Swept;
    assert all == kept + ([code[t]] + rest);
    forall i | 0 <= i < |rest| && rest[i].op.If? ensures rest[i].op.elseBlock.None? {
      assert rest[i] == all[|kept| + 1 + i] && all[|kept| + 1 + i] in all;
    }
  }

  // ----- kernels of one block -----

  lemma NoControlSkips(code: Code)
    requires NoControl(code)
    ensures Skippable(code)
  {
  }

  ghost predicate NeverExposed(code: Code, outputs: set<string>) {
    forall i: nat, t: nat :: !Exposed(code, outputs, i, t)
  }

  /** Without control flow, what disturbs a dead store sees it. */
  lemma UndisturbedIff(k: KernelValue, outputs: set<string>)
    requires k.blocks == map[] && NoControl(k.body)
    ensures UndisturbedKernel(k, outputs) <==> NeverExposed(k.body, outputs)
  {
    hide StraightOp, Sees, Avoids, Pending, StoredFrom, IsRead, Candidate;
    forall i: nat, t: nat | Between(k.body, outputs, i, t)
      ensures !Exposed(k.body, outputs, i, t) <==>
                (StraightOp(k.body[t].op) || Avoids(k, k.body[t], KeyOfStore(k.body[i].op).value.dst))
    {
      SeesIff(k, k.body[t], KeyOfStore(k.body[i].op).value.dst);
    }
    EmptyUndisturbed(k, outputs);
    assert CodeAt(k, None) == k.body;
    if NeverExposed(k.body, outputs) {
      forall w ensures Undisturbed(k, CodeAt(k, w), outputs) {
        assert w == None || CodeAt(k, w) == [];
      }
    } else {
      var i: nat, t: nat :| Exposed(k.body, outputs, i, t);
      assert !Undisturbed(k, CodeAt(k, None), outputs);
    }
  }

  lemma EmptyUndisturbed(k: KernelValue, outputs: set<string>)
    ensures Undisturbed(k, [], outputs)
  {
  }

  lemma SeesIff(k: KernelValue, ins: Instr, buf: string)
    requires !ins.op.Loop? && !ins.op.If?
    ensures Sees(ins, buf) <==> !(StraightOp(ins.op) || Avoids(k, ins, buf))
  {
    assert ClosedOff(k, {}, buf);
    if !Touches(ins, buf) { assert AvoidsWithin(ins, {}, buf); }
  }

  /** The pass is right on a kernel of one block exactly when no fetch and no effect sees a
      dead store before it is overwritten. */
  lemma PreservedIff(I: Interp, k: KernelValue, outputs: set<string>)
    requires k.blocks == map[] && NoControl(k.body) && Separates(I, k, outputs)
    ensures UndisturbedKernel(k, outputs) <==>
      forall J, st, fuel :: Local(J) && Overwrites(J) && RunKernel(J, k, st, fuel).Done?
                            && BlockApart(J, k, outputs, k.body, map[], st, fuel) ==>
        SameEnd(RunKernel(J, k, st, fuel), RunKernel(J, SweptKernel(k, outputs), st, fuel))
  {
    hide Local, Overwrites, BlockApart, RunKernel, SweptKernel, SameEnd, Separates, NoControl;
    if UndisturbedKernel(k, outputs) {
      forall J, st, fuel | Local(J) && Overwrites(J) && RunKernel(J, k, st, fuel).Done? && BlockApart(J, k, outputs, k.body, map[], st, fuel)
        ensures SameEnd(RunKernel(J, k, st, fuel), RunKernel(J, SweptKernel(k, outputs), st, fuel))
      {
        PassPreserves(J, k, outputs, st, fuel);
      }
    } else {
      UndisturbedIff(k, outputs);
      assert !NeverExposed(k.body, outputs);
      var i: nat, t: nat :| Exposed(k.body, outputs, i, t);
      assert Skippable(k.body) by { NoControlSkips(k.body); }
      ExposedShows(I, k, outputs, i, t);
      var W :| Shows(W, k, outputs);
    }
  }
}
