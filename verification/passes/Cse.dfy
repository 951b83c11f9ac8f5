/**
 Common subexpression elimination: local value numbering with a remap that is
 propagated to every other block.
 */
module Cse {
  import opened Ir
  import opened Semantics
  import opened RewritePlan
  import opened Blocks
  import opened WellScoped

  datatype OpKey =
    | BinKey(bin: BinOpKind, lhs: ValueId, rhs: ValueId)
    | UnKey(un: UnaryOpKind, arg: ValueId)
    | CastKey(dtype: DType, arg: ValueId)
    | ActKey(act: ActKind, arg: ValueId)
    | SelectKey(cond: ValueId, onTrue: ValueId, onFalse: ValueId)
    | LoadKey(src: string, idx0: IndexExpr)

  predicate IsCommutative(k: BinOpKind) {
    k in {Add, Mul, Max, Min, And, Or, Xor, BitAnd, BitOr, BitXor, CmpEq, CmpNe}
  }

  function Canonical(k: BinOpKind, lhs: ValueId, rhs: ValueId): (ValueId, ValueId) {
    if IsCommutative(k) && lhs > rhs then (rhs, lhs) else (lhs, rhs)
  }

  /** The key of a CSE-eligible op. A load's mask and fill value are not part of it. */
  function Key(op: Op, ro: set<string>): Option<OpKey> {
    match op
    case BinOp(k, l, r) => var (l', r') := Canonical(k, l, r); Some(BinKey(k, l', r'))
    case UnaryOp(k, x) => Some(UnKey(k, x))
    case Cast(x, d) => Some(CastKey(d, x))
    case Activation(k, x) => Some(ActKey(k, x))
    case Select(c, a, b) => Some(SelectKey(c, a, b))
    case Load(src, indices, _, _) =>
      if src in ro && |indices| == 1 then Some(LoadKey(src, indices[0])) else None
    case _ => None
  }

  // ----- the remap of one block -----

  predicate HasKey(ins: Instr, ro: set<string>, key: OpKey) {
    ins.res.Some? && Key(ins.op, ro) == Some(key)
  }

  /** The first position from `from` on whose instruction has the key (or the length). */
  function First(code: Code, ro: set<string>, key: OpKey, from: nat): (i: nat)
    decreases |code| - from
    ensures i < |code| ==> HasKey(code[i], ro, key)
    ensures forall j :: from <= j < i && j < |code| ==> !HasKey(code[j], ro, key)
  {
    if from >= |code| then |code|
    else if HasKey(code[from], ro, key) then from
    else First(code, ro, key, from + 1)
  }

  /** The instruction repeats an earlier one with its key. */
  predicate IsDuplicate(code: Code, ro: set<string>, i: nat)
    requires i < |code|
  {
    code[i].res.Some? && Key(code[i].op, ro).Some? && First(code, ro, Key(code[i].op, ro).value, 0) < i
  }

  function Leader(code: Code, ro: set<string>, i: nat): (v: ValueId)
    requires i < |code| && IsDuplicate(code, ro, i)
  {
    code[First(code, ro, Key(code[i].op, ro).value, 0)].res.value
  }

  /** The duplicates among the first n instructions, each sent to its leader. */
  function Remap(code: Code, ro: set<string>, n: nat): map<ValueId, ValueId>
    requires n <= |code|
  {
    if n == 0 then map[]
    else if IsDuplicate(code, ro, n - 1) then
      Remap(code, ro, n - 1)[code[n - 1].res.value := Leader(code, ro, n - 1)]
    else Remap(code, ro, n - 1)
  }

  lemma {:induction false} RemapOrigin(code: Code, ro: set<string>, n: nat, v: ValueId) returns (i: nat)
    requires n <= |code| && v in Remap(code, ro, n)
    ensures i < n && IsDuplicate(code, ro, i) && code[i].res == Some(v)
    ensures Remap(code, ro, n)[v] == Leader(code, ro, i)
  {
    if IsDuplicate(code, ro, n - 1) && code[n - 1].res.value == v {
      i := n - 1;
    } else {
      i := RemapOrigin(code, ro, n - 1, v);
    }
  }

  lemma {:induction false} DuplicatesRemapped(code: Code, ro: set<string>, n: nat, i: nat)
    requires i < n <= |code| && IsDuplicate(code, ro, i)
    ensures code[i].res.value in Remap(code, ro, n)
  {
    if i < n - 1 { DuplicatesRemapped(code, ro, n - 1, i); }
  }

  /** In SSA form an instruction is dropped exactly when it is a duplicate. */
  lemma DroppedIffDuplicate(code: Code, ro: set<string>, i: nat)
    requires UniqueResults(code) && i < |code|
    ensures IsDead(code[i].res, Remap(code, ro, |code|).Keys) <==> IsDuplicate(code, ro, i)
  {
    if IsDuplicate(code, ro, i) {
      DuplicatesRemapped(code, ro, |code|, i);
    } else if IsDead(code[i].res, Remap(code, ro, |code|).Keys) {
      var j := RemapOrigin(code, ro, |code|, code[i].res.value);
    }
  }

  /** No chain is ever needed: what a duplicate is sent to is not sent anywhere. */
  lemma RangeOutsideDomain(code: Code, ro: set<string>, v: ValueId)
    requires UniqueResults(code) && v in Remap(code, ro, |code|)
    ensures Remap(code, ro, |code|)[v] !in Remap(code, ro, |code|)
  {
    var i := RemapOrigin(code, ro, |code|, v);
    var l := First(code, ro, Key(code[i].op, ro).value, 0);
    DroppedIffDuplicate(code, ro, l);
  }

  // ----- keys and meaning -----

  ghost predicate Commutes(I: Interp) {
    forall k, a, b :: IsCommutative(k) ==> I.bin(k, a, b) == I.bin(k, b, a)
  }

  /** The parts of a load that its key leaves out do not change what it yields. */
  predicate MasksAgree(a: Op, b: Op) {
    a.Load? && b.Load? ==> a.mask == b.mask && (a.mask.Some? ==> Fill(a) == Fill(b))
  }

  function Fill(op: Op): Val
    requires op.Load?
  {
    if op.other.Some? then op.other.value else 0
  }

  lemma SwapOperands(I: Interp, k: BinOpKind, a: Val, b: Val)
    requires Commutes(I) && IsCommutative(k)
    ensures I.bin(k, a, b) == I.bin(k, b, a)
  {
  }

  lemma SameKeySameValue(I: Interp, a: Op, b: Op, ro: set<string>, env: Env, mem: Memory)
    requires Commutes(I) && Key(a, ro).Some? && Key(a, ro) == Key(b, ro) && MasksAgree(a, b)
    requires Uses(a) <= env.Keys && Uses(b) <= env.Keys
    ensures Eval(I, a, env, mem) == Eval(I, b, env, mem)
  {
    match a
    case BinOp(k, l, r) => if IsCommutative(k) { SwapOperands(I, k, env[l], env[r]); }
    case Load(_, indices, _, _) => assert indices == b.indices;
    case _ =>
  }

  /** Two ops that one key merges always have one value ... */
  ghost predicate AlwaysEqual(a: Op, b: Op)
    requires IsValueOp(a) && IsValueOp(b)
  {
    forall I: Interp, env: Env, mem: Memory :: Commutes(I) && Uses(a) <= env.Keys && Uses(b) <= env.Keys ==>
      Eval(I, a, env, mem) == Eval(I, b, env, mem)
  }

  /** An interpretation that tells masked-off loads from others: reads yield `cell`,
      and exactly the non-zero values are true. */
  ghost function Reading(cell: Val): Interp {
    Interp((a: nat) => 0, (k: BinOpKind, a: Val, b: Val) => Some(0), (k: UnaryOpKind, a: Val) => 0,
           (d: DType, a: Val) => a, (k: ActKind, a: Val) => a, (s: Shape, a: Val) => a, (s: Shape, a: Val) => a,
           (n: nat, a: Val) => a, (a: Val) => a, (f: int, d: DType, s: Shape) => f, (t: string, vs: seq<Val>) => 0,
           (a: Val) => a != 0, (a: Val, b: Val) => a < b, (a: Val, b: Val) => a + b,
           (b: Buffer, i: seq<IndexVal>) => cell, (b: Buffer, i: seq<IndexVal>, v: Val) => [v],
           (b: Buffer, o: Val, n: nat) => cell, (b: Buffer, o: Val, n: nat, v: Val) => [v],
           (t: string, bs: set<string>, vs: seq<Val>, st: State) => 0,
           (t: string, bs: set<string>, vs: seq<Val>, st: State) => st.mem)
  }

  /** ... exactly when, for loads, masks and fills agree: the condition under which
      the key may leave them out. */
  lemma KeySoundIff(a: Op, b: Op, ro: set<string>)
    requires Key(a, ro).Some? && Key(a, ro) == Key(b, ro)
    ensures AlwaysEqual(a, b) <==> MasksAgree(a, b)
  {
    assert IsValueOp(a) && IsValueOp(b);
    hide Key, MasksAgree, Eval;
    if MasksAgree(a, b) {
      forall I: Interp, env: Env, mem: Memory | Commutes(I) && Uses(a) <= env.Keys && Uses(b) <= env.Keys
        ensures Eval(I, a, env, mem) == Eval(I, b, env, mem)
      {
        SameKeySameValue(I, a, b, ro, env, mem);
      }
    } else {
      MasksTold(a, b, ro);
    }
  }

  lemma MasksTold(a: Op, b: Op, ro: set<string>)
    requires Key(a, ro).Some? && Key(a, ro) == Key(b, ro) && !MasksAgree(a, b)
    ensures !AlwaysEqual(a, b)
  {
    // A cell unlike both fill values, and an environment that masks one load off.
    var cell := if Fill(a) != 1 && Fill(b) != 1 then 1 else if Fill(a) != 2 && Fill(b) != 2 then 2 else 3;
    var I := Reading(cell);
    var ids := Uses(a) + Uses(b);
    var off := if a.mask.Some? then a.mask.value else b.mask.value;
    if a.mask.Some? && b.mask.Some? && a.mask == b.mask {
      var env: Env := map u | u in ids :: 0;
      assert Eval(I, a, env, map[]) != Eval(I, b, env, map[]);
    } else {
      var env: Env := map u | u in ids :: if u == off then 0 else 1;
      assert Eval(I, a, env, map[]) != Eval(I, b, env, map[]);
    }
  }

  // ----- one stage: a block's duplicates, remapped in the whole kernel -----

  function StagePlan(k: KernelValue, ro: set<string>, w: Where): Plan {
    var rho := Remap(CodeAt(k, w), ro, |CodeAt(k, w)|);
    Plan(rho.Keys, BlockPlan(OpsOf(k.body), rho), map b | b in k.blocks :: BlockPlan(OpsOf(k.blocks[b]), rho))
  }

  function Stage(k: KernelValue, ro: set<string>, w: Where): KernelValue {
    Apply(k, StagePlan(k, ro, w))
  }

  /** Two loads that CSE may come to merge, now or after other merges, have one mask. */
  predicate MasksAlike(a: Op, b: Op, ro: set<string>) {
    a.Load? && b.Load? && Key(a, ro).Some? && Key(b, ro).Some? && a.src == b.src ==> MasksAgree(a, b)
  }

  /** In every block, the one-index loads of a read-only buffer agree on mask and fill. */
  ghost predicate MasksConsistent(k: KernelValue, ro: set<string>) {
    forall w, i, j :: 0 <= i < |CodeAt(k, w)| && 0 <= j < |CodeAt(k, w)| ==>
      MasksAlike(CodeAt(k, w)[i].op, CodeAt(k, w)[j].op, ro)
  }

  lemma UniqueInBlock(k: KernelValue, w: Where)
    requires UniqueDefs(k)
    ensures UniqueResults(CodeAt(k, w))
  {
    var code := CodeAt(k, w);
    forall i, j | 0 <= i < |code| && 0 <= j < |code| && code[i].res.Some? && code[i].res == code[j].res ensures i == j {
      assert DefinedAt(k, w, i, code[i].res.value) && DefinedAt(k, w, j, code[i].res.value);
    }
  }

  /** A duplicate and its leader have one value wherever the duplicate is in scope. */
  lemma StageRedirects(c: Setting, w: Where, v: ValueId)
    requires UniqueDefs(c.k) && Commutes(c.I) && MasksConsistent(c.k, c.ro)
    requires v in Remap(CodeAt(c.k, w), c.ro, |CodeAt(c.k, w)|)
    ensures Redirects(c, v, Remap(CodeAt(c.k, w), c.ro, |CodeAt(c.k, w)|)[v])
  {
    var code := CodeAt(c.k, w);
    var j := RemapOrigin(code, c.ro, |code|, v);
    var i := First(code, c.ro, Key(code[j].op, c.ro).value, 0);
    var x := code[i].res.value;
    assert DefinedAt(c.k, w, i, x) && DefinedAt(c.k, w, j, v);
    assert MasksAlike(code[i].op, code[j].op, c.ro);
    forall env | Facts(c, env) && v in env ensures x in env && env[x] == env[v] {
      assert Executed(c.k, w, j, env);
      assert Equation(c, code[i].op, x, env) && Equation(c, code[j].op, v, env);
      SameKeySameValue(c.I, code[i].op, code[j].op, c.ro, env, c.mem);
    }
  }

  lemma StageSound(c: Setting, w: Where)
    requires UniqueDefs(c.k) && Commutes(c.I) && MasksConsistent(c.k, c.ro)
    ensures Sound(c, StagePlan(c.k, c.ro, w))
  {
    var p := StagePlan(c.k, c.ro, w);
    var code := CodeAt(c.k, w);
    var rho := Remap(code, c.ro, |code|);
    UniqueInBlock(c.k, w);
    forall x | x in p.dead ensures DefinedSomewhere(c.k, x) {
      var j := RemapOrigin(code, c.ro, |code|, x);
      assert DefinedAt(c.k, w, j, x);
    }
    forall u ensures BlockSound(c, p, u) {
      forall v | v in PlanAt(p, u).rho ensures Redirects(c, v, PlanAt(p, u).rho[v]) {
        StageRedirects(c, w, v);
      }
      forall i | 0 <= i < |CodeAt(c.k, u)|
        ensures InstrSound(c, p, CodeAt(c.k, u)[i], PlanAt(p, u).ops[i], PlanAt(p, u).rho)
      {
        StageInstrSound(c, w, u, i);
      }
    }
  }

  lemma StageInstrSound(c: Setting, w: Where, u: Where, i: nat)
    requires UniqueDefs(c.k) && UniqueResults(CodeAt(c.k, w)) && i < |CodeAt(c.k, u)|
    ensures var p := StagePlan(c.k, c.ro, w);
            |PlanAt(p, u).ops| == |CodeAt(c.k, u)|
            && InstrSound(c, p, CodeAt(c.k, u)[i], PlanAt(p, u).ops[i], PlanAt(p, u).rho)
  {
    var p := StagePlan(c.k, c.ro, w);
    var ins := CodeAt(c.k, u)[i];
    var rho := PlanAt(p, u).rho;
    if IsDead(ins.res, p.dead) {
      var j := RemapOrigin(CodeAt(c.k, w), c.ro, |CodeAt(c.k, w)|, ins.res.value);
      assert DefinedAt(c.k, w, j, ins.res.value) && DefinedAt(c.k, u, i, ins.res.value);
    } else {
      forall x | x in Uses(ins.op) ensures To(rho, x) !in p.dead {
        if x in rho { RangeOutsideDomain(CodeAt(c.k, w), c.ro, x); }
      }
    }
  }

  /** What the next stage needs still holds. */
  lemma StageKeeps(k: KernelValue, ro: set<string>, w: Where)
    requires UniqueDefs(k)
    ensures var k' := Stage(k, ro, w);
            && UniqueDefs(k')
            && (NeverStored(k, ro) ==> NeverStored(k', ro))
            && (MasksConsistent(k, ro) ==> MasksConsistent(k', ro))
            && k'.blocks.Keys == k.blocks.Keys
  {
    var p := StagePlan(k, ro, w);
    ApplyKeepsUnique(k, p);
    hide UniqueDefs, Remap;
    forall u, i | 0 <= i < |CodeAt(Apply(k, p), u)|
      ensures NeverStored(k, ro) ==> StoresOutside(CodeAt(Apply(k, p), u)[i].op, ro)
    {
      var o := StageOp(k, ro, w, u, i);
      OperandsAside(CodeAt(k, u)[o].op, PlanAt(p, u).rho, ro);
    }
    if MasksConsistent(k, ro) { StageKeepsMasks(k, ro, w); }
  }

  lemma StageKeepsMasks(k: KernelValue, ro: set<string>, w: Where)
    requires MasksConsistent(k, ro)
    ensures MasksConsistent(Stage(k, ro, w), ro)
  {
    var k', p := Stage(k, ro, w), StagePlan(k, ro, w);
    forall u, i, j | 0 <= i < |CodeAt(k', u)| && 0 <= j < |CodeAt(k', u)|
      ensures MasksAlike(CodeAt(k', u)[i].op, CodeAt(k', u)[j].op, ro)
    {
      var o := StageOp(k, ro, w, u, i);
      var q := StageOp(k, ro, w, u, j);
      assert MasksAlike(CodeAt(k, u)[o].op, CodeAt(k, u)[q].op, ro);
      MasksAside(CodeAt(k, u)[o].op, CodeAt(k, u)[q].op, PlanAt(p, u).rho, ro);
    }
  }

  /** A substitution renames equal masks alike. */
  lemma MasksAside(a: Op, b: Op, m: map<ValueId, ValueId>, ro: set<string>)
    requires MasksAlike(a, b, ro)
    ensures MasksAlike(Subst(a, m), Subst(b, m), ro)
  {
  }

  /** An op after a stage is an op from before, with other operands. */
  lemma StageOp(k: KernelValue, ro: set<string>, w: Where, u: Where, i: nat) returns (o: nat)
    requires i < |CodeAt(Stage(k, ro, w), u)|
    ensures o < |CodeAt(k, u)|
    ensures CodeAt(Stage(k, ro, w), u)[i].op == Subst(CodeAt(k, u)[o].op, PlanAt(StagePlan(k, ro, w), u).rho)
  {
    hide Remap;
    var p := StagePlan(k, ro, w);
    CodeIsRewrite(k, p, u);
    RewriteAt(CodeAt(k, u), PlanAt(p, u).ops, PlanAt(p, u).rho, p.dead, i);
    o := Origin(CodeAt(k, u), p.dead, i);
  }

  lemma OperandsAside(op: Op, m: map<ValueId, ValueId>, ro: set<string>)
    ensures StoresOutside(op, ro) ==> StoresOutside(Subst(op, m), ro)
  {
  }

  // ----- the pass: the body, then the nested blocks in order -----

  function Stages(k: KernelValue, ro: set<string>, order: seq<Where>): KernelValue
    decreases |order|
  {
    if order == [] then k else Stages(Stage(k, ro, order[0]), ro, order[1..])
  }

  /** The whole pass preserves every run of a kernel in SSA form that does not get
      stuck: the same memory, the same trace of stores and effects, and the same
      divergence, for every fuel, whatever the order of the blocks. */
  lemma {:induction false} PassPreserves(I: Interp, k: KernelValue, ro: set<string>, order: seq<Where>, mem: Memory, fuel: nat)
    requires UniqueDefs(k) && NeverStored(k, ro) && MasksConsistent(k, ro)
    requires Commutes(I) && EffectsKeep(I, ro)
    requires !Fails(RunKernel(I, k, State(mem, []), fuel))
    ensures SameForObserver(RunKernel(I, k, State(mem, []), fuel),
                            RunKernel(I, Stages(k, ro, order), State(mem, []), fuel))
    decreases |order|
  {
    if order != [] {
      var c := Setting(I, k, ro, mem);
      StageSound(c, order[0]);
      PlanPreserves(c, StagePlan(k, ro, order[0]), fuel);
      StageKeeps(k, ro, order[0]);
      PassPreserves(I, Stage(k, ro, order[0]), ro, order[1..], mem, fuel);
    }
  }

  /** For a well-scoped kernel nothing needs to be said of stuck runs: unless the original
      applies an operator outside its domain the two run alike, divergence included. */
  lemma PassExact(I: Interp, k: KernelValue, s: Scopes, ro: set<string>, order: seq<Where>, mem: Memory, fuel: nat)
    requires UniqueDefs(k) && NeverStored(k, ro) && MasksConsistent(k, ro) && Scoped(k, s)
    requires Commutes(I) && EffectsKeep(I, ro) && !RunKernel(I, k, State(mem, []), fuel).Undefined?
    ensures SameForObserver(RunKernel(I, k, State(mem, []), fuel),
                            RunKernel(I, Stages(k, ro, order), State(mem, []), fuel))
  {
    ScopedNeverStuck(I, k, s, State(mem, []), fuel);
    PassPreserves(I, k, ro, order, mem, fuel);
  }

  // ----- a masked load is merged with an unmasked one -----

  /** `v1 = w[v0]` masked off with fill 7, `v2 = w[v0]`, `out[v0] = v2`. */
  function MaskedKernel(): KernelValue {
    KernelValue([
      Instr(ConstOp(0), Some(0)),
      Instr(Load("w", [Value(0)], Some(0), Some(7)), Some(1)),
      Instr(Load("w", [Value(0)], None, None), Some(2)),
      Instr(Store("out", [Value(0)], 2, None), None)], map[])
  }

  /** The condition of the pass's theorem cannot be dropped: here the load `v2` of the
      cell, 5, becomes the fill of the masked-off load `v1`. */
  lemma MaskedLoadsDiffer()
    ensures var k := MaskedKernel();
            var k' := Stage(k, {"w"}, None);
            var st := State(map[], []);
            && UniqueDefs(k) && NeverStored(k, {"w"}) && Commutes(Reading(5)) && EffectsKeep(Reading(5), {"w"})
            && RunKernel(Reading(5), k, st, 0).Done? && RunKernel(Reading(5), k', st, 0).Done?
            && RunKernel(Reading(5), k, st, 0).st.trace == [Stored("out", [At(0)], 5)]
            && RunKernel(Reading(5), k', st, 0).st.trace == [Stored("out", [At(0)], 7)]
  {
    MaskedAssumptions();
    hide UniqueDefs, NeverStored, Commutes, EffectsKeep;
    MaskedRewritten();
    MaskedRun(MaskedKernel());
    MergedRun(Stage(MaskedKernel(), {"w"}, None));
  }

  lemma MaskedAssumptions()
    ensures UniqueDefs(MaskedKernel()) && NeverStored(MaskedKernel(), {"w"})
    ensures Commutes(Reading(5)) && EffectsKeep(Reading(5), {"w"})
  {
  }

  /** What both kernels do before the load that is merged. */
  lemma CommonSteps(k: KernelValue, rest: Code)
    ensures var c, st := MaskedKernel().body, State(map[], []);
            Run(Reading(5), k, [c[0]] + ([c[1]] + rest), map[], st, 0) == Run(Reading(5), k, rest, map[0 := 0, 1 := 7], st, 0)
  {
    var I, st, c := Reading(5), State(map[], []), MaskedKernel().body;
    RunCons(I, k, c[0], [c[1]] + rest, map[], st, 0);
    RunCons(I, k, c[1], rest, map[0 := 0], st, 0);
    assert map[0 := 0][1 := 7] == map[0 := 0, 1 := 7];
  }

  lemma StoreStep(k: KernelValue, v: ValueId, env: Env)
    requires 0 in env && env[0] == 0 && v in env
    ensures Run(Reading(5), k, [Instr(Store("out", [Value(0)], v, None), None)], env, State(map[], []), 0)
            == Done(env, State(map["out" := [env[v]]], [Stored("out", [At(0)], env[v])]))
  {
    assert EvalIndices([Value(0)], env) == [At(0)];
  }

  lemma MaskedRun(k: KernelValue)
    requires k.body == MaskedKernel().body
    ensures var o := RunKernel(Reading(5), k, State(map[], []), 0);
            o.Done? && o.st.trace == [Stored("out", [At(0)], 5)]
  {
    var I, st, c, env: Env := Reading(5), State(map[], []), k.body, map[0 := 0, 1 := 7];
    assert c == [c[0]] + ([c[1]] + ([c[2]] + [c[3]]));
    CommonSteps(k, [c[2]] + [c[3]]);
    RunCons(I, k, c[2], [c[3]], env, st, 0);
    UnmaskedStep(k, env, st);
    StoreStep(k, 2, env[2 := 5]);
    hide Run, Step;
  }

  lemma UnmaskedStep(k: KernelValue, env: Env, st: State)
    requires 0 in env && env[0] == 0 && 2 !in env
    ensures Step(Reading(5), k, MaskedKernel().body[2], env, st, 0) == Done(env[2 := 5], st)
  {
  }

  lemma MergedRun(k: KernelValue)
    requires var c := MaskedKernel().body;
             k.body == [c[0], c[1], Instr(Store("out", [Value(0)], 1, None), None)]
    ensures var o := RunKernel(Reading(5), k, State(map[], []), 0);
            o.Done? && o.st.trace == [Stored("out", [At(0)], 7)]
  {
    var c, env: Env := k.body, map[0 := 0, 1 := 7];
    assert c == [c[0]] + ([c[1]] + [c[2]]);
    CommonSteps(k, [c[2]]);
    StoreStep(k, 1, env);
  }

  lemma MaskedRewritten()
    ensures var c := MaskedKernel().body;
            Stage(MaskedKernel(), {"w"}, None).body == [c[0], c[1], Instr(Store("out", [Value(0)], 1, None), None)]
  {
    var ro := {"w"};
    var c := MaskedKernel().body;
    var rho: map<ValueId, ValueId> := map[2 := 1];
    MaskedRemap();
    hide Remap, First;
    assert c == [c[0]] + ([c[1]] + ([c[2]] + ([c[3]] + [])));
    RewriteCons(c[0], [c[1]] + ([c[2]] + ([c[3]] + [])), rho, {2});
    RewriteCons(c[1], [c[2]] + ([c[3]] + []), rho, {2});
    RewriteCons(c[2], [c[3]] + [], rho, {2});
    RewriteCons(c[3], [], rho, {2});
    hide Rewrite;
    assert Rewrite([], OpsOf([]), rho, {2}) == [] by { RewriteNothing2(rho); }
    assert SubstIndices([Value(0)], rho) == [Value(0)];
    assert rho.Keys == {2};
  }

  lemma RewriteNothing2(rho: map<ValueId, ValueId>)
    ensures Rewrite([], OpsOf([]), rho, {2}) == []
  {
  }

  lemma MaskedRemap()
    ensures Remap(MaskedKernel().body, {"w"}, 4) == map[2 := 1]
  {
    var c := MaskedKernel().body;
    var ro := {"w"};
    assert First(c, ro, LoadKey("w", Value(0)), 0) == 1;
    assert Remap(c, ro, 2) == Remap(c, ro, 1) == Remap(c, ro, 0);
    assert Remap(c, ro, 4) == Remap(c, ro, 3) == map[2 := 1];
  }

  // ----- no use dangles -----

  /** Every id the pass took the definition of is used nowhere any more. */
  lemma {:induction false} NoDanglingUse(k: KernelValue, ro: set<string>, order: seq<Where>, u: ValueId)
    requires UniqueDefs(k)
    requires UsedSomewhere(Stages(k, ro, order), u)
    ensures DefinedSomewhere(k, u) ==> DefinedSomewhere(Stages(k, ro, order), u)
    ensures UsedSomewhere(k, u) || DefinedSomewhere(k, u)
    decreases |order|
  {
    if order != [] {
      var k1 := Stage(k, ro, order[0]);
      StageKeeps(k, ro, order[0]);
      NoDanglingUse(k1, ro, order[1..], u);
      if UsedSomewhere(k1, u) {
        StageNoDangling(k, ro, order[0], u);
      } else {
        var w, i :| DefinedAt(k1, w, i, u);
        DefinedBefore(k, StagePlan(k, ro, order[0]), w, i, u);
      }
    }
  }

  lemma StageNoDangling(k: KernelValue, ro: set<string>, w: Where, u: ValueId)
    requires UniqueDefs(k) && UsedSomewhere(Stage(k, ro, w), u)
    ensures DefinedSomewhere(k, u) ==> DefinedSomewhere(Stage(k, ro, w), u)
    ensures UsedSomewhere(k, u) || DefinedSomewhere(k, u)
  {
    var p := StagePlan(k, ro, w);
    var code := CodeAt(k, w);
    UniqueInBlock(k, w);
    var v, i :| UsedAt(Stage(k, ro, w), v, i, u);
    CodeIsRewrite(k, p, v);
    RewriteAt(CodeAt(k, v), PlanAt(p, v).ops, PlanAt(p, v).rho, p.dead, i);
    var o := Origin(CodeAt(k, v), p.dead, i);
    UsesOfSubst(CodeAt(k, v)[o].op, PlanAt(p, v).rho);
    var x :| x in Uses(CodeAt(k, v)[o].op) && To(PlanAt(p, v).rho, x) == u;
    assert UsedAt(k, v, o, x);
    if x in p.dead {
      var j := RemapOrigin(code, ro, |code|, x);
      assert DefinedAt(k, w, First(code, ro, Key(code[j].op, ro).value, 0), u);
      RangeOutsideDomain(code, ro, x);
    }
    if DefinedSomewhere(k, u) {
      var w', j :| DefinedAt(k, w', j, u);
      StaysDefined(k, p, w', j, u);
    }
  }
}
