/**
 The mutable blocks and kernels the passes work on, and their views as values.
 */
module Blocks {
  import opened Ir
  import opened RewritePlan

  function Zip(ops: seq<Op>, results: seq<Option<ValueId>>): (code: Code)
    requires |ops| == |results|
  {
    seq(|ops|, i requires 0 <= i < |ops| => Instr(ops[i], results[i]))
  }

  function OpsOf(code: Code): seq<Op> {
    seq(|code|, i requires 0 <= i < |code| => code[i].op)
  }

  /** A block: `results[i]` is what `ops[i]` produces. */
  class Block {
    var ops: seq<Op>
    var results: seq<Option<ValueId>>

    ghost predicate Valid() reads this { |ops| == |results| }

    ghost function View(): Code
      requires Valid()
      reads this
    {
      Zip(ops, results)
    }

    constructor (code: Code)
      ensures Valid() && View() == code
    {
      ops := OpsOf(code);
      results := seq(|code|, i requires 0 <= i < |code| => code[i].res);
    }
  }

  datatype ParamKind = Tensor | Strided | Scalar
  datatype Param = Param(name: string, isOutput: bool, kind: ParamKind)

  function ReadOnlyParams(params: seq<Param>): set<string> {
    set p | p in params && !p.isOutput && !p.kind.Scalar? :: p.name
  }

  function OutputParams(params: seq<Param>): set<string> {
    set p | p in params && p.isOutput :: p.name
  }

  /** A tensor or strided parameter of that name which is no output. */
  predicate IsInput(params: seq<Param>, name: string) {
    exists p :: p in params && p.name == name && !p.isOutput && p.kind in {Tensor, Strided}
  }

  predicate IsOutput(params: seq<Param>, name: string) {
    exists p :: p in params && p.name == name && p.isOutput
  }

  predicate DistinctNames(params: seq<Param>) {
    forall i, j :: 0 <= i < j < |params| ==> params[i].name != params[j].name
  }

  /** Every store goes to an output, or to a buffer that is no parameter. */
  ghost predicate StoresFit(k: KernelValue, params: seq<Param>) {
    forall w, i :: 0 <= i < |CodeAt(k, w)| && (CodeAt(k, w)[i].op.Store? || CodeAt(k, w)[i].op.VectorStore?) ==>
      var dst := CodeAt(k, w)[i].op.dst;
      IsOutput(params, dst) || forall p :: p in params ==> p.name != dst
  }

  /** No input is ever stored to. */
  lemma InputsNeverStored(k: KernelValue, params: seq<Param>)
    requires DistinctNames(params) && StoresFit(k, params)
    ensures NeverStored(k, ReadOnlyParams(params))
  {
    forall w, i | 0 <= i < |CodeAt(k, w)| ensures StoresOutside(CodeAt(k, w)[i].op, ReadOnlyParams(params)) {
      var op := CodeAt(k, w)[i].op;
      if op.Store? || op.VectorStore? {
        OneParam(params, op.dst);
      }
    }
  }

  lemma OneParam(params: seq<Param>, name: string)
    requires DistinctNames(params)
    requires IsOutput(params, name) || forall p :: p in params ==> p.name != name
    ensures name !in ReadOnlyParams(params)
  {
  }

  lemma InputsAreReadOnly(params: seq<Param>, name: string)
    ensures name in ReadOnlyParams(params) <==> IsInput(params, name)
    ensures name in OutputParams(params) <==> IsOutput(params, name)
  {
  }

  class Kernel {
    var params: seq<Param>
    var body: Block
    var blocks: map<BlockId, Block>

    ghost predicate Valid()
      reads this, body, blocks.Values
    {
      && body.Valid()
      && (forall b :: b in blocks ==> blocks[b].Valid() && blocks[b] != body)
      && (forall b, d :: b in blocks && d in blocks && blocks[b] == blocks[d] ==> b == d)
    }

    ghost function View(): KernelValue
      requires Valid()
      reads this, body, blocks.Values
    {
      KernelValue(body.View(), map b | b in blocks :: blocks[b].View())
    }

    constructor (params: seq<Param>, body: Block, blocks: map<BlockId, Block>)
      requires body.Valid()
      requires forall b :: b in blocks ==> blocks[b].Valid() && blocks[b] != body
      requires forall b, d :: b in blocks && d in blocks && blocks[b] == blocks[d] ==> b == d
      ensures Valid() && this.params == params && this.body == body && this.blocks == blocks
    {
      this.params, this.body, this.blocks := params, body, blocks;
    }
  }

  // ----- positions before and after a rewrite -----

  /** The old position of the i-th instruction that survives. */
  function Origin(code: Code, dead: set<ValueId>, i: nat): nat {
    if code == [] then 0
    else if IsDead(code[0].res, dead) then 1 + Origin(code[1..], dead, i)
    else if i == 0 then 0
    else 1 + Origin(code[1..], dead, i - 1)
  }

  lemma {:induction false} RewriteAt(code: Code, ops: seq<Op>, rho: map<ValueId, ValueId>, dead: set<ValueId>, i: nat)
    requires |ops| == |code| && i < |Rewrite(code, ops, rho, dead)|
    ensures var o := Origin(code, dead, i);
            && o < |code| && !IsDead(code[o].res, dead)
            && Rewrite(code, ops, rho, dead)[i] == Instr(Subst(ops[o], rho), code[o].res)
  {
    if IsDead(code[0].res, dead) {
      RewriteAt(code[1..], ops[1..], rho, dead, i);
    } else if i > 0 {
      RewriteAt(code[1..], ops[1..], rho, dead, i - 1);
    }
  }

  lemma {:induction false} OriginIncreases(code: Code, ops: seq<Op>, rho: map<ValueId, ValueId>, dead: set<ValueId>, i: nat, j: nat)
    requires |ops| == |code| && i < j < |Rewrite(code, ops, rho, dead)|
    ensures Origin(code, dead, i) < Origin(code, dead, j)
  {
    if IsDead(code[0].res, dead) {
      OriginIncreases(code[1..], ops[1..], rho, dead, i, j);
    } else if i > 0 {
      OriginIncreases(code[1..], ops[1..], rho, dead, i - 1, j - 1);
    }
  }

  /** Every survivor is found again. */
  lemma {:induction false} SurvivorStays(code: Code, ops: seq<Op>, rho: map<ValueId, ValueId>, dead: set<ValueId>, o: nat) returns (i: nat)
    requires |ops| == |code| && o < |code| && !IsDead(code[o].res, dead)
    ensures i < |Rewrite(code, ops, rho, dead)| && Origin(code, dead, i) == o
  {
    if o == 0 {
      i := 0;
    } else {
      i := SurvivorStays(code[1..], ops[1..], rho, dead, o - 1);
      if !IsDead(code[0].res, dead) { i := i + 1; }
    }
  }

  /** With nothing dead a rewrite is instruction by instruction. */
  lemma {:induction false} RewriteAll(code: Code, ops: seq<Op>, rho: map<ValueId, ValueId>, dead: set<ValueId>)
    requires |ops| == |code|
    requires forall i :: 0 <= i < |code| ==> !IsDead(code[i].res, dead)
    ensures Rewrite(code, ops, rho, dead)
            == seq(|code|, i requires 0 <= i < |code| => Instr(Subst(ops[i], rho), code[i].res))
  {
    if code != [] {
      RewriteAll(code[1..], ops[1..], rho, dead);
    }
  }

  /** One instruction of a concrete rewrite. */
  lemma RewriteCons(ins: Instr, rest: Code, rho: map<ValueId, ValueId>, dead: set<ValueId>)
    ensures Rewrite([ins] + rest, OpsOf([ins] + rest), rho, dead)
            == (if IsDead(ins.res, dead) then [] else [Instr(Subst(ins.op, rho), ins.res)])
               + Rewrite(rest, OpsOf(rest), rho, dead)
  {
    assert ([ins] + rest)[1..] == rest;
    assert OpsOf([ins] + rest)[1..] == OpsOf(rest);
  }

  /** The empty plan for a block. */
  lemma RewriteNothing(code: Code)
    ensures Rewrite(code, OpsOf(code), map[], {}) == code
  {
    RewriteAll(code, OpsOf(code), map[], {});
    forall i | 0 <= i < |code| ensures Instr(Subst(OpsOf(code)[i], map[]), code[i].res) == code[i] {
      SubstNothing(code[i].op);
    }
  }

  /** A plan keeps the kernel in SSA form: it drops definitions and moves none. */
  lemma ApplyKeepsUnique(k: KernelValue, p: Plan)
    requires UniqueDefs(k) && Fits(k, p)
    requires forall w, i :: 0 <= i < |CodeAt(k, w)| ==>
               PlanAt(p, w).ops[i].Loop? ==> CodeAt(k, w)[i].op.Loop? && PlanAt(p, w).ops[i].loopVar == CodeAt(k, w)[i].op.loopVar
    ensures UniqueDefs(Apply(k, p))
  {
    var k' := Apply(k, p);
    forall w, i, v, j, x | DefinedAt(k', w, i, x) && DefinedAt(k', v, j, x) ensures w == v && i == j {
      DefinedBefore(k, p, w, i, x);
      DefinedBefore(k, p, v, j, x);
      CodeAtApply(k, p, w);
      CodeIsRewrite(k, p, w);
      var q := PlanAt(p, w);
      if i < j { OriginIncreases(CodeAt(k, w), q.ops, q.rho, p.dead, i, j); }
      if j < i { OriginIncreases(CodeAt(k, w), q.ops, q.rho, p.dead, j, i); }
    }
    forall w, i, v, j, x | DefinedAt(k', w, i, x) && 0 <= j < |CodeAt(k', v)| && CodeAt(k', v)[j].op.Loop?
      ensures x !in LoopIds(CodeAt(k', v)[j].op.loopVar)
    {
      DefinedBefore(k, p, w, i, x);
      CodeIsRewrite(k, p, v);
      RewriteAt(CodeAt(k, v), PlanAt(p, v).ops, PlanAt(p, v).rho, p.dead, j);
    }
  }

  lemma CodeIsRewrite(k: KernelValue, p: Plan, w: Where)
    requires Fits(k, p)
    ensures |CodeAt(k, w)| == |PlanAt(p, w).ops|
    ensures CodeAt(Apply(k, p), w) == Rewrite(CodeAt(k, w), PlanAt(p, w).ops, PlanAt(p, w).rho, p.dead)
  {
    CodeAtApply(k, p, w);
    assert CodeAt(k, w)[0..] == CodeAt(k, w);
    assert PlanAt(p, w).ops[0..] == PlanAt(p, w).ops;
  }

  /** What is defined after a plan was defined before it, at the origin, and is not dead. */
  lemma DefinedBefore(k: KernelValue, p: Plan, w: Where, i: nat, x: ValueId)
    requires Fits(k, p) && DefinedAt(Apply(k, p), w, i, x)
    ensures DefinedAt(k, w, Origin(CodeAt(k, w), p.dead, i), x) && x !in p.dead
  {
    CodeIsRewrite(k, p, w);
    RewriteAt(CodeAt(k, w), PlanAt(p, w).ops, PlanAt(p, w).rho, p.dead, i);
  }

  /** A replacement changes only value ops, into value ops. */
  predicate SameRole(op: Op, alt: Op) {
    alt == op || (IsValueOp(op) && IsValueOp(alt))
  }

  ghost predicate RolesKept(k: KernelValue, p: Plan, u: Where) {
    && |PlanAt(p, u).ops| == |CodeAt(k, u)|
    && forall i :: 0 <= i < |CodeAt(k, u)| ==> SameRole(CodeAt(k, u)[i].op, PlanAt(p, u).ops[i])
  }

  /** What a plan needs of a kernel still holds after the plan. */
  lemma PlanKeepsDiscipline(c: Setting, p: Plan)
    requires Disciplined(c) && Fits(c.k, p) && forall u :: RolesKept(c.k, p, u)
    ensures Disciplined(c.(k := Apply(c.k, p)))
  {
    forall w, i | 0 <= i < |CodeAt(c.k, w)|
      ensures PlanAt(p, w).ops[i].Loop? ==> CodeAt(c.k, w)[i].op.Loop? && PlanAt(p, w).ops[i].loopVar == CodeAt(c.k, w)[i].op.loopVar
    {
      assert RolesKept(c.k, p, w);
    }
    hide UniqueDefs, EffectsKeep;
    ApplyKeepsUnique(c.k, p);
    forall u, i | 0 <= i < |CodeAt(Apply(c.k, p), u)| ensures StoresOutside(CodeAt(Apply(c.k, p), u)[i].op, c.ro) {
      CodeIsRewrite(c.k, p, u);
      StoreKept(c, p, u, i);
    }
  }

  lemma StoreKept(c: Setting, p: Plan, u: Where, i: nat)
    requires NeverStored(c.k, c.ro) && Fits(c.k, p) && i < |CodeAt(Apply(c.k, p), u)|
    requires RolesKept(c.k, p, u)
    ensures StoresOutside(CodeAt(Apply(c.k, p), u)[i].op, c.ro)
  {
    CodeIsRewrite(c.k, p, u);
    hide Apply;
    var q := PlanAt(p, u);
    RewriteAt(CodeAt(c.k, u), q.ops, q.rho, p.dead, i);
    var o := Origin(CodeAt(c.k, u), p.dead, i);
    assert StoresOutside(CodeAt(c.k, u)[o].op, c.ro);
    assert StoresOutside(q.ops[o], c.ro);
    assert StoresOutside(Subst(q.ops[o], q.rho), c.ro);
  }

  // ----- uses -----

  ghost predicate UsedAt(k: KernelValue, w: Where, i: int, u: ValueId) {
    0 <= i < |CodeAt(k, w)| && u in Uses(CodeAt(k, w)[i].op)
  }

  ghost predicate UsedSomewhere(k: KernelValue, u: ValueId) {
    exists w, i :: UsedAt(k, w, i, u)
  }

  /** A plan keeps every definition it does not drop. */
  lemma StaysDefined(k: KernelValue, p: Plan, w: Where, i: nat, x: ValueId)
    requires Fits(k, p) && DefinedAt(k, w, i, x) && x !in p.dead
    ensures DefinedSomewhere(Apply(k, p), x)
  {
    CodeIsRewrite(k, p, w);
    var q := PlanAt(p, w);
    var j := SurvivorStays(CodeAt(k, w), q.ops, q.rho, p.dead, i);
    RewriteAt(CodeAt(k, w), q.ops, q.rho, p.dead, j);
    assert DefinedAt(Apply(k, p), w, j, x);
  }
}
