/**
 The constant-folding pass: fold the entry block and every nested block, then drop the
 results of nested blocks that nothing in the kernel uses.
 */
module ConstFoldPass {
  import opened Ir
  import opened Semantics
  import opened RewritePlan
  import opened Blocks
  import opened LocalRewrite
  import opened ConstFold

  // ----- folding every block -----

  /** The kernel after the blocks of `order` have been folded one after another. */
  function FoldedIn(k: KernelValue, order: seq<Where>): KernelValue
    decreases |order|
  {
    if order == [] then k else FoldedIn(PutBlock(k, order[0], FoldBlock(CodeAt(k, order[0]))), order[1..])
  }

  ghost predicate Distinct(order: seq<Where>) {
    forall i, j :: 0 <= i < j < |order| ==> order[i] != order[j]
  }

  ghost predicate AllFoldable(k: KernelValue, order: seq<Where>) {
    forall w :: w in order ==> HasBlock(k, w) && Foldable(CodeAt(k, w))
  }

  lemma CodeAtPut(k: KernelValue, w: Where, code: Code, u: Where)
    requires HasBlock(k, w)
    ensures CodeAt(PutBlock(k, w, code), u) == if u == w then code else CodeAt(k, u)
  {
  }

  lemma FoldKeepsDiscipline(c: Setting, w: Where)
    requires Disciplined(c) && HasBlock(c.k, w)
    ensures Disciplined(c.(k := PutBlock(c.k, w, FoldBlock(CodeAt(c.k, w)))))
  {
    hide UniqueDefs, EffectsKeep, NeverStored, Apply, FoldBlock, FoldPlan, RolesKept;
    FoldApply(c.k, w);
    var p := FoldPlan(c.k, w);
    forall u ensures RolesKept(c.k, p, u) { FoldKeepsRoles(c.k, w, u); }
    PlanKeepsDiscipline(c, p);
  }

  lemma FoldKeepsRoles(k: KernelValue, w: Where, u: Where)
    requires HasBlock(k, w)
    ensures RolesKept(k, FoldPlan(k, w), u)
  {
    hide FoldOp, IsValueOp;
    var p, code := FoldPlan(k, w), CodeAt(k, u);
    if u != w { assert PlanAt(p, u).ops == OpsOf(code); }
    forall i | 0 <= i < |code| ensures SameRole(code[i].op, PlanAt(p, u).ops[i]) {
      if u == w { OverwrittenRole(code, i); }
    }
  }

  lemma OverwrittenRole(code: Code, i: nat)
    requires i < |code|
    ensures SameRole(code[i].op, Overwritten(code, code[i].op))
  {
  }

  lemma {:induction false} FoldedPreserves(c: Setting, order: seq<Where>, fuel: nat)
    requires Disciplined(c) && Laws(c.I) && Distinct(order) && AllFoldable(c.k, order)
    requires !Fails(RunKernel(c.I, c.k, State(c.mem, []), fuel))
    ensures RunKernel(c.I, FoldedIn(c.k, order), State(c.mem, []), fuel) == RunKernel(c.I, c.k, State(c.mem, []), fuel)
    ensures Disciplined(c.(k := FoldedIn(c.k, order)))
    decreases |order|
  {
    hide Disciplined, Laws, Run, FoldBlock, Foldable;
    if order != [] {
      var w := order[0];
      assert HasBlock(c.k, w) && Foldable(CodeAt(c.k, w));
      var k1 := PutBlock(c.k, w, FoldBlock(CodeAt(c.k, w)));
      FoldPreserves(c, w, fuel);
      FoldKeepsDiscipline(c, w);
      forall u | u in order[1..] ensures HasBlock(k1, u) && Foldable(CodeAt(k1, u)) {
        assert u in order && u != w;
        CodeAtPut(c.k, w, FoldBlock(CodeAt(c.k, w)), u);
      }
      FoldedPreserves(c.(k := k1), order[1..], fuel);
    }
  }

  // ----- dropping unused results of nested blocks -----

  predicate UsedIn(code: Code, v: ValueId) {
    exists i :: 0 <= i < |code| && v in Uses(code[i].op)
  }

  predicate Used(k: KernelValue, v: ValueId) {
    UsedIn(k.body, v) || exists b :: b in k.blocks && UsedIn(k.blocks[b], v)
  }

  /** The results of nested blocks that nothing in the kernel uses. */
  function Unused(k: KernelValue): set<ValueId> {
    set b, i | b in k.blocks && 0 <= i < |k.blocks[b]| && k.blocks[b][i].res.Some? && !Used(k, k.blocks[b][i].res.value)
      :: k.blocks[b][i].res.value
  }

  function DcePlan(k: KernelValue): Plan {
    Plan(Unused(k), BlockPlan(OpsOf(k.body), map[]), map b | b in k.blocks :: BlockPlan(OpsOf(k.blocks[b]), map[]))
  }

  function Dce(k: KernelValue): KernelValue { Apply(k, DcePlan(k)) }

  /** The pass, up to its final dead-value sweep. */
  function ConstFolded(k: KernelValue, order: seq<Where>): KernelValue { Dce(FoldedIn(k, order)) }

  /** An op that has a result changes nothing: writers are built without one. */
  ghost predicate WritersHaveNoResult(k: KernelValue) {
    forall w, i :: 0 <= i < |CodeAt(k, w)| && CodeAt(k, w)[i].res.Some? ==> IsReader(CodeAt(k, w)[i].op)
  }

  lemma UsedAtIsUsed(k: KernelValue, w: Where, i: nat, v: ValueId)
    requires i < |CodeAt(k, w)| && v in Uses(CodeAt(k, w)[i].op)
    ensures Used(k, v)
  {
    assert UsedIn(CodeAt(k, w), v);
  }

  /** No value any block refers to is ever dropped. */
  lemma DceDropsNothingUsed(k: KernelValue, w: Where, i: nat)
    requires i < |CodeAt(k, w)|
    ensures Uses(CodeAt(k, w)[i].op) !! Unused(k)
  {
    forall v | v in Uses(CodeAt(k, w)[i].op) ensures v !in Unused(k) {
      UsedAtIsUsed(k, w, i, v);
    }
  }

  lemma DceSound(c: Setting)
    requires UniqueDefs(c.k) && WritersHaveNoResult(c.k)
    ensures Sound(c, DcePlan(c.k))
  {
    hide Redirects, Used;
    var p := DcePlan(c.k);
    forall x | x in p.dead ensures DefinedSomewhere(c.k, x) {
      var b, i :| b in c.k.blocks && 0 <= i < |c.k.blocks[b]| && c.k.blocks[b][i].res == Some(x);
      assert DefinedAt(c.k, Some(b), i, x);
    }
    forall u ensures BlockSound(c, p, u) {
      forall i | 0 <= i < |CodeAt(c.k, u)|
        ensures InstrSound(c, p, CodeAt(c.k, u)[i], PlanAt(p, u).ops[i], PlanAt(p, u).rho)
      {
        DceInstrSound(c, u, i);
      }
    }
  }

  lemma DceInstrSound(c: Setting, u: Where, i: nat)
    requires UniqueDefs(c.k) && WritersHaveNoResult(c.k) && i < |CodeAt(c.k, u)|
    ensures var p := DcePlan(c.k);
            |PlanAt(p, u).ops| == |CodeAt(c.k, u)|
            && InstrSound(c, p, CodeAt(c.k, u)[i], PlanAt(p, u).ops[i], PlanAt(p, u).rho)
  {
    hide Used;
    var ins := CodeAt(c.k, u)[i];
    DceDropsNothingUsed(c.k, u, i);
    if IsDead(ins.res, Unused(c.k)) {
      var x := ins.res.value;
      var b, j :| b in c.k.blocks && 0 <= j < |c.k.blocks[b]| && c.k.blocks[b][j].res == Some(x);
      assert DefinedAt(c.k, Some(b), j, x) && DefinedAt(c.k, u, i, x);
    }
  }

  /** Folding keeps results where they are and turns no reader into a writer. */
  lemma FoldKeepsReaders(k: KernelValue, w: Where)
    requires WritersHaveNoResult(k) && HasBlock(k, w)
    ensures WritersHaveNoResult(PutBlock(k, w, FoldBlock(CodeAt(k, w))))
  {
    var code := CodeAt(k, w);
    var k' := PutBlock(k, w, FoldBlock(code));
    forall u, i | 0 <= i < |CodeAt(k', u)| && CodeAt(k', u)[i].res.Some? ensures IsReader(CodeAt(k', u)[i].op) {
      CodeAtPut(k, w, FoldBlock(code), u);
      assert CodeAt(k, u)[i].res == CodeAt(k', u)[i].res;
      if u == w { FoldedReader(code, i); }
    }
  }

  lemma FoldedReader(code: Code, i: nat)
    requires i < |code| && IsReader(code[i].op)
    ensures IsReader(FoldBlock(code)[i].op)
  {
    hide FoldOp, Redirected;
    SubstEachIsSubst(Overwritten(code, code[i].op), Redirected(code, |code|));
  }

  lemma {:induction false} FoldedKeepsReaders(k: KernelValue, order: seq<Where>)
    requires WritersHaveNoResult(k) && forall w :: w in order ==> HasBlock(k, w)
    ensures WritersHaveNoResult(FoldedIn(k, order))
    decreases |order|
  {
    hide WritersHaveNoResult, FoldBlock;
    if order != [] {
      assert order[0] in order;
      FoldKeepsReaders(k, order[0]);
      var k1 := PutBlock(k, order[0], FoldBlock(CodeAt(k, order[0])));
      forall w | w in order[1..] ensures HasBlock(k1, w) { assert w in order; }
      FoldedKeepsReaders(k1, order[1..]);
    }
  }

  /** The whole pass preserves every run that does not get stuck: folding although each
      redirect lands on an already rewritten block, and dropping although the uses were
      counted before anything was dropped. */
  lemma PassPreserves(c: Setting, order: seq<Where>, fuel: nat)
    requires Disciplined(c) && Laws(c.I) && Distinct(order) && AllFoldable(c.k, order)
    requires WritersHaveNoResult(c.k)
    requires !Fails(RunKernel(c.I, c.k, State(c.mem, []), fuel))
    ensures SameForObserver(RunKernel(c.I, c.k, State(c.mem, []), fuel),
                            RunKernel(c.I, ConstFolded(c.k, order), State(c.mem, []), fuel))
  {
    assert forall w :: w in order ==> HasBlock(c.k, w);
    hide Laws, Run, WritersHaveNoResult, AllFoldable, Unused, UniqueDefs, NeverStored, EffectsKeep;
    FoldedPreserves(c, order, fuel);
    FoldedKeepsReaders(c.k, order);
    var c1 := c.(k := FoldedIn(c.k, order));
    DceSound(c1);
    PlanPreserves(c1, DcePlan(c1.k), fuel);
  }

  // ----- nothing is left dangling -----

  /** What a block defines it still defines after folding. */
  lemma {:induction false} FoldedDefines(k: KernelValue, order: seq<Where>, w: Where, i: nat, x: ValueId)
    requires (forall v :: v in order ==> HasBlock(k, v)) && DefinedAt(k, w, i, x)
    ensures DefinedAt(FoldedIn(k, order), w, i, x)
    decreases |order|
  {
    if order != [] {
      assert order[0] in order;
      var k1 := PutBlock(k, order[0], FoldBlock(CodeAt(k, order[0])));
      CodeAtPut(k, order[0], FoldBlock(CodeAt(k, order[0])), w);
      assert DefinedAt(k1, w, i, x);
      hide FoldBlock;
      forall v | v in order[1..] ensures HasBlock(k1, v) { assert v in order; }
      FoldedDefines(k1, order[1..], w, i, x);
    }
  }

  /** Every id the final kernel uses and the original defines is still defined. */
  lemma NoDanglingUse(k: KernelValue, order: seq<Where>, u: ValueId)
    requires forall w :: w in order ==> HasBlock(k, w)
    requires UsedSomewhere(ConstFolded(k, order), u) && DefinedSomewhere(k, u)
    ensures DefinedSomewhere(ConstFolded(k, order), u)
  {
    var k1 := FoldedIn(k, order);
    var p := DcePlan(k1);
    var w, i :| DefinedAt(k, w, i, u);
    FoldedDefines(k, order, w, i, u);
    DceFits(k1);
    var v, j :| UsedAt(Dce(k1), v, j, u);
    CodeIsRewrite(k1, p, v);
    RewriteAt(CodeAt(k1, v), PlanAt(p, v).ops, PlanAt(p, v).rho, p.dead, j);
    var o := Origin(CodeAt(k1, v), p.dead, j);
    SubstNothing(CodeAt(k1, v)[o].op);
    DceDropsNothingUsed(k1, v, o);
    StaysDefined(k1, p, w, i, u);
  }

  lemma DceFits(k: KernelValue)
    ensures Fits(k, DcePlan(k))
    ensures forall w :: PlanAt(DcePlan(k), w) == BlockPlan(OpsOf(CodeAt(k, w)), map[])
  {
  }
}
