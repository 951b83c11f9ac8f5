/**
 The loops of algebraic simplification, and the pass over a whole kernel.
 */
module AlgebraicPass {
  import opened Ir
  import opened Semantics
  import opened RewritePlan
  import opened Blocks
  import opened BlockUtil
  import opened LocalRewrite
  import opened AlgebraicSimplify
  import opened AlgebraicFixpoint

  /** What the scan has collected before position n. */
  ghost predicate Collected(code: Code, n: nat, consts: seq<(nat, int)>, ops: seq<(nat, Op)>, vids: map<ValueId, ValueId>)
    requires n <= |code|
  {
    && (forall j :: 0 <= j < |consts| ==> consts[j].0 < n && TrySimplify(code, code[consts[j].0].op) == ToConst(consts[j].1))
    && (forall j :: 0 <= j < |ops| ==> ops[j].0 < n && TrySimplify(code, code[ops[j].0].op) == ToOp(ops[j].1))
    && (forall i :: 0 <= i < n && TrySimplify(code, code[i].op).ToConst? ==>
          (i, TrySimplify(code, code[i].op).literal) in consts)
    && (forall i :: 0 <= i < n && TrySimplify(code, code[i].op).ToOp? ==>
          (i, TrySimplify(code, code[i].op).op) in ops)
    && vids == Found(code, n)
  }

  method Scan(code: Code) returns (consts: seq<(nat, int)>, ops: seq<(nat, Op)>, vids: map<ValueId, ValueId>)
    ensures Collected(code, |code|, consts, ops, vids)
  {
    hide TrySimplify;
    consts, ops, vids := [], [], map[];
    for i := 0 to |code|
      invariant Collected(code, i, consts, ops, vids)
    {
      match TrySimplify(code, code[i].op)
      case Keep =>
      case ToConst(n) =>
        consts := consts + [(i, n)];
      case ToOp(o) =>
        ops := ops + [(i, o)];
      case ToId(v) =>
        if code[i].res.Some? { vids := vids[code[i].res.value := v]; }
    }
  }

  /** Const overwrites and op replacements written into the block. */
  method Overwrite(block: Block, consts: seq<(nat, int)>, ops: seq<(nat, Op)>, ghost vids: map<ValueId, ValueId>)
    requires block.Valid() && Collected(block.View(), |block.View()|, consts, ops, vids)
    modifies block
    ensures block.Valid() && block.results == old(block.results)
    ensures block.ops == NewOps(old(block.View()))
  {
    hide TrySimplify;
    ghost var code := block.View();
    for j := 0 to |consts|
      invariant block.Valid() && block.results == old(block.results)
      invariant forall i :: 0 <= i < |code| ==> block.ops[i] == code[i].op || (TrySimplify(code, code[i].op).ToConst? && block.ops[i] == NewOp(code, code[i].op))
      invariant forall l :: 0 <= l < j ==> block.ops[consts[l].0] == NewOp(code, code[consts[l].0].op)
    {
      block.ops := block.ops[consts[j].0 := ConstOp(consts[j].1)];
    }
    ghost var consted := block.ops;
    for j := 0 to |ops|
      invariant block.Valid() && block.results == old(block.results)
      invariant forall i :: 0 <= i < |code| ==> block.ops[i] == consted[i] || (TrySimplify(code, code[i].op).ToOp? && block.ops[i] == NewOp(code, code[i].op))
      invariant forall l :: 0 <= l < j ==> block.ops[ops[l].0] == NewOp(code, code[ops[l].0].op)
    {
      block.ops := block.ops[ops[j].0 := ops[j].1];
    }
    AllOverwritten(code, consts, ops, vids, consted, block.ops);
  }

  lemma AllOverwritten(code: Code, consts: seq<(nat, int)>, ops: seq<(nat, Op)>, vids: map<ValueId, ValueId>, consted: seq<Op>, now: seq<Op>)
    requires Collected(code, |code|, consts, ops, vids) && |code| == |consted| == |now|
    requires forall i :: 0 <= i < |code| ==> consted[i] == code[i].op || (TrySimplify(code, code[i].op).ToConst? && consted[i] == NewOp(code, code[i].op))
    requires forall l :: 0 <= l < |consts| ==> consted[consts[l].0] == NewOp(code, code[consts[l].0].op)
    requires forall i :: 0 <= i < |code| ==> now[i] == consted[i] || (TrySimplify(code, code[i].op).ToOp? && now[i] == NewOp(code, code[i].op))
    requires forall l :: 0 <= l < |ops| ==> now[ops[l].0] == NewOp(code, code[ops[l].0].op)
    ensures now == NewOps(code)
  {
    hide TrySimplify;
    forall i | 0 <= i < |code| ensures now[i] == NewOps(code)[i] {
      match TrySimplify(code, code[i].op)
      case ToConst(n) =>
        var j :| 0 <= j < |consts| && consts[j] == (i, n);
        assert consted[consts[j].0] == NewOp(code, code[i].op);
      case ToOp(o) =>
        var j :| 0 <= j < |ops| && ops[j] == (i, o);
      case _ =>
    }
  }

  /** `simplify_block_once`. */
  method SimplifyBlockOnce(block: Block) returns (changed: bool)
    requires block.Valid()
    modifies block
    ensures block.Valid()
    ensures changed == Changes(old(block.View()))
    ensures block.View() == SimplifyOnce(old(block.View()))
  {
    hide TrySimplify, Resolved, Rewrite, Found;
    ghost var code := block.View();
    var consts, ops, vids := Scan(Zip(block.ops, block.results));
    if vids != map[] {
      var anyUsed := exists i :: 0 <= i < |block.ops| && Uses(block.ops[i]) * vids.Keys != {};
      AnyUsedInOps(block, vids);
      if !anyUsed { vids := map[]; }
    }
    assert vids == Pruned(code);
    NothingCollected(code, consts, ops, Found(code, |code|));
    if consts == [] && ops == [] && vids == map[] {
      return false;
    }
    Overwrite(block, consts, ops, Found(code, |code|));
    var rho := ResolveTransitive(vids);
    ghost var replaced := block.View();
    RedirectAndDrop(block, rho);
    assert rho.Keys == vids.Keys by { ResolvedKeys(vids); }
    RewriteThrough(code, replaced, rho);
    changed := true;
  }

  lemma AnyUsedInOps(block: Block, vids: map<ValueId, ValueId>)
    requires block.Valid()
    ensures AnyUsed(block.View(), vids) <==> exists i :: 0 <= i < |block.ops| && Uses(block.ops[i]) * vids.Keys != {}
  {
    if i :| 0 <= i < |block.ops| && Uses(block.ops[i]) * vids.Keys != {} {
      assert Uses(block.View()[i].op) * vids.Keys != {};
    }
    if AnyUsed(block.View(), vids) {
      var i :| 0 <= i < |block.View()| && Uses(block.View()[i].op) * vids.Keys != {};
      assert Uses(block.ops[i]) * vids.Keys != {};
    }
  }

  lemma NothingCollected(code: Code, consts: seq<(nat, int)>, ops: seq<(nat, Op)>, vids: map<ValueId, ValueId>)
    requires Collected(code, |code|, consts, ops, vids)
    ensures (consts == [] && ops == [])
            <==> !exists i :: 0 <= i < |code| && (TrySimplify(code, code[i].op).ToConst? || TrySimplify(code, code[i].op).ToOp?)
  {
    hide TrySimplify;
    if consts != [] { assert TrySimplify(code, code[consts[0].0].op).ToConst?; }
    if ops != [] { assert TrySimplify(code, code[ops[0].0].op).ToOp?; }
  }

  /** Rewriting the overwritten block by its own ops is rewriting the old block by the new ops. */
  lemma {:induction false} RewriteThrough(code: Code, replaced: Code, rho: map<ValueId, ValueId>)
    requires |code| == |replaced|
    requires forall i :: 0 <= i < |code| ==> replaced[i].res == code[i].res
    requires OpsOf(replaced) == NewOps(code)
    ensures Rewrite(replaced, OpsOf(replaced), rho, rho.Keys) == Rewrite(code, NewOps(code), rho, rho.Keys)
  {
    SameResultsSameRewrite(code, replaced, NewOps(code), rho, rho.Keys);
  }

  lemma {:induction false} SameResultsSameRewrite(code: Code, code': Code, ops: seq<Op>, rho: map<ValueId, ValueId>, dead: set<ValueId>)
    requires |code| == |code'| == |ops|
    requires forall i :: 0 <= i < |code| ==> code'[i].res == code[i].res
    ensures Rewrite(code', ops, rho, dead) == Rewrite(code, ops, rho, dead)
  {
    if code != [] { SameResultsSameRewrite(code[1..], code'[1..], ops[1..], rho, dead); }
  }

  /** `simplify_block_fixpoint`: it ends on every block in SSA form. */
  method SimplifyBlockFixpoint(block: Block)
    requires block.Valid() && Ssa(block.View())
    modifies block
    ensures block.Valid() && block.View() == Fixpoint(old(block.View()))
  {
    hide SimplifyOnce, Changes, Ssa;
    ghost var code := block.View();
    var changed := true;
    while changed
      invariant block.Valid() && Ssa(block.View())
      invariant Fixpoint(block.View()) == Fixpoint(code)
      invariant !changed ==> !Changes(block.View())
      decreases |block.View()|, Sum(Weights(block.View())), Sum(Ranks(block.View())), changed
    {
      ghost var before := block.View();
      changed := SimplifyBlockOnce(block);
      if changed {
        FixpointUnfolds(before);
        RoundDescends(before);
      } else {
        UnchangedRound(before);
      }
    }
    FixpointReached(block.View());
  }

  lemma UnchangedRound(code: Code)
    requires !Changes(code)
    ensures SimplifyOnce(code) == code
  {
  }

  lemma FixpointReached(code: Code)
    requires Ssa(code) && !Changes(code)
    ensures Fixpoint(code) == code
  {
  }

  // ----- the pass -----

  /** The kernel after the blocks of `order` have been simplified one after another. */
  ghost function Simplified(k: KernelValue, order: seq<Where>): KernelValue
    requires Ready(k, order)
    decreases |order|
  {
    if order == [] then k else Simplified(PutBlock(k, order[0], Fixpoint(CodeAt(k, order[0]))), order[1..])
  }

  /** Each block is in SSA form when its turn comes, and loses nothing others use. */
  ghost predicate Ready(k: KernelValue, order: seq<Where>)
    decreases |order|
  {
    order != [] ==>
      && HasBlock(k, order[0]) && Ssa(CodeAt(k, order[0]))
      && CrossUsesSurvive(k, order[0], Fixpoint(CodeAt(k, order[0])))
      && Ready(PutBlock(k, order[0], Fixpoint(CodeAt(k, order[0]))), order[1..])
  }

  lemma {:induction false} FixpointKeepsDiscipline(c: Setting, w: Where)
    requires Disciplined(c) && HasBlock(c.k, w) && Ssa(CodeAt(c.k, w))
    ensures Disciplined(c.(k := PutBlock(c.k, w, Fixpoint(CodeAt(c.k, w)))))
    decreases |CodeAt(c.k, w)|, Sum(Weights(CodeAt(c.k, w))), Sum(Ranks(CodeAt(c.k, w)))
  {
    hide Disciplined, Changes;
    var code := CodeAt(c.k, w);
    if Changes(code) {
      RoundKeepsDiscipline(c, w);
      RoundDescends(code);
      RoundKeepsSsa(code);
      var c1 := c.(k := PutBlock(c.k, w, SimplifyOnce(code)));
      FixpointKeepsDiscipline(c1, w);
      assert PutBlock(c1.k, w, Fixpoint(SimplifyOnce(code))) == PutBlock(c.k, w, Fixpoint(code));
    } else {
      assert PutBlock(c.k, w, code) == c.k;
    }
  }

  /** The whole pass, in any order of the blocks. */
  lemma {:induction false} PassPreserves(c: Setting, order: seq<Where>, fuel: nat)
    requires Disciplined(c) && Ready(c.k, order) && Laws(c.I)
    requires !Fails(RunKernel(c.I, c.k, State(c.mem, []), fuel))
    ensures SameForObserver(RunKernel(c.I, c.k, State(c.mem, []), fuel),
                            RunKernel(c.I, Simplified(c.k, order), State(c.mem, []), fuel))
    decreases |order|
  {
    hide Disciplined, Laws, CrossUsesSurvive, Semantics.Run;
    if order != [] {
      FixpointPreserves(c, order[0], fuel);
      FixpointKeepsDiscipline(c, order[0]);
      PassPreserves(c.(k := PutBlock(c.k, order[0], Fixpoint(CodeAt(c.k, order[0])))), order[1..], fuel);
    }
  }

  /** Simplifying one block leaves the others as they are, so each ends at its own fixpoint. */
  lemma {:induction false} SimplifiedBlock(k: KernelValue, order: seq<Where>, w: Where)
    requires Ready(k, order) && (forall i, j :: 0 <= i < j < |order| ==> order[i] != order[j])
    requires Ssa(CodeAt(k, w)) && HasBlock(k, w)
    ensures CodeAt(Simplified(k, order), w) == if w in order then Fixpoint(CodeAt(k, w)) else CodeAt(k, w)
    decreases |order|
  {
    hide Ssa, CrossUsesSurvive;
    if order != [] {
      FixpointIsStable(CodeAt(k, order[0]));
      var k1 := PutBlock(k, order[0], Fixpoint(CodeAt(k, order[0])));
      assert CodeAt(k1, w) == if w == order[0] then Fixpoint(CodeAt(k, w)) else CodeAt(k, w);
      SimplifiedBlock(k1, order[1..], w);
      assert w in order <==> w == order[0] || w in order[1..];
      if w == order[0] { assert w !in order[1..]; }
    }
  }

  /** `AlgebraicSimplifyPass::run` up to its final dead-value sweep. */
  method Run(kernel: Kernel)
    requires kernel.Valid() && Ssa(kernel.body.View()) && forall b :: b in kernel.blocks ==> Ssa(kernel.blocks[b].View())
    modifies kernel.body, kernel.blocks.Values
    ensures kernel.Valid() && kernel.body.View() == Fixpoint(old(kernel.body.View()))
    ensures forall b :: b in kernel.blocks ==> kernel.blocks[b].View() == Fixpoint(old(kernel.blocks[b].View()))
  {
    hide Ssa;
    var todo := kernel.blocks.Keys;
    while todo != {}
      invariant todo <= kernel.blocks.Keys && kernel.Valid() && kernel.body.View() == old(kernel.body.View())
      invariant forall b :: b in todo ==> kernel.blocks[b].View() == old(kernel.blocks[b].View())
      invariant forall b :: b in kernel.blocks.Keys - todo ==> kernel.blocks[b].View() == Fixpoint(old(kernel.blocks[b].View()))
      decreases todo
    {
      var b :| b in todo;
      todo := todo - {b};
      SimplifyBlockFixpoint(kernel.blocks[b]);
    }
    SimplifyBlockFixpoint(kernel.body);
  }
}
