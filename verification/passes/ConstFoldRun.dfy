/**
 The loops of constant folding, in place on a kernel.
 */
module ConstFoldRun {
  import opened Ir
  import opened Semantics
  import opened RewritePlan
  import opened Blocks
  import opened BlockUtil
  import opened LocalRewrite
  import opened ConstFold
  import opened ConstFoldPass

  /** The redirects pushed in the first n steps of the scan, by position. */
  ghost function Pushed(code: Code, n: nat): seq<(nat, ValueId)>
    requires n <= |code|
  {
    if n == 0 then []
    else if FoldOp(code, code[n - 1].op).ToId? then Pushed(code, n - 1) + [(n - 1, FoldOp(code, code[n - 1].op).id)]
    else Pushed(code, n - 1)
  }

  /** Their result ids; a position without a result is skipped. */
  ghost function Named(code: Code, pushed: seq<(nat, ValueId)>): seq<(ValueId, ValueId)>
    requires forall p :: p in pushed ==> p.0 < |code|
  {
    if pushed == [] then [] else
    var (i, v) := pushed[|pushed| - 1];
    assert pushed[|pushed| - 1] in pushed;
    Named(code, pushed[..|pushed| - 1]) + (if code[i].res.Some? then [(code[i].res.value, v)] else [])
  }

  lemma {:induction false} PushedNamed(code: Code, n: nat)
    requires n <= |code|
    ensures forall p :: p in Pushed(code, n) ==> p.0 < n
    ensures Named(code, Pushed(code, n)) == Redirected(code, n)
  {
    if n > 0 {
      PushedNamed(code, n - 1);
      var before, now := Pushed(code, n - 1), Pushed(code, n);
      if FoldOp(code, code[n - 1].op).ToId? { assert now[..|now| - 1] == before; }
    }
  }

  lemma {:induction false} SubstEachSnoc(op: Op, reps: seq<(ValueId, ValueId)>, p: (ValueId, ValueId))
    ensures SubstEach(op, reps + [p]) == Subst(SubstEach(op, reps), map[p.0 := p.1])
    decreases |reps|
  {
    if reps == [] {
      assert (reps + [p])[1..] == [];
    } else {
      assert (reps + [p])[1..] == reps[1..] + [p];
      SubstEachSnoc(Subst(op, map[reps[0].0 := reps[0].1]), reps[1..], p);
    }
  }

  ghost predicate ConstsCollected(code: Code, n: nat, consts: seq<(nat, int)>)
    requires n <= |code|
  {
    && (forall p :: p in consts ==> p.0 < n && FoldOp(code, code[p.0].op) == ToConst(p.1))
    && (forall i :: 0 <= i < n && FoldOp(code, code[i].op).ToConst? ==> (i, FoldOp(code, code[i].op).literal) in consts)
  }

  /** The scan; it stops where a literal operation panics. */
  method Scan(code: Code) returns (panicked: bool, consts: seq<(nat, int)>, pushed: seq<(nat, ValueId)>)
    ensures panicked == Crashes(code)
    ensures !panicked ==> ConstsCollected(code, |code|, consts) && pushed == Pushed(code, |code|)
  {
    hide FoldOp;
    panicked, consts, pushed := false, [], [];
    for i := 0 to |code|
      invariant !panicked && ConstsCollected(code, i, consts) && pushed == Pushed(code, i)
      invariant forall j :: 0 <= j < i ==> !FoldOp(code, code[j].op).Crash?
    {
      match FoldOp(code, code[i].op)
      case Stay =>
      case ToConst(n) => consts := consts + [(i, n)];
      case ToId(v) => pushed := pushed + [(i, v)];
      case Crash => return true, [], [];
    }
  }

  /** Rewrite the ops that folded to a constant. */
  method OverwriteConsts(block: Block, consts: seq<(nat, int)>)
    requires block.Valid() && ConstsCollected(block.View(), |block.View()|, consts)
    modifies block
    ensures block.Valid() && block.results == old(block.results)
    ensures var code := old(block.View());
            forall i :: 0 <= i < |code| ==> block.ops[i] == Overwritten(code, code[i].op)
  {
    hide FoldOp;
    ghost var code := block.View();
    for j := 0 to |consts|
      invariant block.Valid() && block.results == old(block.results)
      invariant forall i :: 0 <= i < |code| ==> block.ops[i] == code[i].op || block.ops[i] == Overwritten(code, code[i].op)
      invariant forall p :: p in consts[..j] ==> block.ops[p.0] == Overwritten(code, code[p.0].op)
    {
      assert consts[j] in consts;
      block.ops := block.ops[consts[j].0 := ConstOp(consts[j].1)];
      assert consts[..j + 1] == consts[..j] + [consts[j]];
    }
    assert consts[..|consts|] == consts;
    forall i | 0 <= i < |code| ensures block.ops[i] == Overwritten(code, code[i].op) {
      if FoldOp(code, code[i].op).ToConst? { assert (i, FoldOp(code, code[i].op).literal) in consts; }
    }
  }

  /** Redirect uses of identity-folded ops, one redirect after another. */
  method RedirectUses(block: Block, pushed: seq<(nat, ValueId)>, ghost code: Code)
    requires block.Valid() && |block.ops| == |code|
    requires forall i :: 0 <= i < |code| ==> block.results[i] == code[i].res
    requires forall p :: p in pushed ==> p.0 < |code|
    modifies block
    ensures block.Valid() && block.results == old(block.results)
    ensures forall i :: 0 <= i < |block.ops| ==> block.ops[i] == SubstEach(old(block.ops)[i], Named(code, pushed))
  {
    for j := 0 to |pushed|
      invariant block.Valid() && block.results == old(block.results)
      invariant forall p :: p in pushed[..j] ==> p.0 < |code|
      invariant forall i :: 0 <= i < |code| ==> block.ops[i] == SubstEach(old(block.ops)[i], Named(code, pushed[..j]))
    {
      assert pushed[j] in pushed;
      assert pushed[..j + 1][..j] == pushed[..j] && pushed[..j + 1][j] == pushed[j];
      ghost var reps := Named(code, pushed[..j]);
      var old_vid := block.results[pushed[j].0];
      assert Named(code, pushed[..j + 1]) == reps + (if old_vid.Some? then [(old_vid.value, pushed[j].1)] else []);
      if old_vid.Some? {
        ghost var pair, before := (old_vid.value, pushed[j].1), block.ops;
        forall i | 0 <= i < |code|
          ensures SubstEach(old(block.ops)[i], reps + [pair]) == Subst(before[i], map[pair.0 := pair.1])
        {
          SubstEachSnoc(old(block.ops)[i], reps, pair);
        }
        SubstInBlock(block, map[old_vid.value := pushed[j].1]);
        forall i | 0 <= i < |code|
          ensures block.ops[i] == SubstEach(old(block.ops)[i], Named(code, pushed[..j + 1]))
        {
          assert block.ops[i] == Subst(before[i], map[pair.0 := pair.1]);
        }
      } else {
        assert Named(code, pushed[..j + 1]) == reps;
      }
    }
    assert pushed[..|pushed|] == pushed;
  }

  /** `fold_block`. */
  method FoldInPlace(block: Block) returns (panicked: bool)
    requires block.Valid()
    modifies block
    ensures block.Valid()
    ensures panicked == Crashes(old(block.View()))
    ensures block.View() == if panicked then old(block.View()) else FoldBlock(old(block.View()))
  {
    hide FoldOp, Crashes, SubstEach;
    ghost var code := block.View();
    var consts, pushed;
    panicked, consts, pushed := Scan(Zip(block.ops, block.results));
    if panicked { return; }
    OverwriteConsts(block, consts);
    PushedNamed(code, |code|);
    RedirectUses(block, pushed, code);
  }

  /** One redirect applied to every op. */
  method SubstInBlock(block: Block, m: map<ValueId, ValueId>)
    requires block.Valid()
    modifies block
    ensures block.Valid() && block.results == old(block.results)
    ensures forall i :: 0 <= i < |block.ops| ==> block.ops[i] == Subst(old(block.ops)[i], m)
  {
    var n := |block.ops|;
    for i := 0 to n
      invariant block.Valid() && |block.ops| == n && block.results == old(block.results)
      invariant forall j :: 0 <= j < i ==> block.ops[j] == Subst(old(block.ops)[j], m)
      invariant forall j :: i <= j < n ==> block.ops[j] == old(block.ops)[j]
    {
      block.ops := block.ops[i := Subst(block.ops[i], m)];
    }
  }

  /** `collect_uses` over a block. */
  method CollectUses(block: Block) returns (used: set<ValueId>)
    requires block.Valid()
    ensures forall v :: v in used <==> UsedIn(block.View(), v)
  {
    used := {};
    for i := 0 to |block.ops|
      invariant forall v :: v in used <==> exists j :: 0 <= j < i && v in Uses(block.View()[j].op)
    {
      assert block.View()[i].op == block.ops[i];
      used := used + Uses(block.ops[i]);
    }
  }

  /** `dce_block`. */
  method DceBlock(block: Block, crossRefs: set<ValueId>, ghost dead: set<ValueId>)
    requires block.Valid()
    requires forall i :: 0 <= i < |block.View()| && block.View()[i].res.Some? ==>
               var v := block.View()[i].res.value;
               v in dead <==> v !in crossRefs && !UsedIn(block.View(), v)
    modifies block
    ensures block.Valid()
    ensures block.View() == Rewrite(old(block.View()), OpsOf(old(block.View())), map[], dead)
  {
    ghost var code := block.View();
    var used := CollectUses(block);
    used := used + crossRefs;
    var results := block.results;
    assert forall i :: 0 <= i < |code| ==> code[i].res == results[i];
    var drop := seq(|results|, i requires 0 <= i < |results| => results[i].Some? && results[i].value !in used);
    KeepUnmarked(block, drop);
    KeptIsRewrite(code, OpsOf(code), drop, map[], dead);
    forall i | 0 <= i < |code| ensures Instr(Subst(OpsOf(code)[i], map[]), code[i].res) == code[i] {
      SubstNothing(code[i].op);
    }
    assert seq(|code|, i requires 0 <= i < |code| => Instr(Subst(OpsOf(code)[i], map[]), code[i].res)) == code;
  }

  /** The fold of every nested block, in some order; stops at a panic. */
  method FoldNested(kernel: Kernel) returns (panicked: bool)
    requires kernel.Valid()
    modifies kernel.blocks.Values
    ensures kernel.Valid() && kernel.body.View() == old(kernel.body.View())
    ensures !panicked ==> forall b :: b in kernel.blocks ==>
              kernel.blocks[b].View() == FoldBlock(old(kernel.blocks[b].View())) && !Crashes(old(kernel.blocks[b].View()))
    ensures panicked ==> exists b :: b in kernel.blocks && Crashes(old(kernel.blocks[b].View()))
  {
    panicked := false;
    var todo := kernel.blocks.Keys;
    while todo != {}
      invariant todo <= kernel.blocks.Keys && kernel.Valid() && !panicked
      invariant kernel.body.View() == old(kernel.body.View())
      invariant forall b :: b in todo ==> kernel.blocks[b].View() == old(kernel.blocks[b].View())
      invariant forall b :: b in kernel.blocks.Keys - todo ==>
                  kernel.blocks[b].View() == FoldBlock(old(kernel.blocks[b].View())) && !Crashes(old(kernel.blocks[b].View()))
      decreases todo
    {
      var b :| b in todo;
      todo := todo - {b};
      panicked := FoldInPlace(kernel.blocks[b]);
      if panicked { return; }
    }
  }

  /** Every id some block uses. */
  method CollectAllUses(kernel: Kernel) returns (refs: set<ValueId>)
    requires kernel.Valid()
    ensures forall v :: v in refs <==> Used(kernel.View(), v)
  {
    refs := CollectUses(kernel.body);
    var todo := kernel.blocks.Keys;
    while todo != {}
      invariant todo <= kernel.blocks.Keys
      invariant forall v :: v in refs <==>
                  UsedIn(kernel.body.View(), v) || exists b :: b in kernel.blocks.Keys - todo && UsedIn(kernel.blocks[b].View(), v)
      decreases todo
    {
      var b :| b in todo;
      var used := CollectUses(kernel.blocks[b]);
      refs, todo := refs + used, todo - {b};
    }
    forall v ensures Used(kernel.View(), v) <==>
      UsedIn(kernel.body.View(), v) || exists b :: b in kernel.blocks.Keys && UsedIn(kernel.blocks[b].View(), v)
    {
      UsedInView(kernel, v);
    }
  }

  lemma UsedInView(kernel: Kernel, v: ValueId)
    requires kernel.Valid()
    ensures Used(kernel.View(), v) <==>
      UsedIn(kernel.body.View(), v) || exists b :: b in kernel.blocks.Keys && UsedIn(kernel.blocks[b].View(), v)
  {
    var k := kernel.View();
    if b :| b in kernel.blocks.Keys && UsedIn(kernel.blocks[b].View(), v) {
      assert b in k.blocks && UsedIn(k.blocks[b], v);
    }
    if b :| b in k.blocks && UsedIn(k.blocks[b], v) {
      assert b in kernel.blocks.Keys && UsedIn(kernel.blocks[b].View(), v);
    }
  }

  /** One nested block; the others are different objects. */
  method DceOne(kernel: Kernel, b: BlockId, refs: set<ValueId>, ghost k: KernelValue)
    requires kernel.Valid() && b in kernel.blocks && b in k.blocks && kernel.blocks[b].View() == k.blocks[b]
    requires forall v :: v in refs <==> Used(k, v)
    modifies kernel.blocks[b]
    ensures kernel.Valid() && kernel.body.View() == old(kernel.body.View())
    ensures kernel.blocks[b].View() == Rewrite(k.blocks[b], OpsOf(k.blocks[b]), map[], Unused(k))
    ensures forall d :: d in kernel.blocks && d != b ==> kernel.blocks[d].View() == old(kernel.blocks[d].View())
  {
    UnusedInBlock(k, b, refs);
    hide Used, Unused, Dce, UsedIn, Rewrite, Zip;
    DceBlock(kernel.blocks[b], refs, Unused(k));
  }

  method DceNested(kernel: Kernel, refs: set<ValueId>)
    requires kernel.Valid() && UniqueDefs(kernel.View()) && forall v :: v in refs <==> Used(kernel.View(), v)
    modifies kernel.blocks.Values
    ensures kernel.Valid() && kernel.View() == Dce(old(kernel.View()))
  {
    ghost var k := kernel.View();
    BodyUntouched(k);
    hide Used, Unused, UniqueDefs, Dce, UsedIn, Rewrite;
    var todo := kernel.blocks.Keys;
    while todo != {}
      invariant todo <= kernel.blocks.Keys && kernel.Valid()
      invariant kernel.body.View() == k.body
      invariant forall b :: b in todo ==> kernel.blocks[b].View() == k.blocks[b]
      invariant forall b :: b in kernel.blocks.Keys - todo ==>
                  kernel.blocks[b].View() == Rewrite(k.blocks[b], OpsOf(k.blocks[b]), map[], Unused(k))
      decreases todo
    {
      var b :| b in todo;
      DceOne(kernel, b, refs, k);
      todo := todo - {b};
    }
    DceParts(k, kernel.View());
  }

  lemma DceParts(k: KernelValue, k': KernelValue)
    requires k'.body == k.body && k'.blocks.Keys == k.blocks.Keys
    requires Rewrite(k.body, OpsOf(k.body), map[], Unused(k)) == k.body
    requires forall b :: b in k.blocks ==> k'.blocks[b] == Rewrite(k.blocks[b], OpsOf(k.blocks[b]), map[], Unused(k))
    ensures k' == Dce(k)
  {
    hide Used, Unused, Rewrite;
    assert k'.blocks == Dce(k).blocks;
  }

  lemma UnusedInBlock(k: KernelValue, b: BlockId, refs: set<ValueId>)
    requires b in k.blocks && forall v :: v in refs <==> Used(k, v)
    ensures forall i :: 0 <= i < |k.blocks[b]| && k.blocks[b][i].res.Some? ==>
              var v := k.blocks[b][i].res.value;
              v in Unused(k) <==> v !in refs && !UsedIn(k.blocks[b], v)
  {
  }

  /** The entry block is not dead-code eliminated. */
  lemma BodyUntouched(k: KernelValue)
    requires UniqueDefs(k)
    ensures Rewrite(k.body, OpsOf(k.body), map[], Unused(k)) == k.body
  {
    forall i | 0 <= i < |k.body| ensures !IsDead(k.body[i].res, Unused(k)) {
      if IsDead(k.body[i].res, Unused(k)) {
        var x := k.body[i].res.value;
        assert DefinedAt(k, None, i, x);
        var b, j :| b in k.blocks && 0 <= j < |k.blocks[b]| && k.blocks[b][j].res == Some(x);
        var twice := DefinedAt(k, Some(b), j, x);
        assert false;
      }
    }
    RewriteAll(k.body, OpsOf(k.body), map[], Unused(k));
    RewriteAll(k.body, OpsOf(k.body), map[], {});
    RewriteNothing(k.body);
  }

  // ----- the pass -----

  /** The fold of every block at once: folding one block reads and writes that block only. */
  ghost function FoldedAll(k: KernelValue): KernelValue {
    KernelValue(FoldBlock(k.body), map b | b in k.blocks :: FoldBlock(k.blocks[b]))
  }

  ghost function Rest(done: set<Where>, k: KernelValue): KernelValue {
    KernelValue(if None in done then FoldBlock(k.body) else k.body,
                map b | b in k.blocks :: if Some(b) in done then FoldBlock(k.blocks[b]) else k.blocks[b])
  }

  /** The order in which blocks are folded does not matter. */
  lemma {:induction false} OrderIrrelevant(k: KernelValue, order: seq<Where>, done: set<Where>)
    requires Distinct(order) && forall w :: w in order ==> w !in done && HasBlock(k, w)
    requires forall w :: HasBlock(k, w) ==> w in done || w in order
    ensures FoldedIn(Rest(done, k), order) == FoldedAll(k)
    decreases |order|
  {
    hide FoldBlock;
    if order == [] {
      assert Rest(done, k).blocks == FoldedAll(k).blocks by {
        forall b | b in k.blocks ensures Some(b) in done { assert HasBlock(k, Some(b)); }
      }
      assert HasBlock(k, None);
    } else {
      var w := order[0];
      assert w in order;
      var next := PutBlock(Rest(done, k), w, FoldBlock(CodeAt(Rest(done, k), w)));
      assert next == Rest(done + {w}, k) by {
        assert next.blocks == Rest(done + {w}, k).blocks;
      }
      OrderIrrelevant(k, order[1..], done + {w});
    }
  }

  /** `ConstFoldPass::run` up to its final dead-value sweep. */
  method Run(kernel: Kernel) returns (panicked: bool)
    requires kernel.Valid() && UniqueDefs(kernel.View())
    modifies kernel.body, kernel.blocks.Values
    ensures kernel.Valid()
    ensures panicked <==> exists w :: HasBlock(old(kernel.View()), w) && Crashes(CodeAt(old(kernel.View()), w))
    ensures !panicked ==> kernel.View() == Dce(FoldedAll(old(kernel.View())))
  {
    hide Crashes, FoldBlock, UniqueDefs, Used, Dce;
    ghost var k := kernel.View();
    panicked := FoldInPlace(kernel.body);
    if panicked {
      assert Crashes(CodeAt(k, None));
      return;
    }
    panicked := FoldNested(kernel);
    if panicked {
      ghost var b :| b in kernel.blocks && Crashes(k.blocks[b]);
      assert Crashes(CodeAt(k, Some(b)));
      return;
    }
    assert kernel.View() == FoldedAll(k) by {
      assert kernel.View().blocks == FoldedAll(k).blocks;
    }
    FoldedUnique(k);
    var refs := CollectAllUses(kernel);
    DceNested(kernel, refs);
  }

  /** Folding moves no definition. */
  lemma FoldedUnique(k: KernelValue)
    requires UniqueDefs(k)
    ensures UniqueDefs(FoldedAll(k))
  {
    var k' := FoldedAll(k);
    forall w ensures |CodeAt(k', w)| == |CodeAt(k, w)|
      && forall i :: 0 <= i < |CodeAt(k, w)| ==>
           CodeAt(k', w)[i].res == CodeAt(k, w)[i].res
           && (CodeAt(k', w)[i].op.Loop? ==>
                 CodeAt(k, w)[i].op.Loop? && CodeAt(k', w)[i].op.loopVar == CodeAt(k, w)[i].op.loopVar)
    {
      forall i | 0 <= i < |CodeAt(k, w)|
        ensures FoldBlock(CodeAt(k, w))[i].op.Loop? ==>
                  CodeAt(k, w)[i].op.Loop? && FoldBlock(CodeAt(k, w))[i].op.loopVar == CodeAt(k, w)[i].op.loopVar
      {
        SubstEachIsSubst(Overwritten(CodeAt(k, w), CodeAt(k, w)[i].op), Redirected(CodeAt(k, w), |CodeAt(k, w)|));
      }
    }
    hide FoldedAll;
    forall w, i, x | DefinedAt(k', w, i, x) ensures DefinedAt(k, w, i, x) {}
  }

  /** The kernel that a `Run` without panic leaves behaves like the one it was given. */
  lemma RunPreserves(c: Setting, fuel: nat)
    requires Disciplined(c) && Laws(c.I) && WritersHaveNoResult(c.k)
    requires forall w :: HasBlock(c.k, w) ==> Foldable(CodeAt(c.k, w))
    requires !Fails(RunKernel(c.I, c.k, State(c.mem, []), fuel))
    ensures SameForObserver(RunKernel(c.I, c.k, State(c.mem, []), fuel),
                            RunKernel(c.I, Dce(FoldedAll(c.k)), State(c.mem, []), fuel))
  {
    var order := AllPlaces(c.k.blocks.Keys);
    hide Disciplined, Laws, WritersHaveNoResult, Foldable, Dce, FoldBlock, RunKernel;
    PassPreserves(c, order, fuel);
    assert Rest({}, c.k) == c.k;
    OrderIrrelevant(c.k, order, {});
  }
}
