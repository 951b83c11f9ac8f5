/**
 The CSE pass as it runs: a table, a remap and a skip array filled in one scan, the
 block rebuilt in place, and the remap pushed into every other block.
 */
module CsePass {
  import opened Ir
  import opened Semantics
  import opened RewritePlan
  import opened Blocks
  import opened BlockUtil
  import opened Cse
  import opened CseRepeats

  /** What the table holds after the first n instructions. */
  ghost predicate TableOf(code: Code, ro: set<string>, n: nat, table: map<OpKey, ValueId>)
    requires n <= |code|
  {
    forall key :: (key in table <==> First(code, ro, key, 0) < n)
      && (key in table ==> table[key] == code[First(code, ro, key, 0)].res.value)
  }

  lemma TableStep(code: Code, ro: set<string>, n: nat, key: OpKey)
    requires n < |code|
    ensures First(code, ro, key, 0) < n + 1 <==> First(code, ro, key, 0) < n || (HasKey(code[n], ro, key) && First(code, ro, key, 0) == n)
  {
  }

  /** Phase 1: find the duplicates. */
  method FindDuplicates(block: Block, readOnly: set<string>)
    returns (remap: map<ValueId, ValueId>, skip: seq<bool>)
    requires block.Valid()
    ensures remap == Remap(block.View(), readOnly, |block.View()|)
    ensures |skip| == |block.ops|
    ensures forall i :: 0 <= i < |skip| ==> (skip[i] <==> IsDuplicate(block.View(), readOnly, i))
  {
    ghost var code := block.View();
    var table: map<OpKey, ValueId> := map[];
    remap := map[];
    skip := seq(|block.ops|, _ => false);
    for i := 0 to |block.ops|
      invariant |skip| == |block.ops|
      invariant TableOf(code, readOnly, i, table)
      invariant remap == Remap(code, readOnly, i)
      invariant forall j :: 0 <= j < i ==> (skip[j] <==> IsDuplicate(code, readOnly, j))
      invariant forall j :: i <= j < |skip| ==> !skip[j]
    {
      assert code[i] == Instr(block.ops[i], block.results[i]);
      forall key ensures First(code, readOnly, key, 0) < i + 1 <==>
                           First(code, readOnly, key, 0) < i
                           || (HasKey(code[i], readOnly, key) && First(code, readOnly, key, 0) == i) {
        TableStep(code, readOnly, i, key);
      }
      var key := Key(block.ops[i], readOnly);
      if key.Some? && block.results[i].Some? {
        var vid := block.results[i].value;
        if key.value in table {
          remap := remap[vid := table[key.value]];
          skip := skip[i := true];
        } else {
          table := table[key.value := vid];
        }
      }
    }
  }

  /** CSE of one block, in place; the remap is for the rest of the kernel. */
  method CseBlock(block: Block, readOnly: set<string>) returns (remap: map<ValueId, ValueId>)
    requires block.Valid() && UniqueResults(block.View())
    modifies block
    ensures block.Valid()
    ensures remap == Remap(old(block.View()), readOnly, |old(block.View())|)
    ensures block.View() == Rewrite(old(block.View()), OpsOf(old(block.View())), remap, remap.Keys)
  {
    ghost var code := block.View();
    var skip;
    remap, skip := FindDuplicates(block, readOnly);
    if remap == map[] {
      RewriteNothing(code);
      assert remap.Keys == {};
      return;
    }

    ReplaceInBlock(block, remap);
    RewriteAll(code, OpsOf(code), remap, {});
    forall i | 0 <= i < |code| ensures skip[i] <==> IsDead(code[i].res, remap.Keys) {
      DroppedIffDuplicate(code, readOnly, i);
    }
    KeptIsRewrite(code, OpsOf(code), skip, remap, remap.Keys);
    KeepUnmarked(block, skip);
  }

  /** The remap applied to every nested block except one. */
  method ReplaceInBlocks(kernel: Kernel, except: Option<BlockId>, remap: map<ValueId, ValueId>)
    requires kernel.Valid()
    modifies kernel.blocks.Values
    ensures kernel.Valid() && kernel.body.View() == old(kernel.body.View())
    ensures forall b :: b in kernel.blocks ==>
              kernel.blocks[b].View() ==
                if Some(b) == except then old(kernel.blocks[b].View())
                else Rewrite(old(kernel.blocks[b].View()), OpsOf(old(kernel.blocks[b].View())), remap, {})
  {
    var todo := kernel.blocks.Keys;
    while todo != {}
      invariant todo <= kernel.blocks.Keys && kernel.Valid()
      invariant kernel.body.View() == old(kernel.body.View())
      invariant forall b :: b in todo ==> kernel.blocks[b].View() == old(kernel.blocks[b].View())
      invariant forall b :: b in kernel.blocks.Keys - todo ==>
              kernel.blocks[b].View() ==
                if Some(b) == except then old(kernel.blocks[b].View())
                else Rewrite(old(kernel.blocks[b].View()), OpsOf(old(kernel.blocks[b].View())), remap, {})
      decreases todo
    {
      var b :| b in todo;
      todo := todo - {b};
      if Some(b) != except { ReplaceInBlock(kernel.blocks[b], remap); }
    }
  }

  /** Substituting in a block that defines none of the remapped ids is its part of the stage. */
  lemma OtherBlock(k: KernelValue, ro: set<string>, w: Where, u: Where)
    requires UniqueDefs(k) && u != w
    ensures var rho := Remap(CodeAt(k, w), ro, |CodeAt(k, w)|);
            Rewrite(CodeAt(k, u), OpsOf(CodeAt(k, u)), rho, {}) == Rewrite(CodeAt(k, u), OpsOf(CodeAt(k, u)), rho, rho.Keys)
  {
    var code, rho := CodeAt(k, u), Remap(CodeAt(k, w), ro, |CodeAt(k, w)|);
    forall i | 0 <= i < |code| ensures !IsDead(code[i].res, rho.Keys) {
      if IsDead(code[i].res, rho.Keys) {
        var j := RemapOrigin(CodeAt(k, w), ro, |CodeAt(k, w)|, code[i].res.value);
        assert DefinedAt(k, w, j, code[i].res.value) && DefinedAt(k, u, i, code[i].res.value);
      }
    }
    RewriteAll(code, OpsOf(code), rho, {});
    RewriteAll(code, OpsOf(code), rho, rho.Keys);
  }

  ghost function Substituted(code: Code, rho: map<ValueId, ValueId>): Code {
    if rho == map[] then code else Rewrite(code, OpsOf(code), rho, {})
  }

  lemma StageFromParts(k: KernelValue, ro: set<string>, w: Where, k': KernelValue)
    requires UniqueDefs(k) && k'.blocks.Keys == k.blocks.Keys
    requires w.Some? ==> w.value in k.blocks
    requires var rho := Remap(CodeAt(k, w), ro, |CodeAt(k, w)|);
             && CodeAt(k', w) == Rewrite(CodeAt(k, w), OpsOf(CodeAt(k, w)), rho, rho.Keys)
             && forall u: Where :: u != w && (u.Some? ==> u.value in k.blocks) ==>
                  CodeAt(k', u) == Substituted(CodeAt(k, u), rho)
    ensures k' == Stage(k, ro, w)
  {
    hide UniqueDefs, Remap, Rewrite;
    var rho := Remap(CodeAt(k, w), ro, |CodeAt(k, w)|);
    var s := Stage(k, ro, w);
    forall u: Where | u.Some? ==> u.value in k.blocks ensures CodeAt(k', u) == CodeAt(s, u) {
      CodeIsRewrite(k, StagePlan(k, ro, w), u);
      if u != w {
        OtherBlock(k, ro, w, u);
        RewriteNothing(CodeAt(k, u));
      }
    }
    assert CodeAt(k', None) == CodeAt(s, None);
    forall b | b in k.blocks ensures k'.blocks[b] == s.blocks[b] {
      assert CodeAt(k', Some(b)) == CodeAt(s, Some(b));
    }
  }

  /** One stage: CSE of one block, its remap propagated. */
  method CseStage(kernel: Kernel, readOnly: set<string>, w: Where)
    requires kernel.Valid() && UniqueDefs(kernel.View())
    requires w.Some? ==> w.value in kernel.blocks
    modifies kernel.body, kernel.blocks.Values
    ensures kernel.Valid()
    ensures kernel.View() == Stage(old(kernel.View()), readOnly, w)
  {
    hide UniqueDefs, Stage;
    ghost var k := kernel.View();
    UniqueInBlock(k, w);
    var block := if w.None? then kernel.body else kernel.blocks[w.value];
    var remap := CseBlock(block, readOnly);
    if remap != map[] {
      if w.Some? { ReplaceInBlock(kernel.body, remap); }
      ReplaceInBlocks(kernel, w, remap);
    }
    StageFromParts(k, readOnly, w, kernel.View());
  }

  /** Ascending ids, each once. */
  ghost predicate Ascending(s: seq<BlockId>) {
    forall i, j :: 0 <= i < j < |s| ==> s[i] < s[j]
  }

  lemma Least(s: set<BlockId>) returns (b: BlockId)
    requires s != {}
    ensures b in s && forall d :: d in s ==> b <= d
  {
    b :| b in s;
    if s != {b} {
      assert s - {b} != {};
      var l := Least(s - {b});
      assert forall d :: d in s ==> d == b || d in s - {b};
      b := if l < b then l else b;
    }
  }

  /** `sort_unstable_by_key` on the block ids. */
  method SortedIds(ids: set<BlockId>) returns (s: seq<BlockId>)
    ensures Ascending(s) && (set b | b in s) == ids
  {
    s := [];
    var todo := ids;
    while todo != {}
      invariant todo <= ids && Ascending(s)
      invariant forall b :: b in s <==> b in ids - todo
      invariant forall b, d :: b in s && d in todo ==> b < d
      decreases todo
    {
      ghost var l := Least(todo);
      var b :| b in todo && forall d :: d in todo ==> b <= d;
      assert forall i :: 0 <= i < |s| ==> s[i] in s;
      s, todo := s + [b], todo - {b};
    }
  }

  ghost function Places(ids: seq<BlockId>): seq<Where> {
    seq(|ids|, i requires 0 <= i < |ids| => Some(ids[i]))
  }

  lemma {:induction false} StagesSnoc(k: KernelValue, ro: set<string>, order: seq<Where>, w: Where)
    ensures Stages(k, ro, order + [w]) == Stage(Stages(k, ro, order), ro, w)
    decreases |order|
  {
    if order == [] {
      assert (order + [w])[1..] == [];
    } else {
      assert (order + [w])[1..] == order[1..] + [w];
      StagesSnoc(Stage(k, ro, order[0]), ro, order[1..], w);
    }
  }

  lemma StagesOne(k: KernelValue, ro: set<string>, w: Where)
    ensures Stages(k, ro, [w]) == Stage(k, ro, w)
  {
    assert [w][1..] == [];
  }

  lemma StagesNext(k: KernelValue, ro: set<string>, ids: seq<BlockId>, i: nat)
    requires i < |ids|
    ensures Stages(k, ro, [None] + Places(ids[..i + 1])) == Stage(Stages(k, ro, [None] + Places(ids[..i])), ro, Some(ids[i]))
  {
    StagesSnoc(k, ro, [None] + Places(ids[..i]), Some(ids[i]));
    assert [None] + Places(ids[..i]) + [Some(ids[i])] == [None] + Places(ids[..i + 1]);
  }

  /** The stages: the entry block, then the nested blocks by ascending id. */
  method RunStages(kernel: Kernel, readOnly: set<string>) returns (ghost ids: seq<BlockId>)
    requires kernel.Valid() && UniqueDefs(kernel.View())
    modifies kernel.body, kernel.blocks.Values
    ensures kernel.Valid()
    ensures Ascending(ids) && (set b | b in ids) == kernel.blocks.Keys
    ensures kernel.View() == Stages(old(kernel.View()), readOnly, [None] + Places(ids))
  {
    hide UniqueDefs, Stage, Stages, NeverStored, MasksConsistent, Kernel.Valid, Kernel.View, Ascending;
    ghost var k := kernel.View();
    CseStage(kernel, readOnly, None);
    StageKeeps(k, readOnly, None);
    var sorted := SortedIds(kernel.blocks.Keys);
    ids := sorted;
    StagesOne(k, readOnly, None);
    assert [None] + Places(sorted[..0]) == [None];
    for i := 0 to |sorted|
      invariant kernel.Valid() && UniqueDefs(kernel.View())
      invariant kernel.View() == Stages(k, readOnly, [None] + Places(sorted[..i]))
    {
      ghost var before := kernel.View();
      StageKeeps(before, readOnly, Some(sorted[i]));
      assert sorted[i] in (set b | b in sorted);
      CseStage(kernel, readOnly, Some(sorted[i]));
      StagesNext(k, readOnly, sorted, i);
    }
    assert sorted[..|sorted|] == sorted;
  }

  /** `CsePass::run` up to its final dead-value sweep. */
  method Run(kernel: Kernel)
    requires kernel.Valid() && UniqueDefs(kernel.View())
    modifies kernel.body, kernel.blocks.Values
    ensures kernel.Valid()
    ensures exists ids :: Ascending(ids) && (set b | b in ids) == kernel.blocks.Keys
              && kernel.View() == Stages(old(kernel.View()), ReadOnlyParams(kernel.params), [None] + Places(ids))
    ensures DistinctNames(kernel.params) && StoresFit(old(kernel.View()), kernel.params) ==>
              KeepsMeaning(old(kernel.View()), kernel.View(), kernel.params)
    ensures NoRepeats(old(kernel.View()), kernel.View(), kernel.params)
  {
    hide KeepsMeaning, NoRepeats, DistinctNames, StoresFit, UniqueDefs, Stages, Ascending, ReadOnlyParams;
    ghost var k := kernel.View();
    assert k.blocks.Keys == kernel.blocks.Keys;
    ghost var ids := RunStages(kernel, ReadOnlyParams(kernel.params));
    StagesMean(k, kernel.params, [None] + Places(ids));
    StagesReach(k, kernel.params, ids);
  }

  /** What holds of a kernel whose loads of one input agree on mask and fill. */
  ghost predicate KeepsMeaning(k: KernelValue, k': KernelValue, params: seq<Param>) {
    forall ro: set<string> :: (forall n :: n in ro <==> IsInput(params, n)) && MasksConsistent(k, ro) ==> SameMeaning(k, k', ro)
  }

  /** Of two instructions of one block that repeat each other the later is gone. */
  ghost predicate NoRepeats(k: KernelValue, k': KernelValue, params: seq<Param>) {
    forall w, i: nat, j: nat, x :: (w == None || w.value in k.blocks) && RepeatedAt(k, params, w, i, j, x) ==> !DefinedSomewhere(k', x)
  }

  /** Every run that does not fail ends alike for an observer. */
  ghost predicate SameMeaning(k: KernelValue, k': KernelValue, ro: set<string>) {
    forall I, mem, fuel :: Commutes(I) && EffectsKeep(I, ro) && !Fails(RunKernel(I, k, State(mem, []), fuel)) ==>
      SameForObserver(RunKernel(I, k, State(mem, []), fuel), RunKernel(I, k', State(mem, []), fuel))
  }

  lemma StagesMean(k: KernelValue, params: seq<Param>, order: seq<Where>)
    requires UniqueDefs(k)
    ensures DistinctNames(params) && StoresFit(k, params) ==> KeepsMeaning(k, Stages(k, ReadOnlyParams(params), order), params)
  {
    hide UniqueDefs, MasksConsistent, Commutes, EffectsKeep, RunKernel, DistinctNames, StoresFit, NeverStored;
    if DistinctNames(params) && StoresFit(k, params) {
      InputsNeverStored(k, params);
      forall ro: set<string> | (forall n :: n in ro <==> IsInput(params, n)) && MasksConsistent(k, ro)
        ensures SameMeaning(k, Stages(k, ReadOnlyParams(params), order), ro)
      {
        forall n ensures n in ro <==> n in ReadOnlyParams(params) { InputsAreReadOnly(params, n); }
        assert ro == ReadOnlyParams(params);
        StagesKeep(k, ro, order);
      }
    }
  }

  lemma StagesKeep(k: KernelValue, ro: set<string>, order: seq<Where>)
    requires UniqueDefs(k) && NeverStored(k, ro) && MasksConsistent(k, ro)
    ensures SameMeaning(k, Stages(k, ro, order), ro)
  {
    hide UniqueDefs, NeverStored, MasksConsistent, Commutes, EffectsKeep, RunKernel;
    forall I, mem, fuel | Commutes(I) && EffectsKeep(I, ro) && !Fails(RunKernel(I, k, State(mem, []), fuel))
      ensures SameForObserver(RunKernel(I, k, State(mem, []), fuel), RunKernel(I, Stages(k, ro, order), State(mem, []), fuel))
    {
      Cse.PassPreserves(I, k, ro, order, mem, fuel);
    }
  }

  lemma StagesReach(k: KernelValue, params: seq<Param>, ids: seq<BlockId>)
    requires UniqueDefs(k) && (set b | b in ids) == k.blocks.Keys
    ensures NoRepeats(k, Stages(k, ReadOnlyParams(params), [None] + Places(ids)), params)
  {
    var order := [None] + Places(ids);
    forall w, i: nat, j: nat, x | (w == None || w.value in k.blocks) && RepeatedAt(k, params, w, i, j, x)
      ensures !DefinedSomewhere(Stages(k, ReadOnlyParams(params), order), x)
    {
      PlaceListed(ids, k.blocks.Keys, w);
      hide UniqueDefs, Stages;
      RepeatedGoes(k, params, order, w, i, j, x);
    }
  }

  lemma PlaceListed(ids: seq<BlockId>, keys: set<BlockId>, w: Where)
    requires (set b | b in ids) == keys && (w == None || w.value in keys)
    ensures w in [None] + Places(ids)
  {
    if w != None {
      assert w.value in (set b | b in ids);
      var n :| 0 <= n < |ids| && ids[n] == w.value;
      assert Places(ids)[n] == w;
    }
  }
}
