/**
 The loops of dead-store elimination, in place on a kernel.
 */
module DeadStorePass {
  import opened Ir
  import opened Semantics
  import opened Blocks
  import opened BlockUtil
  import opened DeadStoreElim
  import opened DeadStoreSound

  /** What the backward scan knows before position n: each recorded key has a later store
      that survives, and every candidate after n is recorded. */
  ghost predicate Tracked(code: Code, outputs: set<string>, n: nat, last: map<StoreKey, (nat, bool)>) {
    && (forall key :: key in last ==>
          n <= last[key].0 < |code| && Candidate(code[last[key].0].op, outputs, key) && last[key].1
          && !IsDeadStore(code, outputs, last[key].0))
    && (forall key :: StoredFrom(code, outputs, n, key) ==> key in last)
  }

  method CollectReads(code: Code) returns (loaded: set<StoreKey>)
    ensures forall key :: key in loaded <==> IsRead(code, key)
  {
    loaded := {};
    for i := 0 to |code|
      invariant forall key :: key in loaded <==> exists j :: 0 <= j < i && KeyOfLoad(code[j].op) == Some(key)
    {
      var key := KeyOfLoad(code[i].op);
      if key.Some? { loaded := loaded + {key.value}; }
    }
  }

  /** The backward scan; the positions come out in ascending order. */
  method FindDead(code: Code, outputs: set<string>) returns (dead: seq<nat>)
    ensures forall i :: i in dead <==> 0 <= i < |code| && IsDeadStore(code, outputs, i)
    ensures forall i, j :: 0 <= i < j < |dead| ==> dead[i] < dead[j]
  {
    var loaded := CollectReads(code);
    var last: map<StoreKey, (nat, bool)> := map[];
    dead := [];
    var n: nat := |code|;
    hide Candidate, IsRead, Tracked, IsDeadStore;
    assert Tracked(code, outputs, n, last) by { TrackedNothing(code, outputs); }
    while n > 0
      invariant n <= |code| && Tracked(code, outputs, n, last)
      invariant forall i :: i in dead <==> n <= i < |code| && IsDeadStore(code, outputs, i)
      invariant forall j :: 0 <= j < |dead| ==> n <= dead[j]
      invariant forall i, j :: 0 <= i < j < |dead| ==> dead[i] < dead[j]
    {
      n := n - 1;
      var key := KeyOfStore(code[n].op);
      TrackedStep(code, outputs, n, last);
      if key.Some? && !HasMask(code[n].op) && key.value.dst !in outputs {
        if key.value in loaded {
          last := last[key.value := (n, true)];
        } else if key.value in last {
          assert forall j :: 0 <= j < |dead| ==> dead[j] in dead;
          dead := [n] + dead;
          var later := last[key.value];
          last := last[key.value := if later.1 then later else (n, false)];
        } else {
          last := last[key.value := (n, true)];
        }
      }
    }
  }

  lemma TrackedNothing(code: Code, outputs: set<string>)
    ensures Tracked(code, outputs, |code|, map[])
  {
  }

  /** What one position of the scan establishes, in each of its branches. */
  lemma TrackedStep(code: Code, outputs: set<string>, n: nat, last: map<StoreKey, (nat, bool)>)
    requires n < |code| && Tracked(code, outputs, n + 1, last)
    ensures var op, key := code[n].op, KeyOfStore(code[n].op);
            if key.Some? && !HasMask(op) && key.value.dst !in outputs then
              var dead := !IsRead(code, key.value) && key.value in last;
              && (IsDeadStore(code, outputs, n) <==> dead)
              && (key.value in last ==> last[key.value].1 && last[key.value := last[key.value]] == last)
              && (dead ==> Tracked(code, outputs, n, last))
              && (!dead ==> Tracked(code, outputs, n, last[key.value := (n, true)]))
            else !IsDeadStore(code, outputs, n) && Tracked(code, outputs, n, last)
  {
    ScanStep(code, outputs, n);
    hide Candidate, IsRead;
    var key := KeyOfStore(code[n].op);
    if key.Some? && key.value in last { Recorded(code, outputs, n + 1, last, key.value); }
  }

  lemma Recorded(code: Code, outputs: set<string>, n: nat, last: map<StoreKey, (nat, bool)>, key: StoreKey)
    requires Tracked(code, outputs, n, last) && key in last
    ensures StoredFrom(code, outputs, n, key)
  {
  }

  /** What one position adds. */
  lemma ScanStep(code: Code, outputs: set<string>, n: nat)
    requires n < |code|
    ensures forall key :: Candidate(code[n].op, outputs, key) <==>
              KeyOfStore(code[n].op) == Some(key) && !HasMask(code[n].op) && key.dst !in outputs
    ensures forall key :: StoredFrom(code, outputs, n, key) <==>
              Candidate(code[n].op, outputs, key) || StoredFrom(code, outputs, n + 1, key)
  {
    forall key ensures StoredFrom(code, outputs, n, key) <==>
      Candidate(code[n].op, outputs, key) || StoredFrom(code, outputs, n + 1, key) {}
  }

  /** `dse_block`. */
  method DseBlock(block: Block, outputs: set<string>)
    requires block.Valid()
    modifies block
    ensures block.Valid() && block.View() == SweptCode(old(block.View()), outputs)
  {
    ghost var code := block.View();
    var dead := FindDead(Zip(block.ops, block.results), outputs);
    if dead == [] {
      NothingSwept(code, outputs, |code|);
      assert code[..|code|] == code;
      return;
    }
    RemoveOps(block, dead);
    SweptByMarks(code, outputs, dead, |code|);
    assert code[..|code|] == code && Marks(|code|, dead)[..|code|] == Marks(|code|, dead);
  }

  /** Exactly the marked positions go. */
  lemma {:induction false} SweptByMarks(code: Code, outputs: set<string>, dead: seq<nat>, n: nat)
    requires n <= |code| && forall i :: i in dead <==> 0 <= i < |code| && IsDeadStore(code, outputs, i)
    ensures Swept(code, outputs, n) == Kept(code[..n], Marks(|code|, dead)[..n])
  {
    hide IsDeadStore;
    if n > 0 {
      SweptByMarks(code, outputs, dead, n - 1);
      KeptSnoc(code, Marks(|code|, dead), n - 1);
    }
  }

  /** What the pass promises of a kernel: nothing changes where all stores target outputs,
      and the kernel computes what it did where nothing comes between a dead store and the
      store that overwrites it. */
  ghost predicate Preserved(k: KernelValue, k': KernelValue, outs: set<string>) {
    && (StoresToOutputs(k, outs) ==> k' == k)
    && (UndisturbedKernel(k, outs) ==>
          forall I, st, fuel :: Local(I) && Overwrites(I) && RunKernel(I, k, st, fuel).Done?
                                && BlockApart(I, k, outs, k.body, map[], st, fuel) ==>
            SameEnd(RunKernel(I, k, st, fuel), RunKernel(I, k', st, fuel)))
  }

  /** The nested blocks, in any order. */
  method SweepBlocks(kernel: Kernel, outs: set<string>)
    requires kernel.Valid()
    modifies kernel.blocks.Values
    ensures kernel.Valid() && kernel.body.View() == old(kernel.body.View())
    ensures forall b :: b in kernel.blocks ==> kernel.blocks[b].View() == SweptCode(old(kernel.blocks[b].View()), outs)
  {
    hide SweptCode, Zip;
    var todo := kernel.blocks.Keys;
    while todo != {}
      invariant todo <= kernel.blocks.Keys && kernel.Valid() && kernel.body.View() == old(kernel.body.View())
      invariant forall b :: b in todo ==> kernel.blocks[b].View() == old(kernel.blocks[b].View())
      invariant forall b :: b in kernel.blocks.Keys - todo ==>
                  kernel.blocks[b].View() == SweptCode(old(kernel.blocks[b].View()), outs)
      decreases todo
    {
      var b :| b in todo;
      todo := todo - {b};
      DseBlock(kernel.blocks[b], outs);
    }
  }

  /** The pass: the entry block, then every nested block. */
  method Run(kernel: Kernel)
    requires kernel.Valid()
    modifies kernel.body, kernel.blocks.Values
    ensures kernel.Valid() && kernel.View() == SweptKernel(old(kernel.View()), OutputParams(kernel.params))
    ensures Preserved(old(kernel.View()), kernel.View(), OutputParams(kernel.params))
  {
    var outs := OutputParams(kernel.params);
    hide SweptCode, Zip, Preserved;
    DseBlock(kernel.body, outs);
    SweepBlocks(kernel, outs);
    assert kernel.View() == SweptKernel(old(kernel.View()), outs);
    SweptPreserves(old(kernel.View()), outs);
  }

  lemma SweptPreserves(k: KernelValue, outs: set<string>)
    ensures Preserved(k, SweptKernel(k, outs), outs)
  {
    hide Local, Overwrites, RunKernel, BlockApart, SameEnd, UndisturbedKernel, SweptKernel, StoresToOutputs;
    if StoresToOutputs(k, outs) { OutputsOnly(k, outs); }
    if UndisturbedKernel(k, outs) {
      forall I, st, fuel | Local(I) && Overwrites(I) && RunKernel(I, k, st, fuel).Done? && BlockApart(I, k, outs, k.body, map[], st, fuel)
        ensures SameEnd(RunKernel(I, k, st, fuel), RunKernel(I, SweptKernel(k, outs), st, fuel))
      {
        PassPreserves(I, k, outs, st, fuel);
      }
    }
  }
}
