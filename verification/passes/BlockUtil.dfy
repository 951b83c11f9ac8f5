/**
 In-place surgery on a block's two arrays: filtering, inserting, rebuilding by a plan.
 */
module BlockUtil {
  import opened Ir
  import opened RewritePlan
  import opened Blocks

  /** The elements whose mark is off, in order. */
  function Kept<T>(s: seq<T>, skip: seq<bool>): seq<T>
    requires |s| == |skip|
  {
    if s == [] then [] else (if skip[0] then [] else [s[0]]) + Kept(s[1..], skip[1..])
  }

  lemma {:induction false} KeptSnoc<T>(s: seq<T>, skip: seq<bool>, n: nat)
    requires n < |s| == |skip|
    ensures Kept(s[..n + 1], skip[..n + 1]) == Kept(s[..n], skip[..n]) + (if skip[n] then [] else [s[n]])
  {
    if n == 0 {
      assert s[..1][1..] == [] && s[..0] == [];
      assert skip[..1][1..] == [];
    } else {
      KeptSnoc(s[1..], skip[1..], n - 1);
      assert s[..n + 1][1..] == s[1..][..n] && s[..n][1..] == s[1..][..n - 1];
      assert skip[..n + 1][1..] == skip[1..][..n] && skip[..n][1..] == skip[1..][..n - 1];
    }
  }

  lemma ZipSnoc(ops: seq<Op>, results: seq<Option<ValueId>>, op: Op, res: Option<ValueId>)
    requires |ops| == |results|
    ensures Zip(ops + [op], results + [res]) == Zip(ops, results) + [Instr(op, res)]
  {
  }

  /** Filtering the two arrays is filtering the block: they stay aligned. */
  lemma {:induction false} KeptZip(ops: seq<Op>, results: seq<Option<ValueId>>, skip: seq<bool>)
    requires |ops| == |results| == |skip|
    ensures |Kept(ops, skip)| == |Kept(results, skip)|
    ensures Zip(Kept(ops, skip), Kept(results, skip)) == Kept(Zip(ops, results), skip)
  {
    if ops != [] {
      KeptZip(ops[1..], results[1..], skip[1..]);
      assert Zip(ops, results)[1..] == Zip(ops[1..], results[1..]);
    }
  }

  /** Keeping what is not dead, after substitution, is the rewrite of the block. */
  lemma {:induction false} KeptIsRewrite(code: Code, ops: seq<Op>, skip: seq<bool>, rho: map<ValueId, ValueId>, dead: set<ValueId>)
    requires |ops| == |code| == |skip|
    requires forall i :: 0 <= i < |code| ==> (skip[i] <==> IsDead(code[i].res, dead))
    ensures Kept(seq(|code|, i requires 0 <= i < |code| => Instr(Subst(ops[i], rho), code[i].res)), skip)
            == Rewrite(code, ops, rho, dead)
  {
    if code != [] {
      KeptIsRewrite(code[1..], ops[1..], skip[1..], rho, dead);
      var all := seq(|code|, i requires 0 <= i < |code| => Instr(Subst(ops[i], rho), code[i].res));
      assert all[1..] == seq(|code| - 1, i requires 0 <= i < |code| - 1 => Instr(Subst(ops[1..][i], rho), code[1..][i].res));
    }
  }

  /** The shared rebuild loop: both arrays rebuilt without the marked positions. */
  method KeepUnmarked(block: Block, skip: seq<bool>)
    requires block.Valid() && |skip| == |block.ops|
    modifies block
    ensures block.Valid() && block.View() == Kept(old(block.View()), skip)
  {
    var oldOps, oldResults := block.ops, block.results;
    var newOps, newResults := [], [];
    for i := 0 to |oldOps|
      invariant newOps == Kept(oldOps[..i], skip[..i]) && newResults == Kept(oldResults[..i], skip[..i])
    {
      KeptSnoc(oldOps, skip, i);
      KeptSnoc(oldResults, skip, i);
      if !skip[i] {
        newOps, newResults := newOps + [oldOps[i]], newResults + [oldResults[i]];
      }
    }
    assert oldOps[..|oldOps|] == oldOps && oldResults[..|oldOps|] == oldResults && skip[..|oldOps|] == skip;
    block.ops, block.results := newOps, newResults;
    KeptZip(oldOps, oldResults, skip);
  }

  /** `replace_values` on every op of a block, in place. */
  method ReplaceInBlock(block: Block, remap: map<ValueId, ValueId>)
    requires block.Valid()
    modifies block
    ensures block.Valid()
    ensures block.View() == Rewrite(old(block.View()), OpsOf(old(block.View())), remap, {})
  {
    ghost var code := block.View();
    var n := |block.ops|;
    for i := 0 to n
      invariant block.Valid() && |block.ops| == n && block.results == old(block.results)
      invariant forall j :: 0 <= j < i ==> block.ops[j] == Subst(old(block.ops)[j], remap)
      invariant forall j :: i <= j < n ==> block.ops[j] == old(block.ops)[j]
    {
      block.ops := block.ops[i := Subst(block.ops[i], remap)];
    }
    RewriteAll(code, OpsOf(code), remap, {});
  }

  /** The end of a local round: redirects applied to every op, redirected results dropped. */
  method RedirectAndDrop(block: Block, rho: map<ValueId, ValueId>)
    requires block.Valid()
    modifies block
    ensures block.Valid()
    ensures block.View() == Rewrite(old(block.View()), OpsOf(old(block.View())), rho, rho.Keys)
  {
    ghost var code := block.View();
    ReplaceInBlock(block, rho);
    RewriteAll(code, OpsOf(code), rho, {});
    assert block.View() == seq(|code|, i requires 0 <= i < |code| => Instr(Subst(OpsOf(code)[i], rho), code[i].res));
    var results := block.results;
    forall i | 0 <= i < |code| ensures code[i].res == results[i] {
      assert block.View()[i].res == results[i];
    }
    var skip := seq(|results|, i requires 0 <= i < |results| => IsDead(results[i], rho.Keys));
    KeptIsRewrite(code, OpsOf(code), skip, rho, rho.Keys);
    KeepUnmarked(block, skip);
  }

  // ----- remove_ops, insert_ops, rebuild_block -----

  function Marks(n: nat, indices: seq<nat>): seq<bool> {
    seq(n, i => i in indices)
  }

  method RemoveOps(block: Block, indices: seq<nat>)
    requires block.Valid()
    modifies block
    ensures block.Valid()
    ensures block.View() == Kept(old(block.View()), Marks(|old(block.View())|, indices))
  {
    KeptNothingMarked(block.View());
    if indices == [] {
      assert Marks(|block.View()|, indices) == seq(|block.View()|, _ => false);
      return;
    }
    var skip := set i | i in indices;
    var marks := seq(|block.ops|, i => i in skip);
    assert marks == Marks(|block.View()|, indices);
    KeepUnmarked(block, marks);
  }

  lemma {:induction false} KeptNothingMarked<T>(s: seq<T>)
    ensures Kept(s, seq(|s|, _ => false)) == s
  {
    if s != [] {
      KeptNothingMarked(s[1..]);
      assert seq(|s|, _ => false)[1..] == seq(|s| - 1, _ => false);
    }
  }

  /** Positions that stay, in order: what each surviving slot holds. */
  function Stays(skip: seq<bool>, i: nat): nat {
    if skip == [] then 0
    else if skip[0] then 1 + Stays(skip[1..], i)
    else if i == 0 then 0 else 1 + Stays(skip[1..], i - 1)
  }

  /** Exactly the marked positions go: slot i of the result is the i-th unmarked one, and
      the length drops by the number of marks. */
  lemma {:induction false} KeptExactly<T>(s: seq<T>, skip: seq<bool>)
    requires |s| == |skip|
    ensures |Kept(s, skip)| + Count(skip) == |s|
    ensures forall i :: 0 <= i < |Kept(s, skip)| ==>
              Stays(skip, i) < |s| && !skip[Stays(skip, i)] && Kept(s, skip)[i] == s[Stays(skip, i)]
  {
    if s != [] {
      KeptExactly(s[1..], skip[1..]);
      forall i | 0 <= i < |Kept(s, skip)|
        ensures Stays(skip, i) < |s| && !skip[Stays(skip, i)] && Kept(s, skip)[i] == s[Stays(skip, i)]
      {
        if skip[0] {
          assert Kept(s, skip)[i] == Kept(s[1..], skip[1..])[i];
        } else if i > 0 {
          assert Kept(s, skip)[i] == Kept(s[1..], skip[1..])[i - 1];
        }
      }
    }
  }

  function Count(skip: seq<bool>): nat {
    if skip == [] then 0 else (if skip[0] then 1 else 0) + Count(skip[1..])
  }

  function Inserted(code: Code, at: nat, added: Code): Code {
    var p := if at <= |code| then at else |code|;
    code[..p] + added + code[p..]
  }

  method InsertOps(block: Block, at: nat, added: Code)
    requires block.Valid()
    modifies block
    ensures block.Valid() && block.View() == Inserted(old(block.View()), at, added)
  {
    if added == [] {
      assert block.View() == Inserted(block.View(), at, []);
      return;
    }
    var oldOps, oldResults := block.ops, block.results;
    var p := if at <= |oldOps| then at else |oldOps|;
    var ops, results := [], [];
    for i := 0 to p
      invariant ops == oldOps[..i] && results == oldResults[..i]
    {
      ops, results := ops + [oldOps[i]], results + [oldResults[i]];
    }
    for i := 0 to |added|
      invariant |ops| == |results| == p + i
      invariant Zip(ops, results) == Zip(oldOps, oldResults)[..p] + added[..i]
    {
      ZipSnoc(ops, results, added[i].op, added[i].res);
      ops, results := ops + [added[i].op], results + [added[i].res];
      assert added[..i + 1] == added[..i] + [added[i]];
    }
    assert added[..|added|] == added;
    for i := p to |oldOps|
      invariant |ops| == |results| == |added| + i
      invariant Zip(ops, results) == Zip(oldOps, oldResults)[..p] + added + Zip(oldOps, oldResults)[p..i]
    {
      ZipSnoc(ops, results, oldOps[i], oldResults[i]);
      assert Zip(oldOps, oldResults)[p..i + 1] == Zip(oldOps, oldResults)[p..i] + [Zip(oldOps, oldResults)[i]];
      ops, results := ops + [oldOps[i]], results + [oldResults[i]];
    }
    block.ops, block.results := ops, results;
    assert Zip(oldOps, oldResults)[p..|oldOps|] == Zip(oldOps, oldResults)[p..];
  }

  datatype BlockAction = Keep | Insert(added: Code) | Remove

  function Before(plan: map<nat, BlockAction>, i: nat): Code {
    if i in plan && plan[i].Insert? then plan[i].added else []
  }

  /** The block from position i on, after the plan. */
  function Rebuilt(code: Code, plan: map<nat, BlockAction>, i: nat): Code
    requires i <= |code|
    decreases |code| - i
  {
    if i == |code| then Before(plan, i)
    else Before(plan, i) + (if i in plan && plan[i].Remove? then [] else [code[i]]) + Rebuilt(code, plan, i + 1)
  }

  method RebuildBlock(block: Block, plan: map<nat, BlockAction>)
    requires block.Valid()
    modifies block
    ensures block.Valid() && block.View() == Rebuilt(old(block.View()), plan, 0)
  {
    hide Rebuilt, Zip;
    ghost var code := block.View();
    ViewAt(block);
    if plan == map[] {
      RebuiltNothing(code, 0);
      return;
    }
    var oldOps, oldResults := block.ops, block.results;
    var n := |oldOps|;
    var ops, results := [], [];
    assert Zip([], []) == [] by { ZipNothing(); }
    for i := 0 to n
      invariant |ops| == |results|
      invariant Zip(ops, results) + Rebuilt(code, plan, i) == Rebuilt(code, plan, 0)
    {
      RebuiltStep(code, plan, i, Zip(ops, results));
      if i in plan && plan[i].Remove? {
      } else {
        if i in plan && plan[i].Insert? {
          ops, results := Append(ops, results, plan[i].added);
        }
        ZipSnoc(ops, results, oldOps[i], oldResults[i]);
        ops, results := ops + [oldOps[i]], results + [oldResults[i]];
      }
    }
    RebuiltEnd(code, plan);
    if n in plan && plan[n].Insert? {
      ops, results := Append(ops, results, plan[n].added);
    }
    block.ops, block.results := ops, results;
  }

  lemma ZipNothing()
    ensures Zip([], []) == []
  {
  }

  lemma ViewAt(block: Block)
    requires block.Valid()
    ensures |block.View()| == |block.ops|
    ensures forall i :: 0 <= i < |block.ops| ==> block.View()[i] == Instr(block.ops[i], block.results[i])
  {
  }

  lemma RebuiltEnd(code: Code, plan: map<nat, BlockAction>)
    ensures Rebuilt(code, plan, |code|) == Before(plan, |code|)
  {
  }

  /** What has been emitted before position i, and what step i adds. */
  lemma RebuiltStep(code: Code, plan: map<nat, BlockAction>, i: nat, done: Code)
    requires i < |code|
    ensures done + Rebuilt(code, plan, i)
            == (done + Before(plan, i) + (if i in plan && plan[i].Remove? then [] else [code[i]])) + Rebuilt(code, plan, i + 1)
  {
  }

  method Append(ops: seq<Op>, results: seq<Option<ValueId>>, added: Code)
    returns (ops': seq<Op>, results': seq<Option<ValueId>>)
    requires |ops| == |results|
    ensures |ops'| == |results'| && Zip(ops', results') == Zip(ops, results) + added
  {
    ops', results' := ops, results;
    for i := 0 to |added|
      invariant |ops'| == |results'| == |ops| + i
      invariant Zip(ops', results') == Zip(ops, results) + added[..i]
    {
      ZipSnoc(ops', results', added[i].op, added[i].res);
      assert added[..i + 1] == added[..i] + [added[i]];
      ops', results' := ops' + [added[i].op], results' + [added[i].res];
    }
    assert added[..|added|] == added;
  }

  lemma {:induction false} RebuiltNothing(code: Code, i: nat)
    requires i <= |code|
    ensures Rebuilt(code, map[], i) == code[i..]
    decreases |code| - i
  {
    if i < |code| { RebuiltNothing(code, i + 1); }
  }

  /** `rebuild_block` generalises `remove_ops` ... */
  lemma {:induction false} RebuildRemoves(code: Code, plan: map<nat, BlockAction>, indices: seq<nat>, i: nat)
    requires i <= |code| && forall j :: (j in plan <==> j in indices) && (j in plan ==> plan[j].Remove?)
    ensures Rebuilt(code, plan, i) == Kept(code[i..], Marks(|code|, indices)[i..])
    decreases |code| - i
  {
    if i < |code| {
      RebuildRemoves(code, plan, indices, i + 1);
      assert code[i..][1..] == code[i + 1..];
      assert Marks(|code|, indices)[i..][1..] == Marks(|code|, indices)[i + 1..];
    }
  }

  /** ... and `insert_ops`. */
  lemma {:induction false} RebuildInserts(code: Code, plan: map<nat, BlockAction>, at: nat, added: Code, i: nat)
    requires i <= |code| && at <= |code| && plan == map[at := Insert(added)]
    ensures Rebuilt(code, plan, i) == if i <= at then code[i..at] + added + code[at..] else code[i..]
    decreases |code| - i
  {
    if i < |code| {
      RebuildInserts(code, plan, at, added, i + 1);
      assert Before(plan, i) == if i == at then added else [];
      var rest := Rebuilt(code, plan, i + 1);
      assert Rebuilt(code, plan, i) == Before(plan, i) + [code[i]] + rest;
      hide Rebuilt;
      InsertStep(code, at, added, i, rest);
    } else {
      assert code[i..] == [] && code[i..i] == [];
    }
  }

  lemma InsertStep(code: Code, at: nat, added: Code, i: nat, rest: Code)
    requires i < |code| && at <= |code|
    requires rest == if i + 1 <= at then code[i + 1..at] + added + code[at..] else code[i + 1..]
    ensures (if i == at then added else []) + [code[i]] + rest == if i <= at then code[i..at] + added + code[at..] else code[i..]
  {
    assert code[i..] == [code[i]] + code[i + 1..];
    if i < at {
      assert code[i..at] == [code[i]] + code[i + 1..at];
      assert [code[i]] + (code[i + 1..at] + added + code[at..]) == code[i..at] + added + code[at..];
    } else if i == at {
      assert code[i..at] == [];
    }
  }

  /** Removing what was inserted gives the block back. */
  lemma RemoveUndoesInsert(code: Code, at: nat, added: Code)
    requires at <= |code|
    ensures var grown := Inserted(code, at, added);
            Kept(grown, Marks(|grown|, seq(|added|, i requires 0 <= i => at + i))) == code
  {
    var grown := Inserted(code, at, added);
    var gone := seq(|added|, i requires 0 <= i => at + i);
    var head, mid, tail := seq(at, _ => false), seq(|added|, _ => true), seq(|code| - at, _ => false);
    InsertedMarks(code, at, added);
    hide Marks;
    KeptAppend(code[..at], added + code[at..], head, mid + tail);
    KeptAppend(added, code[at..], mid, tail);
    KeptNothingMarked(code[..at]);
    KeptNothingMarked(code[at..]);
    KeptAllMarked(added);
    hide Kept;
    assert grown == code[..at] + (added + code[at..]);
    assert Kept(grown, head + (mid + tail)) == code[..at] + ([] + code[at..]);
  }

  lemma InsertedMarks(code: Code, at: nat, added: Code)
    requires at <= |code|
    ensures var gone := seq(|added|, i requires 0 <= i => at + i);
            Marks(|code| + |added|, gone)
            == seq(at, _ => false) + (seq(|added|, _ => true) + seq(|code| - at, _ => false))
  {
    var gone := seq(|added|, i requires 0 <= i => at + i);
    forall i | 0 <= i < |code| + |added| ensures i in gone <==> at <= i < at + |added| {
      if at <= i < at + |added| { assert gone[i - at] == i; }
    }
  }

  lemma {:induction false} KeptAppend<T>(s: seq<T>, t: seq<T>, skip: seq<bool>, skip': seq<bool>)
    requires |s| == |skip| && |t| == |skip'|
    ensures Kept(s + t, skip + skip') == Kept(s, skip) + Kept(t, skip')
  {
    if s == [] {
      assert s + t == t && skip + skip' == skip';
    } else {
      assert (s + t)[1..] == s[1..] + t && (skip + skip')[1..] == skip[1..] + skip';
      KeptAppend(s[1..], t, skip[1..], skip');
    }
  }

  lemma {:induction false} KeptAllMarked<T>(s: seq<T>)
    ensures Kept(s, seq(|s|, _ => true)) == []
  {
    if s != [] {
      KeptAllMarked(s[1..]);
      assert seq(|s|, _ => true)[1..] == seq(|s| - 1, _ => true);
    }
  }
}
