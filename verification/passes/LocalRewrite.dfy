/**
 What `algebraic_simplify` and `copy_prop` share: redirect chains resolved to their
 ends, and a rewrite of one block that leaves the other blocks as they are.
 */
module LocalRewrite {
  import opened Ir
  import opened Semantics
  import opened RewritePlan
  import opened Blocks

  // ----- resolve_transitive -----

  /** Follow the map until it ends or comes back to a visited id. */
  function Chase(m: map<ValueId, ValueId>, v: ValueId, visited: set<ValueId>): ValueId
    decreases m.Keys - visited
  {
    if v in m && v !in visited then Chase(m, m[v], visited + {v}) else v
  }

  function Resolved(m: map<ValueId, ValueId>): map<ValueId, ValueId> {
    map v | v in m :: Chase(m, m[v], {v})
  }

  method ResolveTransitive(m: map<ValueId, ValueId>) returns (resolved: map<ValueId, ValueId>)
    ensures resolved == Resolved(m)
  {
    resolved := map[];
    var todo := m.Keys;
    while todo != {}
      invariant todo <= m.Keys && resolved.Keys == m.Keys - todo
      invariant forall v :: v in resolved ==> resolved[v] == Chase(m, m[v], {v})
      decreases todo
    {
      var key :| key in todo;
      todo := todo - {key};
      var terminal, visited := m[key], {key};
      while terminal in m && terminal !in visited
        invariant Chase(m, m[key], {key}) == Chase(m, terminal, visited)
        decreases m.Keys - visited
      {
        visited := visited + {terminal};
        terminal := m[terminal];
      }
      resolved := resolved[key := terminal];
    }
  }

  /** The chain from v leaves the map after exactly n steps, at `End(m, v, n)`. */
  predicate EndsAfter(m: map<ValueId, ValueId>, v: ValueId, n: nat)
    decreases n
  {
    if n == 0 then v !in m else v in m && EndsAfter(m, m[v], n - 1)
  }

  function End(m: map<ValueId, ValueId>, v: ValueId, n: nat): ValueId
    requires EndsAfter(m, v, n)
    decreases n
  {
    if n == 0 then v else End(m, m[v], n - 1)
  }

  lemma {:induction false} ChainLengthUnique(m: map<ValueId, ValueId>, v: ValueId, n: nat, n': nat)
    requires EndsAfter(m, v, n) && EndsAfter(m, v, n')
    ensures n == n'
    decreases n
  {
    if n != 0 && n' != 0 { ChainLengthUnique(m, m[v], n - 1, n' - 1); }
  }

  lemma {:induction false} ChaseReachesEnd(m: map<ValueId, ValueId>, v: ValueId, visited: set<ValueId>, n: nat)
    requires EndsAfter(m, v, n)
    requires forall u, k: nat :: u in visited && k <= n ==> !EndsAfter(m, u, k)
    ensures Chase(m, v, visited) == End(m, v, n) && Chase(m, v, visited) !in m
    decreases n
  {
    if n != 0 {
      assert v !in visited;
      forall u, k: nat | u in visited + {v} && k <= n - 1 ensures !EndsAfter(m, u, k) {
        if u == v && EndsAfter(m, v, k) { ChainLengthUnique(m, v, n, k); }
      }
      ChaseReachesEnd(m, m[v], visited + {v}, n - 1);
    }
  }

  lemma {:induction false} ChaseOutsideEnds(m: map<ValueId, ValueId>, v: ValueId, visited: set<ValueId>) returns (n: nat)
    requires Chase(m, v, visited) !in m
    ensures EndsAfter(m, v, n)
    decreases m.Keys - visited
  {
    if v in m {
      n := ChaseOutsideEnds(m, m[v], visited + {v});
      n := n + 1;
    } else {
      n := 0;
    }
  }

  ghost predicate ChainEnds(m: map<ValueId, ValueId>, v: ValueId) {
    exists n: nat :: EndsAfter(m, v, n)
  }

  /** Resolution reaches outside the map exactly for the keys whose chain ends, and
      then at that end, which is the only one. On a cycle it stops inside the map. */
  lemma ResolvedIffChainEnds(m: map<ValueId, ValueId>, v: ValueId)
    requires v in m
    ensures Resolved(m)[v] !in m <==> ChainEnds(m, v)
    ensures forall n: nat :: EndsAfter(m, v, n) ==> Resolved(m)[v] == End(m, v, n) && Resolved(m)[v] !in m
  {
    if Resolved(m)[v] !in m {
      var n := ChaseOutsideEnds(m, m[v], {v});
      var n': nat := n + 1;
      assert EndsAfter(m, v, n');
      assert ChainEnds(m, v);
    }
    forall n: nat | EndsAfter(m, v, n) ensures Resolved(m)[v] == End(m, v, n) && Resolved(m)[v] !in m {
      EndIsResolved(m, v, n);
    }
  }

  lemma EndIsResolved(m: map<ValueId, ValueId>, v: ValueId, n: nat)
    requires v in m && EndsAfter(m, v, n)
    ensures Resolved(m)[v] == End(m, v, n) && Resolved(m)[v] !in m
  {
    assert n > 0;
    forall u, k: nat | u in {v} && k <= n - 1 ensures !EndsAfter(m, u, k) {
      if EndsAfter(m, v, k) { ChainLengthUnique(m, v, n, k); }
    }
    ChaseReachesEnd(m, m[v], {v}, n - 1);
  }

  // ----- positions in a block -----

  /** One past the position that defines v in the block; 0 when none does. */
  function Rank(code: Code, v: ValueId): (r: nat)
    ensures r <= |code|
    ensures r > 0 ==> code[r - 1].res == Some(v)
    ensures r == 0 ==> forall i :: 0 <= i < |code| ==> code[i].res != Some(v)
  {
    if code == [] then 0
    else if code[|code| - 1].res == Some(v) then |code|
    else Rank(code[..|code| - 1], v)
  }

  /** Operands come from earlier in the block or from outside it. */
  ghost predicate Ordered(code: Code) {
    forall i, u :: 0 <= i < |code| && u in Uses(code[i].op) ==> Rank(code, u) <= i
  }

  /** A block in SSA form. */
  ghost predicate Ssa(code: Code) { UniqueResults(code) && Ordered(code) }

  lemma RankOf(code: Code, i: nat)
    requires UniqueResults(code) && i < |code| && code[i].res.Some?
    ensures Rank(code, code[i].res.value) == i + 1
  {
  }

  /** Every redirect goes from a result of the block to a lower rank. */
  ghost predicate Descends(code: Code, m: map<ValueId, ValueId>) {
    forall v :: v in m ==> Rank(code, m[v]) < Rank(code, v)
  }

  lemma {:induction false} DescendingChainEnds(code: Code, m: map<ValueId, ValueId>, v: ValueId) returns (n: nat)
    requires Descends(code, m)
    ensures EndsAfter(m, v, n)
    ensures Rank(code, End(m, v, n)) <= Rank(code, v)
    ensures n > 0 ==> Rank(code, End(m, v, n)) < Rank(code, v)
    decreases Rank(code, v)
  {
    if v in m {
      n := DescendingChainEnds(code, m, m[v]);
      n := n + 1;
    } else {
      n := 0;
    }
  }

  /** Without cycles every key is resolved outside the map, below itself. */
  lemma ResolvedDescends(code: Code, m: map<ValueId, ValueId>, v: ValueId)
    requires Descends(code, m) && v in m
    ensures Resolved(m)[v] !in m && Rank(code, Resolved(m)[v]) < Rank(code, v)
  {
    var n := DescendingChainEnds(code, m, v);
    ResolvedIffChainEnds(m, v);
  }

  // ----- literals -----

  /** The literal of the first `Const` that defines the id. */
  function FindConst(code: Code, v: ValueId): Option<int> {
    if code == [] then None
    else if code[0].res == Some(v) && code[0].op.ConstOp? then Some(code[0].op.literal)
    else FindConst(code[1..], v)
  }

  lemma {:induction false} ConstAt(code: Code, v: ValueId)
    requires FindConst(code, v).Some?
    ensures exists i :: 0 <= i < |code| && code[i] == Instr(ConstOp(FindConst(code, v).value), Some(v))
  {
    if code[0].res == Some(v) && code[0].op.ConstOp? {
      assert code[0] == Instr(ConstOp(FindConst(code, v).value), Some(v));
    } else {
      ConstAt(code[1..], v);
      var i :| 0 <= i < |code[1..]| && code[1..][i] == Instr(ConstOp(FindConst(code, v).value), Some(v));
      assert code[i + 1] == Instr(ConstOp(FindConst(code, v).value), Some(v));
    }
  }

  /** An id in scope that a `Const` of the block defines has the literal's value. */
  lemma ConstHolds(c: Setting, w: Where, v: ValueId, env: Env)
    requires Facts(c, env) && v in env && FindConst(CodeAt(c.k, w), v).Some?
    ensures env[v] == FindConst(CodeAt(c.k, w), v).value
  {
    var code := CodeAt(c.k, w);
    ConstAt(code, v);
    var i :| 0 <= i < |code| && code[i] == Instr(ConstOp(FindConst(code, v).value), Some(v));
    assert DefinedAt(c.k, w, i, v);
    assert Equation(c, code[i].op, v, env);
  }

  // ----- soundness of a local round -----

  lemma {:induction false} ChaseRedirects(c: Setting, m: map<ValueId, ValueId>, key: ValueId, v: ValueId, visited: set<ValueId>)
    requires forall u :: u in m ==> Redirects(c, u, m[u])
    requires Redirects(c, key, v)
    ensures Redirects(c, key, Chase(m, v, visited))
    decreases m.Keys - visited
  {
    if v in m && v !in visited {
      assert Redirects(c, v, m[v]);
      assert Redirects(c, key, m[v]);
      ChaseRedirects(c, m, key, m[v], visited + {v});
    }
  }

  /** The plan of a pass that rewrites one block only. */
  function LocalPlan(k: KernelValue, w: Where, ops: seq<Op>, m: map<ValueId, ValueId>): Plan {
    var rho := Resolved(m);
    Plan(m.Keys,
         if w.None? then BlockPlan(ops, rho) else BlockPlan(OpsOf(k.body), map[]),
         map b | b in k.blocks :: if Some(b) == w then BlockPlan(ops, rho) else BlockPlan(OpsOf(k.blocks[b]), map[]))
  }

  function PutBlock(k: KernelValue, w: Where, code: Code): KernelValue {
    match w
    case None => KernelValue(code, k.blocks)
    case Some(b) => KernelValue(k.body, k.blocks[b := code])
  }

  lemma ResolvedKeys(m: map<ValueId, ValueId>)
    ensures Resolved(m).Keys == m.Keys
  {
  }

  /** A rewrite that drops something is shorter. */
  lemma {:induction false} DroppingShortens(code: Code, ops: seq<Op>, rho: map<ValueId, ValueId>, dead: set<ValueId>)
    requires |ops| == |code|
    ensures |Rewrite(code, ops, rho, dead)| <= |code|
    ensures (exists i :: 0 <= i < |code| && IsDead(code[i].res, dead)) ==> |Rewrite(code, ops, rho, dead)| < |code|
  {
    if code != [] {
      DroppingShortens(code[1..], ops[1..], rho, dead);
      if i :| 0 <= i < |code| && IsDead(code[i].res, dead) {
        if i > 0 { assert IsDead(code[1..][i - 1].res, dead); }
      }
    }
  }

  predicate HasBlock(k: KernelValue, w: Where) { w.Some? ==> w.value in k.blocks }

  /** No other block uses one of the ids. */
  ghost predicate NotUsedElsewhere(k: KernelValue, w: Where, ids: set<ValueId>) {
    forall v, i :: v != w && 0 <= i < |CodeAt(k, v)| ==> Uses(CodeAt(k, v)[i].op) !! ids
  }

  /** The rewrite a local round asks for is sound op by op. */
  ghost predicate RoundSound(c: Setting, w: Where, ops: seq<Op>, m: map<ValueId, ValueId>) {
    var code := CodeAt(c.k, w);
    && |ops| == |code|
    && (forall v :: v in m ==> Redirects(c, v, m[v]))
    && (forall i :: 0 <= i < |code| ==>
          if IsDead(code[i].res, m.Keys) then IsValueOp(code[i].op)
          else ops[i] == code[i].op
               || (Stable(code[i].op, c.ro) && Stable(ops[i], c.ro) && Replaces(c, code[i].op, ops[i])))
  }

  lemma LocalPlanSound(c: Setting, w: Where, ops: seq<Op>, m: map<ValueId, ValueId>)
    requires UniqueDefs(c.k) && HasBlock(c.k, w) && RoundSound(c, w, ops, m)
    requires Descends(CodeAt(c.k, w), m) && NotUsedElsewhere(c.k, w, m.Keys)
    ensures Sound(c, LocalPlan(c.k, w, ops, m))
  {
    var p := LocalPlan(c.k, w, ops, m);
    var code := CodeAt(c.k, w);
    forall v | v in m ensures ResolvedWell(c, w, m, v) { ResolvedIsWell(c, w, m, v); }
    hide Redirects, Replaces, Chase, UniqueDefs, NotUsedElsewhere, RoundSound, BlockSound, Resolved, Descends;
    forall x | x in p.dead ensures DefinedSomewhere(c.k, x) {
      assert ResolvedWell(c, w, m, x);
      assert DefinedAt(c.k, w, Rank(code, x) - 1, x);
    }
    forall u ensures BlockSound(c, p, u) {
      LocalBlockSound(c, w, ops, m, u);
    }
    assert Fits(c.k, p) by { RoundFits(c, w, ops, m); }
  }

  /** A resolved redirect keeps the value, ends outside the map, and starts at a result of the block. */
  ghost predicate ResolvedWell(c: Setting, w: Where, m: map<ValueId, ValueId>, v: ValueId)
    requires v in m
  {
    Redirects(c, v, Resolved(m)[v]) && Resolved(m)[v] !in m && DefinedAt(c.k, w, Rank(CodeAt(c.k, w), v) - 1, v)
  }

  lemma ResolvedIsWell(c: Setting, w: Where, m: map<ValueId, ValueId>, v: ValueId)
    requires (forall v :: v in m ==> Redirects(c, v, m[v])) && Descends(CodeAt(c.k, w), m) && v in m
    ensures ResolvedWell(c, w, m, v)
  {
    hide Redirects, Resolved, CodeAt, DefinedAt, Rank;
    ResolvedRedirects(c, m, v);
    ResolvedDescends(CodeAt(c.k, w), m, v);
    RankIsDefinition(c.k, w, v);
  }

  lemma ResolvedRedirects(c: Setting, m: map<ValueId, ValueId>, v: ValueId)
    requires (forall v :: v in m ==> Redirects(c, v, m[v])) && v in m
    ensures Redirects(c, v, Resolved(m)[v])
  {
    hide Redirects, Chase;
    ChaseRedirects(c, m, v, m[v], {v});
  }

  lemma RankIsDefinition(k: KernelValue, w: Where, v: ValueId)
    requires Rank(CodeAt(k, w), v) > 0
    ensures DefinedAt(k, w, Rank(CodeAt(k, w), v) - 1, v)
  {
  }

  lemma RoundFits(c: Setting, w: Where, ops: seq<Op>, m: map<ValueId, ValueId>)
    requires RoundSound(c, w, ops, m) && HasBlock(c.k, w)
    ensures Fits(c.k, LocalPlan(c.k, w, ops, m))
  {
    hide Redirects, Replaces, Resolved;
  }

  lemma LocalBlockSound(c: Setting, w: Where, ops: seq<Op>, m: map<ValueId, ValueId>, u: Where)
    requires UniqueDefs(c.k) && HasBlock(c.k, w) && RoundSound(c, w, ops, m) && NotUsedElsewhere(c.k, w, m.Keys)
    requires forall v :: v in m ==> ResolvedWell(c, w, m, v)
    ensures BlockSound(c, LocalPlan(c.k, w, ops, m), u)
  {
    var p := LocalPlan(c.k, w, ops, m);
    LocalPlanAt(c.k, w, ops, m, u);
    var q := PlanAt(p, u);
    assert |q.ops| == |CodeAt(c.k, u)|;
    forall v | v in q.rho ensures Redirects(c, v, q.rho[v]) { assert ResolvedWell(c, w, m, v); }
    hide Redirects, LocalPlan, RoundSound, ResolvedWell, NotUsedElsewhere, UniqueDefs;
    forall i | 0 <= i < |CodeAt(c.k, u)| ensures InstrSound(c, p, CodeAt(c.k, u)[i], q.ops[i], q.rho) {
      if u == w { OwnInstrSound(c, w, ops, m, i); } else { OtherInstrSound(c, w, ops, m, u, i); }
    }
  }

  lemma OwnInstrSound(c: Setting, w: Where, ops: seq<Op>, m: map<ValueId, ValueId>, i: nat)
    requires RoundSound(c, w, ops, m) && i < |ops| && forall v :: v in m ==> ResolvedWell(c, w, m, v)
    ensures InstrSound(c, LocalPlan(c.k, w, ops, m), CodeAt(c.k, w)[i], ops[i], Resolved(m))
  {
    hide Redirects, Replaces, Chase, Stable, Uses;
    forall x | x in Uses(ops[i]) ensures To(Resolved(m), x) !in m {
      if x in m { assert ResolvedWell(c, w, m, x); }
    }
  }

  lemma OtherInstrSound(c: Setting, w: Where, ops: seq<Op>, m: map<ValueId, ValueId>, u: Where, i: nat)
    requires UniqueDefs(c.k) && u != w && i < |CodeAt(c.k, u)| && NotUsedElsewhere(c.k, w, m.Keys)
    requires forall v :: v in m ==> ResolvedWell(c, w, m, v)
    ensures InstrSound(c, LocalPlan(c.k, w, ops, m), CodeAt(c.k, u)[i], CodeAt(c.k, u)[i].op, map[])
  {
    hide Redirects, Replaces, Chase, Stable, Uses, Resolved;
    var ins := CodeAt(c.k, u)[i];
    assert ins.res.Some? ==> DefinedAt(c.k, u, i, ins.res.value);
    assert Uses(ins.op) !! m.Keys;
    if IsDead(ins.res, m.Keys) {
      var there := ResolvedWell(c, w, m, ins.res.value);
      assert false;
    }
  }

  /** A local plan is: put the rewritten block in place of the old one. */
  lemma LocalApply(k: KernelValue, w: Where, ops: seq<Op>, m: map<ValueId, ValueId>)
    requires HasBlock(k, w) && |ops| == |CodeAt(k, w)| && UniqueDefs(k)
    requires forall v :: v in m ==> Rank(CodeAt(k, w), v) > 0
    ensures Fits(k, LocalPlan(k, w, ops, m))
    ensures Apply(k, LocalPlan(k, w, ops, m)) == PutBlock(k, w, Rewrite(CodeAt(k, w), ops, Resolved(m), m.Keys))
  {
    hide UniqueDefs, Chase, Rewrite, Rank, Resolved, PutBlock, Apply;
    var p := LocalPlan(k, w, ops, m);
    var code' := Rewrite(CodeAt(k, w), ops, Resolved(m), m.Keys);
    forall u | HasBlock(k, u) ensures CodeAt(Apply(k, p), u) == if u == w then code' else CodeAt(k, u) {
      CodeIsRewrite(k, p, u);
      LocalPlanAt(k, w, ops, m, u);
      if u != w { UntouchedBlock(k, w, m, u); }
    }
    ApplyKeepsKeys(k, p);
    IsPutBlock(k, w, code', Apply(k, p));
  }

  lemma ApplyKeepsKeys(k: KernelValue, p: Plan)
    requires Fits(k, p)
    ensures Apply(k, p).blocks.Keys == k.blocks.Keys
  {
  }

  lemma LocalPlanAt(k: KernelValue, w: Where, ops: seq<Op>, m: map<ValueId, ValueId>, u: Where)
    requires HasBlock(k, w)
    ensures PlanAt(LocalPlan(k, w, ops, m), u) ==
              if u == w then BlockPlan(ops, Resolved(m)) else BlockPlan(OpsOf(CodeAt(k, u)), map[])
  {
  }

  /** A kernel that differs in one block only. */
  lemma IsPutBlock(k: KernelValue, w: Where, code': Code, k': KernelValue)
    requires HasBlock(k, w) && k'.blocks.Keys == k.blocks.Keys
    requires forall u :: HasBlock(k, u) ==> CodeAt(k', u) == if u == w then code' else CodeAt(k, u)
    ensures k' == PutBlock(k, w, code')
  {
    var k'' := PutBlock(k, w, code');
    assert CodeAt(k', None) == k'.body;
    assert k'.body == k''.body;
    forall b | b in k.blocks ensures k'.blocks[b] == k''.blocks[b] {
      assert CodeAt(k', Some(b)) == k'.blocks[b];
    }
    assert k'.blocks == k''.blocks;
  }

  lemma UntouchedBlock(k: KernelValue, w: Where, m: map<ValueId, ValueId>, u: Where)
    requires UniqueDefs(k) && u != w
    requires forall v :: v in m ==> Rank(CodeAt(k, w), v) > 0
    ensures Rewrite(CodeAt(k, u), OpsOf(CodeAt(k, u)), map[], m.Keys) == CodeAt(k, u)
  {
    var code := CodeAt(k, u);
    forall i | 0 <= i < |code| ensures !IsDead(code[i].res, m.Keys) {
      if IsDead(code[i].res, m.Keys) {
        assert DefinedAt(k, u, i, code[i].res.value);
        assert DefinedAt(k, w, Rank(CodeAt(k, w), code[i].res.value) - 1, code[i].res.value);
      }
    }
    RewriteAll(code, OpsOf(code), map[], m.Keys);
    RewriteAll(code, OpsOf(code), map[], {});
    RewriteNothing(code);
  }

  lemma DescendsInside(code: Code, m: map<ValueId, ValueId>)
    requires Descends(code, m)
    ensures forall v :: v in m ==> Rank(code, v) > 0
  {
  }

  lemma LocalKeepsDiscipline(c: Setting, w: Where, ops: seq<Op>, m: map<ValueId, ValueId>)
    requires Disciplined(c) && HasBlock(c.k, w) && |ops| == |CodeAt(c.k, w)|
    requires Descends(CodeAt(c.k, w), m)
    requires forall i :: 0 <= i < |ops| ==> SameRole(CodeAt(c.k, w)[i].op, ops[i])
    ensures Disciplined(c.(k := PutBlock(c.k, w, Rewrite(CodeAt(c.k, w), ops, Resolved(m), m.Keys))))
  {
    DescendsInside(CodeAt(c.k, w), m);
    hide UniqueDefs, EffectsKeep, NeverStored, Rank, Resolved, LocalPlan, Apply, PutBlock, Rewrite, Descends, PlanAt, IsValueOp, CodeAt, Fits;
    var p := LocalPlan(c.k, w, ops, m);
    LocalApply(c.k, w, ops, m);
    forall u ensures RolesKept(c.k, p, u) {
      LocalPlanAt(c.k, w, ops, m, u);
    }
    PlanKeepsDiscipline(c, p);
  }

  // ----- the block stays in SSA form -----

  lemma RewriteRank(code: Code, ops: seq<Op>, rho: map<ValueId, ValueId>, dead: set<ValueId>, v: ValueId)
    requires |ops| == |code| && UniqueResults(code)
    ensures var code' := Rewrite(code, ops, rho, dead);
            var r := Rank(code', v);
            r > 0 ==> Rank(code, v) == Origin(code, dead, r - 1) + 1
  {
    var code' := Rewrite(code, ops, rho, dead);
    var r := Rank(code', v);
    if r > 0 {
      RewriteAt(code, ops, rho, dead, r - 1);
      RankOf(code, Origin(code, dead, r - 1));
    }
  }

  lemma LocalKeepsSsa(code: Code, ops: seq<Op>, m: map<ValueId, ValueId>)
    requires |ops| == |code| && Ssa(code) && Descends(code, m)
    requires forall i, u :: 0 <= i < |code| && u in Uses(ops[i]) ==> Rank(code, u) <= i
    ensures Ssa(Rewrite(code, ops, Resolved(m), m.Keys))
  {
    RewriteKeepsUnique(code, ops, Resolved(m), m.Keys);
    hide UniqueResults, Chase;
    var code' := Rewrite(code, ops, Resolved(m), m.Keys);
    forall i, u | 0 <= i < |code'| && u in Uses(code'[i].op) ensures Rank(code', u) <= i {
      UseRank(code, ops, m, i, u);
    }
  }

  lemma RewriteKeepsUnique(code: Code, ops: seq<Op>, rho: map<ValueId, ValueId>, dead: set<ValueId>)
    requires |ops| == |code| && UniqueResults(code)
    ensures UniqueResults(Rewrite(code, ops, rho, dead))
  {
    var code' := Rewrite(code, ops, rho, dead);
    forall i, j | 0 <= i < |code'| && 0 <= j < |code'| && code'[i].res.Some? && code'[i].res == code'[j].res ensures i == j {
      RewriteAt(code, ops, rho, dead, i);
      RewriteAt(code, ops, rho, dead, j);
      if i < j { OriginIncreases(code, ops, rho, dead, i, j); }
      if j < i { OriginIncreases(code, ops, rho, dead, j, i); }
    }
  }

  lemma UseRank(code: Code, ops: seq<Op>, m: map<ValueId, ValueId>, i: nat, u: ValueId)
    requires |ops| == |code| && UniqueResults(code) && Descends(code, m)
    requires forall i, u :: 0 <= i < |code| && u in Uses(ops[i]) ==> Rank(code, u) <= i
    requires var code' := Rewrite(code, ops, Resolved(m), m.Keys);
             i < |code'| && u in Uses(code'[i].op)
    ensures Rank(Rewrite(code, ops, Resolved(m), m.Keys), u) <= i
  {
    hide UniqueResults, Chase, Subst, Uses, Rewrite, Origin;
    var rho, dead := Resolved(m), m.Keys;
    RewriteAt(code, ops, rho, dead, i);
    var o := Origin(code, dead, i);
    UsesOfSubst(ops[o], rho);
    var x :| x in Uses(ops[o]) && To(rho, x) == u;
    if x in m { ResolvedDescends(code, m, x); }
    assert Rank(code, u) <= o;
    RewriteRank(code, ops, rho, dead, u);
    var r := Rank(Rewrite(code, ops, rho, dead), u);
    if r > i + 1 { OriginIncreases(code, ops, rho, dead, i, r - 1); }
  }

  // ----- what other blocks are left with -----

  ghost predicate LoopBound(k: KernelValue, u: ValueId) {
    exists w, i :: 0 <= i < |CodeAt(k, w)| && CodeAt(k, w)[i].op.Loop? && u in LoopIds(CodeAt(k, w)[i].op.loopVar)
  }

  ghost predicate Bound(k: KernelValue, u: ValueId) { DefinedSomewhere(k, u) || LoopBound(k, u) }

  /** Every id a kernel uses is one it defines, or a loop's. */
  ghost predicate Closed(k: KernelValue) {
    forall u :: UsedSomewhere(k, u) ==> Bound(k, u)
  }

  ghost predicate Mentions(code: Code, u: ValueId) {
    exists j :: 0 <= j < |code| && u in Uses(code[j].op)
  }

  /** A round writes nothing the block does not mention already, and drops value ops only. */
  ghost predicate MentionsOld(k: KernelValue, w: Where, ops: seq<Op>, m: map<ValueId, ValueId>) {
    && |ops| == |CodeAt(k, w)|
    && (forall i, u :: 0 <= i < |ops| && u in Uses(ops[i]) ==> Mentions(CodeAt(k, w), u))
    && (forall v :: v in m ==> Mentions(CodeAt(k, w), m[v]))
    && (forall i :: 0 <= i < |ops| ==> SameRole(CodeAt(k, w)[i].op, ops[i]))
    && (forall i :: 0 <= i < |ops| && IsDead(CodeAt(k, w)[i].res, m.Keys) ==> IsValueOp(CodeAt(k, w)[i].op))
  }

  function LocalCode(code: Code, ops: seq<Op>, m: map<ValueId, ValueId>): Code
    requires |ops| == |code|
  {
    Rewrite(code, ops, Resolved(m), m.Keys)
  }

  lemma CodeAtLocal(k: KernelValue, w: Where, code: Code, u: Where)
    requires HasBlock(k, w)
    ensures CodeAt(PutBlock(k, w, code), u) == if u == w then code else CodeAt(k, u)
  {
  }

  lemma DefinedAfterRound(k: KernelValue, w: Where, ops: seq<Op>, m: map<ValueId, ValueId>, x: ValueId)
    requires HasBlock(k, w) && |ops| == |CodeAt(k, w)| && UniqueDefs(k)
    requires forall v :: v in m ==> Rank(CodeAt(k, w), v) > 0
    ensures DefinedSomewhere(PutBlock(k, w, LocalCode(CodeAt(k, w), ops, m)), x) <==> DefinedSomewhere(k, x) && x !in m
  {
    var code := CodeAt(k, w);
    var code' := LocalCode(code, ops, m);
    var k' := PutBlock(k, w, code');
    hide UniqueDefs, PutBlock, LocalCode, Rank;
    assert code' == Rewrite(code, ops, Resolved(m), m.Keys) by { LocalCodeIs(code, ops, m); }
    if DefinedSomewhere(k', x) {
      var v, i :| DefinedAt(k', v, i, x);
      CodeAtLocal(k, w, code', v);
      if v == w {
        RewriteAt(code, ops, Resolved(m), m.Keys, i);
        assert DefinedAt(k, w, Origin(code, m.Keys, i), x);
      } else {
        assert DefinedAt(k, v, i, x);
        if x in m { DefinedTwice(k, w, v, i, x); }
      }
    }
    if DefinedSomewhere(k, x) && x !in m {
      var v, i :| DefinedAt(k, v, i, x);
      CodeAtLocal(k, w, code', v);
      if v == w {
        var j := SurvivorStays(code, ops, Resolved(m), m.Keys, i);
        RewriteAt(code, ops, Resolved(m), m.Keys, j);
        assert DefinedAt(k', w, j, x);
      } else {
        assert DefinedAt(k', v, i, x);
      }
    }
  }

  lemma LocalCodeIs(code: Code, ops: seq<Op>, m: map<ValueId, ValueId>)
    requires |ops| == |code|
    ensures LocalCode(code, ops, m) == Rewrite(code, ops, Resolved(m), m.Keys)
  {
  }

  lemma DefinedTwice(k: KernelValue, w: Where, v: Where, i: int, x: ValueId)
    requires UniqueDefs(k) && Rank(CodeAt(k, w), x) > 0 && DefinedAt(k, v, i, x)
    ensures v == w
  {
    assert DefinedAt(k, w, Rank(CodeAt(k, w), x) - 1, x);
  }

  lemma LoopsBeforeRound(k: KernelValue, w: Where, ops: seq<Op>, m: map<ValueId, ValueId>, u: ValueId)
    requires HasBlock(k, w) && MentionsOld(k, w, ops, m)
    requires LoopBound(PutBlock(k, w, LocalCode(CodeAt(k, w), ops, m)), u)
    ensures LoopBound(k, u)
  {
    var code := CodeAt(k, w);
    var code' := LocalCode(code, ops, m);
    var k' := PutBlock(k, w, code');
    LocalCodeIs(code, ops, m);
    hide PutBlock, LocalCode, Mentions, Rewrite;
    var v, i :| 0 <= i < |CodeAt(k', v)| && CodeAt(k', v)[i].op.Loop? && u in LoopIds(CodeAt(k', v)[i].op.loopVar);
    CodeAtLocal(k, w, code', v);
    if v == w {
      RewriteAt(code, ops, Resolved(m), m.Keys, i);
      var o := Origin(code, m.Keys, i);
      SubstKeepsLoop(ops[o], Resolved(m));
      assert SameRole(code[o].op, ops[o]);
    }
  }

  lemma SubstKeepsLoop(op: Op, m: map<ValueId, ValueId>)
    ensures Subst(op, m).Loop? == op.Loop? && (op.Loop? ==> Subst(op, m).loopVar == op.loopVar)
  {
  }

  /** Loops stay, with their variables. */
  lemma LoopsAfterRound(k: KernelValue, w: Where, ops: seq<Op>, m: map<ValueId, ValueId>, u: ValueId)
    requires HasBlock(k, w) && MentionsOld(k, w, ops, m)
    ensures LoopBound(PutBlock(k, w, LocalCode(CodeAt(k, w), ops, m)), u) <==> LoopBound(k, u)
  {
    var code := CodeAt(k, w);
    var code' := LocalCode(code, ops, m);
    var k' := PutBlock(k, w, code');
    if LoopBound(k', u) { LoopsBeforeRound(k, w, ops, m, u); }
    LocalCodeIs(code, ops, m);
    hide PutBlock, LocalCode, Mentions, Rewrite, Subst;
    if LoopBound(k, u) {
      var v, i :| 0 <= i < |CodeAt(k, v)| && CodeAt(k, v)[i].op.Loop? && u in LoopIds(CodeAt(k, v)[i].op.loopVar);
      CodeAtLocal(k, w, code', v);
      if v == w {
        assert SameRole(code[i].op, ops[i]);
        var j := SurvivorStays(code, ops, Resolved(m), m.Keys, i);
        RewriteAt(code, ops, Resolved(m), m.Keys, j);
        SubstKeepsLoop(ops[i], Resolved(m));
        assert 0 <= j < |CodeAt(k', w)| && CodeAt(k', w)[j].op.Loop?;
      } else {
        assert 0 <= i < |CodeAt(k', v)| && CodeAt(k', v)[i].op.Loop?;
      }
    }
  }

  /** A chain ends at the target of one of its redirects. */
  lemma {:induction false} ChaseIsTarget(m: map<ValueId, ValueId>, v: ValueId, visited: set<ValueId>)
    requires exists y :: y in m && m[y] == v
    ensures exists y :: y in m && m[y] == Chase(m, v, visited)
    decreases m.Keys - visited
  {
    if v in m && v !in visited { ChaseIsTarget(m, m[v], visited + {v}); }
  }

  lemma ResolvedIsTarget(m: map<ValueId, ValueId>, x: ValueId)
    requires x in m
    ensures exists y :: y in m && m[y] == Resolved(m)[x]
  {
    ChaseIsTarget(m, m[x], {x});
  }

  /** A use after a round is an old use of this block, renamed, or a use of another block. */
  lemma UseBeforeRound(k: KernelValue, w: Where, ops: seq<Op>, m: map<ValueId, ValueId>, v: Where, i: nat, u: ValueId)
    requires HasBlock(k, w) && MentionsOld(k, w, ops, m) && Descends(CodeAt(k, w), m)
    requires UsedAt(PutBlock(k, w, LocalCode(CodeAt(k, w), ops, m)), v, i, u)
    ensures if v == w then Mentions(CodeAt(k, w), u) && u !in m else UsedAt(k, v, i, u)
  {
    var code := CodeAt(k, w);
    LocalCodeIs(code, ops, m);
    CodeAtLocal(k, w, LocalCode(code, ops, m), v);
    hide PutBlock, LocalCode, Mentions, Rank;
    if v == w {
      RewriteAt(code, ops, Resolved(m), m.Keys, i);
      var o := Origin(code, m.Keys, i);
      UsesOfSubst(ops[o], Resolved(m));
      var x :| x in Uses(ops[o]) && To(Resolved(m), x) == u;
      if x in m {
        ResolvedDescends(code, m, x);
        ResolvedIsTarget(m, x);
        var y :| y in m && m[y] == u;
        assert Mentions(code, m[y]);
      }
    }
  }

  /** A round leaves no use without a definition exactly when no other block uses what it drops. */
  lemma ClosedIffNotUsedElsewhere(k: KernelValue, w: Where, ops: seq<Op>, m: map<ValueId, ValueId>)
    requires UniqueDefs(k) && Closed(k) && HasBlock(k, w) && MentionsOld(k, w, ops, m) && Descends(CodeAt(k, w), m)
    ensures Closed(PutBlock(k, w, LocalCode(CodeAt(k, w), ops, m))) <==> NotUsedElsewhere(k, w, m.Keys)
  {
    var code := CodeAt(k, w);
    var k' := PutBlock(k, w, LocalCode(code, ops, m));
    DescendsInside(code, m);
    hide PutBlock, LocalCode, Rank, Descends, MentionsOld;
    if NotUsedElsewhere(k, w, m.Keys) {
      forall u | UsedSomewhere(k', u) ensures Bound(k', u) {
        var v, i :| UsedAt(k', v, i, u);
        UseBeforeRound(k, w, ops, m, v, i, u);
        if v == w { MentionedIsUsed(k, w, u); }
        assert UsedSomewhere(k, u);
        DefinedAfterRound(k, w, ops, m, u);
        LoopsAfterRound(k, w, ops, m, u);
      }
    }
    if Closed(k') {
      forall v, i | v != w && 0 <= i < |CodeAt(k, v)| ensures Uses(CodeAt(k, v)[i].op) !! m.Keys {
        forall u | u in Uses(CodeAt(k, v)[i].op) ensures u !in m {
          CodeAtLocal(k, w, LocalCode(code, ops, m), v);
          assert UsedAt(k', v, i, u);
          assert UsedSomewhere(k', u);
          DefinedAfterRound(k, w, ops, m, u);
          LoopsAfterRound(k, w, ops, m, u);
          if u in m { NeverBoth(k, w, u); }
        }
      }
    }
  }

  lemma MentionedIsUsed(k: KernelValue, w: Where, u: ValueId)
    requires Mentions(CodeAt(k, w), u)
    ensures UsedSomewhere(k, u)
  {
    var j :| 0 <= j < |CodeAt(k, w)| && u in Uses(CodeAt(k, w)[j].op);
    assert UsedAt(k, w, j, u);
  }

  lemma NeverBoth(k: KernelValue, w: Where, u: ValueId)
    requires UniqueDefs(k) && Rank(CodeAt(k, w), u) > 0
    ensures !LoopBound(k, u)
  {
    assert DefinedAt(k, w, Rank(CodeAt(k, w), u) - 1, u);
  }

  lemma UniqueAfterRound(k: KernelValue, w: Where, ops: seq<Op>, m: map<ValueId, ValueId>)
    requires UniqueDefs(k) && HasBlock(k, w) && MentionsOld(k, w, ops, m) && Descends(CodeAt(k, w), m)
    ensures UniqueDefs(PutBlock(k, w, LocalCode(CodeAt(k, w), ops, m)))
  {
    DescendsInside(CodeAt(k, w), m);
    LocalApply(k, w, ops, m);
    var p := LocalPlan(k, w, ops, m);
    hide UniqueDefs, Apply, Rank, Resolved, Mentions;
    forall v, i | 0 <= i < |CodeAt(k, v)|
      ensures PlanAt(p, v).ops[i].Loop? ==> CodeAt(k, v)[i].op.Loop? && PlanAt(p, v).ops[i].loopVar == CodeAt(k, v)[i].op.loopVar
    {
      LocalPlanAt(k, w, ops, m, v);
      if v == w { assert SameRole(CodeAt(k, w)[i].op, ops[i]); }
    }
    ApplyKeepsUnique(k, p);
  }

  // ----- a condition on op kinds -----

  /** No result that another block uses comes from an op of the kinds R. */
  ghost predicate CrossSafe(k: KernelValue, R: Op -> bool) {
    forall w, i, x, v, j :: DefinedAt(k, w, i, x) && UsedAt(k, v, j, x) && v != w ==> !R(CodeAt(k, w)[i].op)
  }

  /** Then what a round drops, results of ops of these kinds, no other block uses. */
  lemma CrossSafeNotUsed(k: KernelValue, w: Where, m: map<ValueId, ValueId>, R: Op -> bool)
    requires CrossSafe(k, R)
    requires forall x :: x in m ==> exists i :: DefinedAt(k, w, i, x) && R(CodeAt(k, w)[i].op)
    ensures NotUsedElsewhere(k, w, m.Keys)
  {
    forall v, j | v != w && 0 <= j < |CodeAt(k, v)| ensures Uses(CodeAt(k, v)[j].op) !! m.Keys {
      forall x | x in Uses(CodeAt(k, v)[j].op) ensures x !in m {
        assert UsedAt(k, v, j, x);
      }
    }
  }

  /** A round that makes no op of these kinds keeps the condition. */
  lemma CrossSafeAfterRound(k: KernelValue, w: Where, ops: seq<Op>, m: map<ValueId, ValueId>, R: Op -> bool)
    requires CrossSafe(k, R) && HasBlock(k, w) && MentionsOld(k, w, ops, m) && Descends(CodeAt(k, w), m)
    requires forall i :: 0 <= i < |ops| && !R(CodeAt(k, w)[i].op) ==> !R(Subst(ops[i], Resolved(m)))
    ensures CrossSafe(PutBlock(k, w, LocalCode(CodeAt(k, w), ops, m)), R)
  {
    var k' := PutBlock(k, w, LocalCode(CodeAt(k, w), ops, m));
    forall u, i, x, v, j | DefinedAt(k', u, i, x) && UsedAt(k', v, j, x) && v != u ensures !R(CodeAt(k', u)[i].op) {
      CrossSafeAt(k, w, ops, m, R, u, i, x, v, j);
    }
  }

  lemma CrossSafeAt(k: KernelValue, w: Where, ops: seq<Op>, m: map<ValueId, ValueId>, R: Op -> bool,
                    u: Where, i: nat, x: ValueId, v: Where, j: nat)
    requires CrossSafe(k, R) && HasBlock(k, w) && MentionsOld(k, w, ops, m) && Descends(CodeAt(k, w), m)
    requires forall i :: 0 <= i < |ops| && !R(CodeAt(k, w)[i].op) ==> !R(Subst(ops[i], Resolved(m)))
    requires var k' := PutBlock(k, w, LocalCode(CodeAt(k, w), ops, m)); DefinedAt(k', u, i, x) && UsedAt(k', v, j, x) && v != u
    ensures !R(CodeAt(PutBlock(k, w, LocalCode(CodeAt(k, w), ops, m)), u)[i].op)
  {
    var code := CodeAt(k, w);
    UseBeforeRound(k, w, ops, m, v, j, x);
    CodeAtLocal(k, w, LocalCode(code, ops, m), u);
    LocalCodeIs(code, ops, m);
    hide PutBlock, LocalCode, Rank, Descends, Rewrite, Resolved;
    var j' := j;
    if v == w { j' :| 0 <= j' < |code| && x in Uses(code[j'].op); }
    assert UsedAt(k, v, j', x);
    if u == w {
      RewriteAt(code, ops, Resolved(m), m.Keys, i);
      assert DefinedAt(k, w, Origin(code, m.Keys, i), x);
    } else {
      assert DefinedAt(k, u, i, x);
    }
  }

  /** All blocks of a kernel, each once. */
  lemma {:induction false} AllPlaces(ids: set<BlockId>) returns (order: seq<Where>)
    ensures forall w :: w in order <==> w == None || w.value in ids
    ensures forall i, j :: 0 <= i < j < |order| ==> order[i] != order[j]
    decreases ids
  {
    if ids == {} {
      order := [None];
    } else {
      var b :| b in ids;
      var rest := AllPlaces(ids - {b});
      assert Some(b) !in rest;
      order := [Some(b)] + rest;
    }
  }
}
