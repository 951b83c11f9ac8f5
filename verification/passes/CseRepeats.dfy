/**
 What CSE gets rid of: of two instructions of one block that repeat each other, the later
 is gone after the pass, in the entry block and in every nested one.
 */
module CseRepeats {
  import opened Ir
  import opened Semantics
  import opened RewritePlan
  import opened Blocks
  import opened Cse

  /** The same operation on the same operands, in either order where order does not matter,
      or a load of the same cell of an input. */
  predicate Repeats(a: Op, b: Op, params: seq<Param>) {
    match a
    case BinOp(kind, l, r) =>
      a == b
      || (kind in {Add, Mul, Max, Min, And, Or, Xor, BitAnd, BitOr, BitXor, CmpEq, CmpNe} && b == BinOp(kind, r, l))
    case UnaryOp(_, _) => a == b
    case Cast(_, _) => a == b
    case Activation(_, _) => a == b
    case Select(_, _, _) => a == b
    case Load(src, indices, _, _) => b.Load? && b.src == src && b.indices == indices && |indices| == 1 && IsInput(params, src)
    case _ => false
  }

  lemma RepeatsShareKey(a: Op, b: Op, params: seq<Param>)
    requires Repeats(a, b, params)
    ensures Key(a, ReadOnlyParams(params)).Some? && Key(a, ReadOnlyParams(params)) == Key(b, ReadOnlyParams(params))
  {
    if a.Load? { InputsAreReadOnly(params, a.src); }
  }

  lemma RepeatsAside(a: Op, b: Op, m: map<ValueId, ValueId>, params: seq<Param>)
    requires Repeats(a, b, params)
    ensures Repeats(Subst(a, m), Subst(b, m), params)
  {
  }

  /** x is defined by an instruction that repeats an earlier one of its block. */
  ghost predicate RepeatedAt(k: KernelValue, params: seq<Param>, w: Where, i: nat, j: nat, x: ValueId) {
    && i < j < |CodeAt(k, w)| && CodeAt(k, w)[i].res.Some? && CodeAt(k, w)[j].res == Some(x)
    && Repeats(CodeAt(k, w)[i].op, CodeAt(k, w)[j].op, params)
  }

  /** At its own block's stage a repeated instruction goes. */
  lemma RepeatedDropped(k: KernelValue, params: seq<Param>, w: Where, i: nat, j: nat, x: ValueId)
    requires UniqueDefs(k) && RepeatedAt(k, params, w, i, j, x)
    ensures !DefinedSomewhere(Stage(k, ReadOnlyParams(params), w), x)
  {
    var ro, code := ReadOnlyParams(params), CodeAt(k, w);
    UniqueInBlock(k, w);
    RepeatsShareKey(code[i].op, code[j].op, params);
    assert HasKey(code[i], ro, Key(code[j].op, ro).value);
    assert IsDuplicate(code, ro, j);
    DroppedIffDuplicate(code, ro, j);
    var p := StagePlan(k, ro, w);
    assert x in p.dead;
    hide Stage, Remap;
    forall u, n ensures !DefinedAt(Stage(k, ro, w), u, n, x) {
      if DefinedAt(Stage(k, ro, w), u, n, x) { GoneStaysGone(k, ro, w, u, n, x); }
    }
  }

  lemma GoneStaysGone(k: KernelValue, ro: set<string>, w: Where, u: Where, n: nat, x: ValueId)
    requires DefinedAt(Stage(k, ro, w), u, n, x)
    ensures DefinedSomewhere(k, x) && x !in StagePlan(k, ro, w).dead
  {
    DefinedBefore(k, StagePlan(k, ro, w), u, n, x);
  }

  /** At another block's stage it is still a repetition. */
  lemma RepeatedSurvives(k: KernelValue, params: seq<Param>, v: Where, w: Where, i: nat, j: nat, x: ValueId)
    returns (i': nat, j': nat)
    requires UniqueDefs(k) && v != w && RepeatedAt(k, params, w, i, j, x)
    ensures RepeatedAt(Stage(k, ReadOnlyParams(params), v), params, w, i', j', x)
  {
    var ro, code := ReadOnlyParams(params), CodeAt(k, w);
    var p := StagePlan(k, ro, v);
    var q := PlanAt(p, w);
    NotDeadElsewhere(k, ro, v, w, i);
    NotDeadElsewhere(k, ro, v, w, j);
    hide UniqueDefs, Remap;
    CodeIsRewrite(k, p, w);
    i' := SurvivorStays(code, q.ops, q.rho, p.dead, i);
    j' := SurvivorStays(code, q.ops, q.rho, p.dead, j);
    RewriteAt(code, q.ops, q.rho, p.dead, i');
    RewriteAt(code, q.ops, q.rho, p.dead, j');
    if j' < i' { OriginIncreases(code, q.ops, q.rho, p.dead, j', i'); }
    RepeatsAside(code[i].op, code[j].op, q.rho, params);
  }

  lemma NotDeadElsewhere(k: KernelValue, ro: set<string>, v: Where, w: Where, i: nat)
    requires UniqueDefs(k) && v != w && i < |CodeAt(k, w)|
    ensures !IsDead(CodeAt(k, w)[i].res, StagePlan(k, ro, v).dead)
  {
    var code := CodeAt(k, v);
    if IsDead(CodeAt(k, w)[i].res, StagePlan(k, ro, v).dead) {
      var x := CodeAt(k, w)[i].res.value;
      var j := RemapOrigin(code, ro, |code|, x);
      assert DefinedAt(k, v, j, x) && DefinedAt(k, w, i, x);
    }
  }

  lemma {:induction false} NeverComesBack(k: KernelValue, ro: set<string>, order: seq<Where>, x: ValueId)
    requires UniqueDefs(k) && !DefinedSomewhere(k, x)
    ensures !DefinedSomewhere(Stages(k, ro, order), x)
    decreases |order|
  {
    if order != [] {
      var k1 := Stage(k, ro, order[0]);
      StageKeeps(k, ro, order[0]);
      hide Stage, UniqueDefs;
      forall u, n ensures !DefinedAt(k1, u, n, x) {
        if DefinedAt(k1, u, n, x) { GoneStaysGone(k, ro, order[0], u, n, x); }
      }
      NeverComesBack(k1, ro, order[1..], x);
    }
  }

  /** After the pass the later of two instructions that repeat each other is gone. */
  lemma {:induction false} RepeatedGoes(k: KernelValue, params: seq<Param>, order: seq<Where>, w: Where, i: nat, j: nat, x: ValueId)
    requires UniqueDefs(k) && RepeatedAt(k, params, w, i, j, x) && w in order
    ensures !DefinedSomewhere(Stages(k, ReadOnlyParams(params), order), x)
    decreases |order|
  {
    var ro := ReadOnlyParams(params);
    var k1 := Stage(k, ro, order[0]);
    StageKeeps(k, ro, order[0]);
    if order[0] == w {
      RepeatedDropped(k, params, w, i, j, x);
      hide Stage, UniqueDefs;
      NeverComesBack(k1, ro, order[1..], x);
    } else {
      var i', j' := RepeatedSurvives(k, params, order[0], w, i, j, x);
      hide Stage, UniqueDefs;
      RepeatedGoes(k1, params, order[1..], w, i', j', x);
    }
  }
}
