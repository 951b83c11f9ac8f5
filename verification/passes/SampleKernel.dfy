/**
 The conditions of the pass theorems are met together: by one kernel with a loop, a branch,
 a repeated load, negative literals, a scratch buffer, a fetch and a barrier, and by 64-bit
 integers.
 */
module SampleKernel {
  import opened Ir
  import opened Semantics
  import opened RewritePlan
  import opened WellScoped
  import opened Blocks
  import opened LocalRewrite
  import Cse
  import ConstFold
  import ConstFoldPass
  import AlgebraicCross
  import AlgebraicSimplify
  import CopyCross
  import CopyProp
  import DeadStoreElim
  import DeadStoreSound
  import Int64
  import MachineLaws

  function Params(): seq<Param> { [Param("in", false, Tensor), Param("out", true, Tensor)] }

  function Body(): Code {
    [Instr(ConstOp(0), Some(0)), Instr(ConstOp(-2), Some(1)), Instr(BinOp(Sub, 0, 1), Some(2)),
     Instr(Load("in", [Value(0)], None, None), Some(3)), Instr(Load("in", [Value(0)], None, None), Some(4)),
     Instr(VectorStore("tmp", 0, 4, 3), None), Instr(Fetch("shuffle", {}, [4]), Some(5)),
     Instr(Loop(0, 0, 2, 2, 1), None), Instr(If(5, 2, None), None)]
  }

  function LoopBody(): Code {
    [Instr(BinOp(Div, 0xC000_0000, 2), Some(6)), Instr(Store("out", [Value(0x4000_0000)], 6, None), None)]
  }

  function Branch(): Code { [Instr(Effect("barrier", {"tmp"}, []), None)] }

  function Sample(): KernelValue { KernelValue(Body(), map[1 := LoopBody(), 2 := Branch()]) }

  /** The one place that defines an id. */
  function Home(x: ValueId): (Where, int) {
    if x == 6 then (Some(1), 0) else (None, if x == 5 then 6 else x)
  }

  lemma SampleDefines(w: Where, i: int, x: ValueId)
    requires DefinedAt(Sample(), w, i, x)
    ensures x <= 6 && Home(x) == (w, i)
  {
  }

  lemma SampleUnique()
    ensures UniqueDefs(Sample())
  {
    forall w, i, v, j, x | DefinedAt(Sample(), w, i, x) && DefinedAt(Sample(), v, j, x) ensures w == v && i == j {
      SampleDefines(w, i, x);
      SampleDefines(v, j, x);
    }
    forall w, i, v, j, x | DefinedAt(Sample(), w, i, x) && 0 <= j < |CodeAt(Sample(), v)| && CodeAt(Sample(), v)[j].op.Loop?
      ensures x !in LoopIds(CodeAt(Sample(), v)[j].op.loopVar)
    {
      SampleDefines(w, i, x);
    }
  }

  lemma SampleStores()
    ensures DistinctNames(Params()) && StoresFit(Sample(), Params())
  {
    assert Params()[1] in Params() && IsOutput(Params(), "out");
  }

  function SampleScopes(): Scopes {
    Scopes(map[1 := {0, 1, 2, 3, 0x4000_0000, 0xC000_0000}, 2 := {}],
           map[1 := {0, 1, 2, 3, 4, 5, 0x4000_0000, 0xC000_0000}, 2 := {0, 1, 2, 3, 4, 5}])
  }

  lemma SampleScoped()
    ensures Scoped(Sample(), SampleScopes())
  {
    forall w, n | 0 <= n < |CodeAt(Sample(), w)| ensures ScopedAt(Sample(), SampleScopes(), w, n) {
      if w == None { BodyScoped(n); } else if w == Some(1) { LoopScoped(n); }
    }
  }

  function Bound(n: nat): set<ValueId> {
    if n == 0 then {} else if n == 1 then {0} else if n == 2 then {0, 1} else if n == 3 then {0, 1, 2}
    else if n == 4 then {0, 1, 2, 3} else if n <= 6 then {0, 1, 2, 3, 4} else {0, 1, 2, 3, 4, 5}
  }

  lemma {:induction false} BodyBinds(n: nat)
    requires n < 9
    ensures BoundBefore(Body(), n) == Bound(n)
  {
    if n > 0 { BodyBinds(n - 1); }
  }

  lemma BodyScoped(n: nat)
    requires n < 9
    ensures ScopedAt(Sample(), SampleScopes(), None, n)
  {
    BodyBinds(n);
    OperandsBound(n);
    if n < 7 {
      PlainAt(n);
      hide Uses, Binds, BoundBefore, Body, Bound;
    } else {
      ControlBound(n);
      hide Uses, Binds, BoundBefore, Bound, InstrScoped;
    }
  }

  lemma PlainAt(n: nat)
    requires n < 7
    ensures !Body()[n].op.Loop? && !Body()[n].op.If?
  {
  }

  lemma ControlBound(n: nat)
    requires 7 <= n < 9
    ensures InstrScoped(SampleScopes(), Body()[n], Bound(n), Bound(n))
  {
    assert n == 7 || n == 8;
  }

  lemma OperandsBound(n: nat)
    requires n < 9
    ensures Uses(Body()[n].op) <= Bound(n) && Binds(Body()[n]) !! Bound(n)
  {
  }

  lemma LoopScoped(n: nat)
    requires n < 2
    ensures ScopedAt(Sample(), SampleScopes(), Some(1), n)
  {
    assert BoundBefore(LoopBody(), 0) == {};
    assert BoundBefore(LoopBody(), 1) == {6};
  }

  lemma SampleWriters()
    ensures ConstFoldPass.WritersHaveNoResult(Sample())
  {
  }

  lemma SampleMasks()
    ensures Cse.MasksConsistent(Sample(), ReadOnlyParams(Params()))
  {
    forall w, i | 0 <= i < |CodeAt(Sample(), w)| && CodeAt(Sample(), w)[i].op.Load?
      ensures CodeAt(Sample(), w)[i].op.mask == None {}
  }

  lemma SampleFolds(w: Where)
    ensures ConstFold.Foldable(CodeAt(Sample(), w))
  {
    var code := CodeAt(Sample(), w);
    hide ConstFold.XorAgrees, FindConst;
    forall i | 0 <= i < |code| ensures ConstFold.FoldableOp(code, code[i].op) {}
  }

  lemma SampleSsa(w: Where)
    ensures Ssa(CodeAt(Sample(), w))
  {
    var code := CodeAt(Sample(), w);
    forall i, j | 0 <= i < |code| && 0 <= j < |code| && code[i].res.Some? && code[i].res == code[j].res ensures i == j {
      SampleDefines(w, i, code[i].res.value);
      SampleDefines(w, j, code[j].res.value);
    }
    hide Uses;
    forall i, u | 0 <= i < |code| && u in Uses(code[i].op) ensures Rank(code, u) <= i {
      if Rank(code, u) > 0 {
        SampleDefines(w, Rank(code, u) - 1, u);
        SampleUses(w, i, u);
      }
    }
  }

  /** An id is used behind its definition; what the division yields, in the loop body only. */
  lemma SampleUses(w: Where, i: int, u: ValueId)
    requires UsedAt(Sample(), w, i, u) && u <= 6
    ensures Home(u).0 == w ==> Home(u).1 < i
    ensures u == 6 ==> w == Some(1)
  {
    if w == None {
      assert Sample().body == Body();
      BodyUses(i, u);
    } else if w == Some(1) {
      LoopUses(i, u);
    }
  }

  lemma BodyUses(i: int, u: ValueId)
    requires 0 <= i < 9 && u in Uses(Body()[i].op)
    ensures u <= 5 && Home(u).1 < i
  {
  }

  lemma LoopUses(i: int, u: ValueId)
    requires 0 <= i < 2 && u in Uses(LoopBody()[i].op) && u <= 6
    ensures u == 6 ==> i == 1
  {
  }

  lemma SampleSafe()
    ensures AlgebraicCross.Safe(Sample()) && CopyCross.Safe(Sample())
  {
    forall w, i, x, v, j | DefinedAt(Sample(), w, i, x) && UsedAt(Sample(), v, j, x) && v != w
      ensures !AlgebraicCross.Redirectable(CodeAt(Sample(), w)[i].op) && !CopyCross.MayCopy(CodeAt(Sample(), w)[i].op)
    {
      SampleDefines(w, i, x);
      SampleUses(v, j, x);
    }
  }

  lemma SampleSweeps()
    ensures DeadStoreElim.UndisturbedKernel(Sample(), OutputParams(Params()))
  {
    forall w, i: nat, t: nat ensures !DeadStoreElim.Between(CodeAt(Sample(), w), OutputParams(Params()), i, t) {
      if i < |CodeAt(Sample(), w)| { NothingDead(w, i, OutputParams(Params())); }
    }
  }

  lemma NothingDead(w: Where, i: nat, outputs: set<string>)
    requires i < |CodeAt(Sample(), w)|
    ensures !DeadStoreElim.IsDeadStore(CodeAt(Sample(), w), outputs, i)
  {
    var code := CodeAt(Sample(), w);
    hide DeadStoreElim.IsRead;
    forall j, key | i + 1 <= j < |code| && DeadStoreElim.KeyOfStore(code[i].op) == Some(key)
      ensures !DeadStoreElim.Candidate(code[j].op, outputs, key) {}
  }

  ghost function Integers(): Interp { Int64.Machine(Cse.Reading(1)) }

  lemma IntegersMeetAll(ro: set<string>)
    ensures var I := Integers();
            && Cse.Commutes(I) && AlgebraicSimplify.Laws(I) && ConstFold.Laws(I) && CopyProp.Laws(I)
            && EffectsKeep(I, ro) && DeadStoreSound.Local(I) && DeadStoreSound.Overwrites(I)
  {
    OneCell();
    QuietIsLocal(Integers(), ro);
    OneCellOverwrites(Integers());
    var rest := Cse.Reading(1);
    hide Cse.Commutes, AlgebraicSimplify.Laws, ConstFold.Laws, CopyProp.Laws, EffectsKeep, DeadStoreSound.Local, DeadStoreSound.Overwrites;
    MachineLaws.MachineCommutes(rest);
    MachineLaws.MachineSimplifies(rest);
    MachineLaws.MachineFolds(rest);
    MachineLaws.MachineCopies(rest);
  }

  /** Stores replace the buffer; fetches and effects do nothing. */
  ghost predicate Overwriting(I: Interp) {
    && (forall b, idx, v :: I.write(b, idx, v) == [v])
    && (forall b, off, len: nat, v :: I.vectorWrite(b, off, len, v) == [v])
  }

  ghost predicate Quiet(I: Interp) {
    forall tag, bufs, vals, st: State :: I.fetch(tag, bufs, vals, st) == 0 && I.effect(tag, bufs, vals, st) == st.mem
  }

  lemma OneCell()
    ensures Overwriting(Integers()) && Quiet(Integers())
  {
    hide Int64.MachineBin, Int64.MachineUn;
  }

  lemma OneCellOverwrites(I: Interp)
    requires Overwriting(I)
    ensures DeadStoreSound.Overwrites(I)
  {
  }

  lemma QuietIsLocal(I: Interp, ro: set<string>)
    requires Quiet(I)
    ensures DeadStoreSound.Local(I) && EffectsKeep(I, ro)
  {
    hide DeadStoreSound.Observed;
  }

  /** So the pass theorems apply to it, under 64-bit integers, from any memory. */
  lemma SampleMeetsAll(mem: Memory)
    ensures var c := Setting(Integers(), Sample(), ReadOnlyParams(Params()), mem);
            && Disciplined(c) && Cse.MasksConsistent(c.k, c.ro) && (exists s :: Scoped(c.k, s))
            && (forall w :: Ssa(CodeAt(c.k, w)) && ConstFold.Foldable(CodeAt(c.k, w)))
            && ConstFoldPass.WritersHaveNoResult(c.k) && AlgebraicCross.Safe(c.k) && CopyCross.Safe(c.k)
            && DeadStoreElim.UndisturbedKernel(c.k, OutputParams(Params()))
  {
    SampleUnique();
    SampleStores();
    SampleScoped();
    SampleWriters();
    SampleMasks();
    SampleSafe();
    SampleSweeps();
    var ro := ReadOnlyParams(Params());
    hide Sample, Params, UniqueDefs, NeverStored, EffectsKeep, StoresFit, Scoped, Ssa, ConstFold.Foldable, Cse.MasksConsistent,
      ConstFoldPass.WritersHaveNoResult, AlgebraicCross.Safe, CopyCross.Safe, DeadStoreElim.UndisturbedKernel, ReadOnlyParams, DistinctNames;
    InputsNeverStored(Sample(), Params());
    IntegersMeetAll(ro);
    forall w ensures Ssa(CodeAt(Sample(), w)) && ConstFold.Foldable(CodeAt(Sample(), w)) { SampleSsa(w); SampleFolds(w); }
    assert Scoped(Sample(), SampleScopes());
  }
}
