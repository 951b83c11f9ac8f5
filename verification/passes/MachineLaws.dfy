/**
 Wrapping 64-bit integers satisfy every law the passes rely on, whatever the remaining
 operators do.
 */
module MachineLaws {
  import opened Ir
  import opened Semantics
  import opened Int64
  import Cse
  import AlgebraicSimplify
  import ConstFold
  import CopyProp

  lemma MachineCommutes(rest: Interp)
    ensures Cse.Commutes(Machine(rest))
  {
    var I := Machine(rest);
    forall k, a, b | Cse.IsCommutative(k) ensures I.bin(k, a, b) == I.bin(k, b, a) {
      SwapKeeps(rest, k, a, b);
    }
  }

  lemma SwapKeeps(rest: Interp, k: BinOpKind, a: Val, b: Val)
    requires Cse.IsCommutative(k)
    ensures MachineBin(rest.bin, k, a, b) == MachineBin(rest.bin, k, b, a)
  {
    BitXorCommutes(Unsigned(a), Unsigned(b));
    BitAndCommutes(Unsigned(a), Unsigned(b));
    assert a * b == b * a;
  }

  lemma MachineSimplifies(rest: Interp)
    ensures AlgebraicSimplify.Laws(Machine(rest))
  {
    hide Machine, MachineBin, MachineUn, AlgebraicSimplify.ShapeLaws, AlgebraicSimplify.Negates;
    var I := Machine(rest);
    ShapesAlias(rest);
    assert I.truthy(1) && !I.truthy(0) by { NotLaws(rest, 0); }
    forall a ensures IfDefined(I.bin(Sub, a, a), 0) && IfDefined(I.bin(Sub, 0, a), I.un(Neg, a)) { PairLaws(rest, a, a); }
    forall a ensures IfDefined(I.bin(Div, a, a), 1) && IfDefined(I.bin(Div, a, 1), a) { PairLaws(rest, a, a); }
    forall a, b ensures I.bin(Mul, I.un(Neg, a), I.un(Neg, b)) == I.bin(Mul, a, b) { PairLaws(rest, a, b); }
    forall a ensures IfDefined(I.bin(Min, a, a), a) && IfDefined(I.bin(Max, a, a), a) { PairLaws(rest, a, a); }
    forall a, b ensures I.bin(CmpLt, a, b) == I.bin(CmpGt, b, a) && I.bin(CmpLe, a, b) == I.bin(CmpGe, b, a) { PairLaws(rest, a, b); }
    forall a ensures IfDefined(I.bin(CmpEq, a, a), 1) && IfDefined(I.bin(CmpNe, a, a), 0) { PairLaws(rest, a, a); }
    forall c
      ensures AlgebraicSimplify.Negates(I, I.bin(CmpEq, c, 0), c) && AlgebraicSimplify.Negates(I, I.bin(CmpEq, 0, c), c)
      ensures AlgebraicSimplify.Negates(I, I.bin(Xor, c, 1), c) && AlgebraicSimplify.Negates(I, I.bin(Xor, 1, c), c)
    {
      NotLaws(rest, c);
    }
  }

  lemma ShapesAlias(rest: Interp)
    ensures AlgebraicSimplify.ShapeLaws(Machine(rest))
  {
  }

  lemma PairLaws(rest: Interp, a: Val, b: Val)
    ensures var I := Machine(rest);
            && IfDefined(I.bin(Sub, a, a), 0) && IfDefined(I.bin(Sub, 0, a), I.un(Neg, a))
            && IfDefined(I.bin(Div, a, a), 1) && IfDefined(I.bin(Div, a, 1), a)
            && I.bin(Mul, I.un(Neg, a), I.un(Neg, b)) == I.bin(Mul, a, b)
            && IfDefined(I.bin(Min, a, a), a) && IfDefined(I.bin(Max, a, a), a)
            && I.bin(CmpLt, a, b) == I.bin(CmpGt, b, a) && I.bin(CmpLe, a, b) == I.bin(CmpGe, b, a)
            && IfDefined(I.bin(CmpEq, a, a), 1) && IfDefined(I.bin(CmpNe, a, a), 0)
  {
    assert Machine(rest).un(Neg, a) == MachineUn(rest.un, Neg, a) && Machine(rest).un(Neg, b) == MachineUn(rest.un, Neg, b);
    Differences(rest, a);
    Quotients(rest, a);
    NegatedProduct(rest, a, b);
    Comparisons(rest, a, b);
    hide MachineBin, MachineUn;
  }

  lemma Differences(rest: Interp, a: Val)
    ensures IfDefined(MachineBin(rest.bin, Sub, a, a), 0)
    ensures IfDefined(MachineBin(rest.bin, Sub, 0, a), MachineUn(rest.un, Neg, a))
  {
    WrapIdentity(0);
  }

  lemma Comparisons(rest: Interp, a: Val, b: Val)
    ensures IfDefined(MachineBin(rest.bin, Min, a, a), a) && IfDefined(MachineBin(rest.bin, Max, a, a), a)
    ensures MachineBin(rest.bin, CmpLt, a, b) == MachineBin(rest.bin, CmpGt, b, a)
    ensures MachineBin(rest.bin, CmpLe, a, b) == MachineBin(rest.bin, CmpGe, b, a)
    ensures IfDefined(MachineBin(rest.bin, CmpEq, a, a), 1) && IfDefined(MachineBin(rest.bin, CmpNe, a, a), 0)
  {
  }

  lemma NotLaws(rest: Interp, c: Val)
    ensures var I := Machine(rest);
            && AlgebraicSimplify.Negates(I, I.bin(CmpEq, c, 0), c) && AlgebraicSimplify.Negates(I, I.bin(CmpEq, 0, c), c)
            && AlgebraicSimplify.Negates(I, I.bin(Xor, c, 1), c) && AlgebraicSimplify.Negates(I, I.bin(Xor, 1, c), c)
            && I.truthy(1) && !I.truthy(0)
  {
    hide Wrap, Pow2, XorBits, AndBits, OrBits, ShiftRight, TruncDiv;
  }

  lemma NegatedProduct(rest: Interp, a: Val, b: Val)
    ensures MachineBin(rest.bin, Mul, MachineUn(rest.un, Neg, a), MachineUn(rest.un, Neg, b)) == MachineBin(rest.bin, Mul, a, b)
  {
    if InRange(a) && InRange(b) {
      NegNegMul(a, b);
    }
  }

  lemma Quotients(rest: Interp, a: Val)
    ensures IfDefined(MachineBin(rest.bin, Div, a, a), 1)
    ensures IfDefined(MachineBin(rest.bin, Div, a, 1), a)
  {
    if a != 0 {
      var m := Magnitude(a);
      assert m / m == 1;
      assert m / 1 == m;
    }
  }

  lemma MachineFolds(rest: Interp)
    ensures ConstFold.Laws(Machine(rest))
  {
    var I := Machine(rest);
    forall k, a, b | ConstFold.EvalBinop(k, a, b).Folded? && (k == Xor ==> ConstFold.XorAgrees(a, b))
      ensures IfDefined(I.bin(k, a, b), ConstFold.EvalBinop(k, a, b).value)
    {
      BinaryMatches(rest, k, a, b);
    }
    forall k, a | ConstFold.EvalUnary(k, a).Some? && InRange(a)
      ensures I.un(k, a) == ConstFold.EvalUnary(k, a).value
    {
      UnaryMatches(rest, k, a);
    }
  }

  lemma BinaryMatches(rest: Interp, k: BinOpKind, a: Val, b: Val)
    requires ConstFold.EvalBinop(k, a, b).Folded? && (k == Xor ==> ConstFold.XorAgrees(a, b))
    ensures IfDefined(MachineBin(rest.bin, k, a, b), ConstFold.EvalBinop(k, a, b).value)
  {
    if InRange(a) && InRange(b) { ConstFold.FoldMatchesMachine(rest.bin, k, a, b); }
  }

  lemma UnaryMatches(rest: Interp, k: UnaryOpKind, a: Val)
    requires ConstFold.EvalUnary(k, a).Some? && InRange(a)
    ensures MachineUn(rest.un, k, a) == ConstFold.EvalUnary(k, a).value
  {
  }

  /** Copy propagation needs only that casting twice is casting once. */
  lemma MachineCopies(rest: Interp)
    requires forall d, a :: rest.cast(d, rest.cast(d, a)) == rest.cast(d, a)
    requires forall d, f, s :: rest.cast(d, rest.fill(f, d, s)) == rest.fill(f, d, s)
    ensures CopyProp.Laws(Machine(rest))
  {
    hide MachineBin, MachineUn;
  }
}
