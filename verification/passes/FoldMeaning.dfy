/**
 What a fold computes, kind by kind, in terms of the operands alone: quotients with
 remainders, residues modulo 2^64, and bits.
 */
module FoldMeaning {
  import opened Arith
  import opened Ir
  import opened Semantics
  import opened Int64
  import opened ConstFold

  /** The operands and results of the folder: signed 64-bit integers. */
  predicate IsI64(x: int) { -0x8000_0000_0000_0000 <= x <= 0x7FFF_FFFF_FFFF_FFFF }

  /** v is x modulo 2^64, as a signed integer. */
  predicate IsWrapped(v: int, x: int) { IsI64(v) && (v - x) % 0x1_0000_0000_0000_0000 == 0 }

  /** x doubled n times. */
  function Doubled(x: int, n: nat): int {
    if n == 0 then x else 2 * Doubled(x, n - 1)
  }

  /** Bit i of an integer in two's complement. */
  function Bit(x: int, i: nat): int
    decreases i
  {
    if i == 0 then x % 2 else Bit(x / 2, i - 1)
  }

  /** q and r are quotient and remainder of a division that truncates toward zero. */
  predicate Truncates(a: int, b: int, q: int, r: int) {
    && a == q * b + r && -r < (if b < 0 then -b else b) && r < (if b < 0 then -b else b)
    && (r == 0 || (r < 0 <==> a < 0))
  }

  predicate IsFlag(v: int, holds: bool) { v == if holds then 1 else 0 }

  /** v is the value of the operation on a and b. */
  ghost predicate Computes(k: BinOpKind, a: int, b: int, v: int) {
    match k
    case Add => IsWrapped(v, a + b)
    case Sub => IsWrapped(v, a - b)
    case Mul => IsWrapped(v, a * b)
    case Div => exists r :: Truncates(a, b, v, r)
    case Mod => exists q :: Truncates(a, b, q, v)
    case Rem => exists q :: Truncates(a, b, q, v)
    case Max => v >= a && v >= b && (v == a || v == b)
    case Min => v <= a && v <= b && (v == a || v == b)
    case And => IsFlag(v, a != 0 && b != 0)
    case Or => IsFlag(v, a != 0 || b != 0)
    case CmpLt => IsFlag(v, a < b)
    case CmpGt => IsFlag(v, b < a)
    case CmpLe => IsFlag(v, !(b < a))
    case CmpGe => IsFlag(v, !(a < b))
    case CmpEq => IsFlag(v, a == b)
    case CmpNe => IsFlag(v, a != b)
    case Shl => 0 <= b && IsWrapped(v, Doubled(a, b))
    case Shr => 0 <= b && Doubled(v, b) <= a < Doubled(v + 1, b)
    case BitAnd => IsI64(v) && forall i: nat :: i < 64 ==> Bit(v, i) == Bit(a, i) * Bit(b, i)
    case BitOr => IsI64(v) && forall i: nat :: i < 64 ==> IsFlag(Bit(v, i), Bit(a, i) == 1 || Bit(b, i) == 1)
    case BitXor => IsI64(v) && forall i: nat :: i < 64 ==> IsFlag(Bit(v, i), Bit(a, i) != Bit(b, i))
    case Xor => IsI64(v) && forall i: nat :: i < 64 ==> IsFlag(Bit(v, i), Bit(a, i) != Bit(b, i))
    case Pow => false
    case ATan2 => false
  }

  /** What happens to two literals of each kind. */
  lemma FoldsExactly(k: BinOpKind, a: int, b: int)
    ensures var f := EvalBinop(k, a, b);
            var overflow := a == -0x8000_0000_0000_0000 && b == -1;
            && (f.Unfolded? <==> k in {Pow, ATan2, Rem, Mod} || (k == Div && b == 0))
            && (f.Panics? <==> (k == Div && overflow) || (k in {Shl, Shr} && !(0 <= b < 64)))
  {
  }

  /** Every fold of two literals computes the operation of its kind. */
  lemma FoldComputes(k: BinOpKind, a: int, b: int)
    requires IsI64(a) && IsI64(b) && EvalBinop(k, a, b).Folded?
    ensures IsI64(EvalBinop(k, a, b).value) && Computes(k, a, b, EvalBinop(k, a, b).value)
  {
    match k
    case Div => Division(a, b); QuotientFits(a, b);
    case Shl => DoubledIsTimes(a, b); WrapIsWrapped(a * Pow2(b));
    case Shr => ShiftFloors(a, b); ShiftFits(a, b);
    case BitAnd => AndOfBits(a, b);
    case BitOr => OrOfBits(a, b);
    case BitXor => XorOfBits(a, b);
    case Xor => XorOfBits(a, b);
    case Add => WrapIsWrapped(a + b);
    case Sub => WrapIsWrapped(a - b);
    case Mul => WrapIsWrapped(a * b);
    case _ =>
  }

  /** The same of the emitted operators, whose exclusive or is logical. */
  lemma MachineComputes(rest: (BinOpKind, Val, Val) -> Option<Val>, k: BinOpKind, a: int, b: int)
    requires IsI64(a) && IsI64(b) && k != Pow && k != ATan2 && MachineBin(rest, k, a, b).Some?
    ensures var v := MachineBin(rest, k, a, b).value;
            if k == Xor then IsFlag(v, (a != 0) != (b != 0)) else Computes(k, a, b, v)
  {
    if k == Mod || k == Rem {
      Division(a, b);
    } else if k != Xor {
      FoldsExactly(k, a, b);
      FoldComputes(k, a, b);
      FoldMatchesMachine(rest, k, a, b);
    }
  }

  /** v is the value of the operation on a. */
  predicate UnaryResult(k: UnaryOpKind, a: int, v: int) {
    match k
    case Neg => IsWrapped(v, -a)
    case Abs => IsWrapped(v, if a < 0 then -a else a)
    case Sign => -1 <= v <= 1 && (v > 0 <==> a > 0) && (v < 0 <==> a < 0)
    case _ => v == a
  }

  /** Folds of one literal. */
  lemma UnaryComputes(k: UnaryOpKind, a: int)
    requires IsI64(a)
    ensures EvalUnary(k, a).Some? <==> k in {Neg, Abs, Sign, Trunc, Floor, Ceil, Round}
    ensures EvalUnary(k, a).Some? ==> IsI64(EvalUnary(k, a).value) && UnaryResult(k, a, EvalUnary(k, a).value)
  {
    WrapIsWrapped(-a);
    WrapIsWrapped(if a < 0 then -a else a);
  }

  // ----- residues, quotients, shifts -----

  lemma WrapIsWrapped(x: int)
    ensures IsWrapped(Wrap(x), x)
  {
    var t := WrapDifference(x);
    assert Wrap(x) - x == t * M;
  }

  lemma Division(a: int, b: int)
    requires b != 0
    ensures Truncates(a, b, TruncDiv(a, b), TruncRem(a, b))
  {
    var m: int, n: int := Magnitude(a), Magnitude(b);
    var q: int, r: int := m / n, m % n;
    assert m == q * n + r && 0 <= r < n;
    assert (-q) * n == -(q * n) && q * (-n) == -(q * n) && (-q) * (-n) == q * n;
    assert TruncDiv(a, b) * b == if a < 0 then -(q * n) else q * n;
  }

  lemma QuotientFits(a: int, b: int)
    requires IsI64(a) && IsI64(b) && b != 0 && !(a == -HALF && b == -1)
    ensures IsI64(TruncDiv(a, b))
  {
    QuotientBelow(Magnitude(a), Magnitude(b));
    hide Magnitude;
  }

  lemma QuotientBelow(m: nat, n: nat)
    requires n > 0
    ensures m / n <= m && (n > 1 && m > 0 ==> m / n < m)
  {
    MulOrder(m + 1, 1, n);
    DivBelow(m, n, m + 1);
    if n > 1 && m > 0 {
      MulOrder(m, 2, n);
      DivBelow(m, n, m);
    }
  }

  lemma {:induction false} DoubledIsTimes(x: int, n: nat)
    ensures Doubled(x, n) == x * Pow2(n)
  {
    if n > 0 {
      DoubledIsTimes(x, n - 1);
      assert x * (2 * Pow2(n - 1)) == 2 * (x * Pow2(n - 1));
    }
  }

  lemma {:induction false} ShiftFloors(a: int, n: nat)
    ensures Doubled(ShiftRight(a, n), n) <= a < Doubled(ShiftRight(a, n) + 1, n)
    decreases n
  {
    if n > 0 {
      ShiftFloors(Half(a), n - 1);
    }
  }

  lemma {:induction false} ShiftFits(a: int, n: nat)
    requires IsI64(a)
    ensures IsI64(ShiftRight(a, n))
    decreases n
  {
    if n > 0 { ShiftFits(Half(a), n - 1); }
  }

  // ----- bits -----

  lemma {:induction false} BitIsBit(x: int, i: nat)
    ensures Bit(x, i) == 0 || Bit(x, i) == 1
    decreases i
  {
    if i > 0 { BitIsBit(x / 2, i - 1); }
  }

  /** Multiples of a higher power of two do not show in a bit. */
  lemma {:induction false} BitIgnores(x: int, t: int, n: nat, i: nat)
    requires i < n
    ensures Bit(x + t * Pow2(n), i) == Bit(x, i)
    decreases i
  {
    var p := Pow2(n - 1);
    assert t * Pow2(n) == 2 * (t * p);
    if i > 0 {
      assert (x + 2 * (t * p)) / 2 == x / 2 + t * p;
      BitIgnores(x / 2, t, n - 1, i - 1);
    }
  }

  /** The unsigned reading has the same bits, and so has the signed reading of a residue. */
  lemma SameBits(x: int, i: nat)
    requires i < 64
    ensures Bit(Unsigned(x), i) == Bit(x, i)
    ensures x >= 0 ==> Bit(Signed(x), i) == Bit(x, i)
  {
    Pow2Of64();
    var t := x / M;
    assert x == Unsigned(x) + t * M;
    BitIgnores(Unsigned(x), t, 64, i);
    BitIgnores(x, -1, 64, i);
  }

  lemma {:induction false} AndBit(a: nat, b: nat, i: nat)
    ensures Bit(Int64.BitAnd(a, b), i) == Bit(a, i) * Bit(b, i)
    decreases i
  {
    if a == 0 || b == 0 {
      ZeroBit(i);
    } else {
      var low := (a % 2) * (b % 2);
      assert low == 0 || low == 1;
      if i > 0 { AndBit(a / 2, b / 2, i - 1); }
    }
  }

  lemma {:induction false} ZeroBit(i: nat)
    ensures Bit(0, i) == 0
  {
    if i > 0 { ZeroBit(i - 1); }
  }

  lemma {:induction false} OrBit(a: nat, b: nat, i: nat)
    ensures IsFlag(Bit(Int64.BitOr(a, b), i), Bit(a, i) == 1 || Bit(b, i) == 1)
    decreases i
  {
    OrHalves(a, b);
    if i > 0 { OrBit(a / 2, b / 2, i - 1); }
  }

  lemma OrHalves(a: nat, b: nat)
    ensures Int64.BitOr(a, b) % 2 == (if a % 2 == 1 || b % 2 == 1 then 1 else 0)
    ensures Int64.BitOr(a, b) / 2 == Int64.BitOr(a / 2, b / 2)
  {
    if a == 0 || b == 0 {
      assert a / 2 == 0 || b / 2 == 0;
    } else {
      var low := (a % 2) * (b % 2);
      assert low == if a % 2 == 1 && b % 2 == 1 then 1 else 0;
      var rest := Int64.BitAnd(a / 2, b / 2);
      BitAndBelow(a / 2, b / 2);
      assert Int64.BitOr(a, b) == a % 2 + b % 2 - low + 2 * (a / 2 + b / 2 - rest);
    }
  }

  lemma {:induction false} XorBit(a: nat, b: nat, i: nat)
    ensures IsFlag(Bit(Int64.BitXor(a, b), i), Bit(a, i) != Bit(b, i))
    decreases i
  {
    if a == 0 && b == 0 {
      ZeroBit(i);
    } else if i > 0 {
      XorBit(a / 2, b / 2, i - 1);
    }
  }

  lemma {:induction false} OrBelow(a: nat, b: nat, n: nat)
    requires a < Pow2(n) && b < Pow2(n)
    ensures Int64.BitOr(a, b) < Pow2(n)
    decreases n
  {
    if n > 0 {
      OrHalves(a, b);
      OrBelow(a / 2, b / 2, n - 1);
    }
  }

  lemma SignedFits(x: nat)
    requires x < M
    ensures IsI64(Signed(x))
  {
  }

  lemma AndOfBits(a: int, b: int)
    ensures IsI64(AndBits(a, b)) && forall i: nat :: i < 64 ==> Bit(AndBits(a, b), i) == Bit(a, i) * Bit(b, i)
  {
    var r := Int64.BitAnd(Unsigned(a), Unsigned(b));
    BitAndBelow(Unsigned(a), Unsigned(b));
    SignedFits(r);
    forall i: nat | i < 64 ensures Bit(AndBits(a, b), i) == Bit(a, i) * Bit(b, i) {
      SameBits(a, i); SameBits(b, i); SameBits(r, i);
      AndBit(Unsigned(a), Unsigned(b), i);
    }
  }

  lemma OrOfBits(a: int, b: int)
    ensures IsI64(OrBits(a, b)) && forall i: nat :: i < 64 ==> IsFlag(Bit(OrBits(a, b), i), Bit(a, i) == 1 || Bit(b, i) == 1)
  {
    var r := Int64.BitOr(Unsigned(a), Unsigned(b));
    Pow2Of64();
    OrBelow(Unsigned(a), Unsigned(b), 64);
    SignedFits(r);
    forall i: nat | i < 64 ensures IsFlag(Bit(OrBits(a, b), i), Bit(a, i) == 1 || Bit(b, i) == 1) {
      SameBits(a, i); SameBits(b, i); SameBits(r, i);
      OrBit(Unsigned(a), Unsigned(b), i);
    }
  }

  lemma XorOfBits(a: int, b: int)
    ensures IsI64(XorBits(a, b)) && forall i: nat :: i < 64 ==> IsFlag(Bit(XorBits(a, b), i), Bit(a, i) != Bit(b, i))
  {
    var r := Int64.BitXor(Unsigned(a), Unsigned(b));
    Pow2Of64();
    BitXorBelow(Unsigned(a), Unsigned(b), 64);
    SignedFits(r);
    forall i: nat | i < 64 ensures IsFlag(Bit(XorBits(a, b), i), Bit(a, i) != Bit(b, i)) {
      SameBits(a, i); SameBits(b, i); SameBits(r, i);
      XorBit(Unsigned(a), Unsigned(b), i);
    }
  }
}
