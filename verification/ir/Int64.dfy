/**
 Wrapping 64-bit integers: what the emitted code computes on them, and an
 interpretation built from it. Outside the 64-bit range operators are undefined.
 */
module Int64 {
  import opened Ir
  import opened Semantics

  const M: int := 0x1_0000_0000_0000_0000
  const HALF: int := 0x8000_0000_0000_0000

  predicate InRange(x: int) { -HALF <= x < HALF }

  /** Two's complement reduction to the range. */
  function Wrap(x: int): (r: int)
    ensures InRange(r)
  {
    (x + HALF) % M - HALF
  }

  function Unsigned(x: int): (r: nat)
    ensures r < M
  {
    x % M
  }

  function Signed(x: nat): int { if x >= HALF then x - M else x }

  /** Division truncating toward zero. */
  function TruncDiv(a: int, b: int): int
    requires b != 0
  {
    var q := Magnitude(a) / Magnitude(b);
    if (a < 0) != (b < 0) then -q else q
  }

  function Magnitude(a: int): nat { if a < 0 then -a else a }

  function TruncRem(a: int, b: int): int
    requires b != 0
  {
    a - TruncDiv(a, b) * b
  }

  function Pow2(n: nat): (r: nat)
    ensures r > 0
  {
    if n == 0 then 1 else 2 * Pow2(n - 1)
  }

  lemma {:induction false} Pow2Adds(m: nat, n: nat)
    ensures Pow2(m + n) == Pow2(m) * Pow2(n)
  {
    if m > 0 {
      Pow2Adds(m - 1, n);
      assert 2 * (Pow2(m - 1) * Pow2(n)) == (2 * Pow2(m - 1)) * Pow2(n);
    }
  }

  lemma Pow2Of64()
    ensures Pow2(64) == M
  {
    assert Pow2(8) == 256;
    Pow2Adds(8, 8);
    Pow2Adds(16, 16);
    Pow2Adds(32, 32);
  }

  // ----- bits -----

  function BitXor(a: nat, b: nat): nat {
    if a == 0 && b == 0 then 0 else (a + b) % 2 + 2 * BitXor(a / 2, b / 2)
  }

  function BitAnd(a: nat, b: nat): nat {
    if a == 0 || b == 0 then 0 else (a % 2) * (b % 2) + 2 * BitAnd(a / 2, b / 2)
  }

  function BitOr(a: nat, b: nat): nat {
    BitAndBelow(a, b);
    a + b - BitAnd(a, b)
  }

  lemma {:induction false} BitAndBelow(a: nat, b: nat)
    ensures BitAnd(a, b) <= a && BitAnd(a, b) <= b
  {
    if a != 0 && b != 0 { BitAndBelow(a / 2, b / 2); }
  }

  lemma {:induction false} BitXorZero(b: nat)
    ensures BitXor(0, b) == b && BitXor(b, 0) == b
  {
    if b != 0 { BitXorZero(b / 2); }
  }

  lemma {:induction false} BitXorBelow(a: nat, b: nat, n: nat)
    requires a < Pow2(n) && b < Pow2(n)
    ensures BitXor(a, b) < Pow2(n)
    decreases n
  {
    if n > 0 { BitXorBelow(a / 2, b / 2, n - 1); }
  }

  lemma {:induction false} BitXorEqual(a: nat, b: nat)
    ensures BitXor(a, b) == 0 <==> a == b
  {
    if a != 0 || b != 0 { BitXorEqual(a / 2, b / 2); }
  }

  lemma {:induction false} BitXorCommutes(a: nat, b: nat)
    ensures BitXor(a, b) == BitXor(b, a)
  {
    if a != 0 || b != 0 { BitXorCommutes(a / 2, b / 2); }
  }

  lemma {:induction false} BitAndCommutes(a: nat, b: nat)
    ensures BitAnd(a, b) == BitAnd(b, a)
  {
    if a != 0 && b != 0 { BitAndCommutes(a / 2, b / 2); }
  }

  lemma SignedUnsigned(x: int)
    requires InRange(x)
    ensures Signed(Unsigned(x)) == x
  {
    if x < 0 { assert x + M == Unsigned(x) by { ModShift(x + M); } }
  }

  /** Adding a multiple of 2^64 changes no residue. */
  lemma ModShift(x: int)
    ensures x % M == (x - M) % M
  {
  }

  function XorBits(a: int, b: int): int { Signed(BitXor(Unsigned(a), Unsigned(b))) }
  function AndBits(a: int, b: int): int { Signed(BitAnd(Unsigned(a), Unsigned(b))) }
  function OrBits(a: int, b: int): int { Signed(BitOr(Unsigned(a), Unsigned(b))) }

  function Truth(b: bool): int { if b then 1 else 0 }

  // ----- what the emitted operators compute -----

  /** `rest` stands for the floating-point operators `Pow` and `ATan2`. */
  function MachineBin(rest: (BinOpKind, Val, Val) -> Option<Val>, k: BinOpKind, a: Val, b: Val): Option<Val> {
    if !InRange(a) || !InRange(b) then None else
    match k
    case Add => Some(Wrap(a + b))
    case Sub => Some(Wrap(a - b))
    case Mul => Some(Wrap(a * b))
    case Div => if b == 0 || (a == -HALF && b == -1) then None else Some(TruncDiv(a, b))
    case Mod => if b == 0 || (a == -HALF && b == -1) then None else Some(TruncRem(a, b))
    case Rem => if b == 0 || (a == -HALF && b == -1) then None else Some(TruncRem(a, b))
    case Max => Some(if a < b then b else a)
    case Min => Some(if a < b then a else b)
    case And => Some(Truth(a != 0 && b != 0))
    case Or => Some(Truth(a != 0 || b != 0))
    case Xor => Some(Truth((a != 0) != (b != 0)))
    case CmpLt => Some(Truth(a < b))
    case CmpGt => Some(Truth(a > b))
    case CmpLe => Some(Truth(a <= b))
    case CmpGe => Some(Truth(a >= b))
    case CmpEq => Some(Truth(a == b))
    case CmpNe => Some(Truth(a != b))
    case Shl => if 0 <= b < 64 then Some(Wrap(a * Pow2(b))) else None
    case Shr => if 0 <= b < 64 then Some(ShiftRight(a, b)) else None
    case BitAnd => Some(AndBits(a, b))
    case BitOr => Some(OrBits(a, b))
    case BitXor => Some(XorBits(a, b))
    case Pow => rest(k, a, b)
    case ATan2 => rest(k, a, b)
  }

  function ShiftRight(a: int, n: nat): int
    decreases n
  {
    if n == 0 then a else ShiftRight(Half(a), n - 1)
  }

  /** Arithmetic shift by one: rounds toward minus infinity. */
  function Half(a: int): int { (a - a % 2) / 2 }

  function Sgn(a: int): int { if a < 0 then -1 else if a == 0 then 0 else 1 }

  function MachineUn(rest: (UnaryOpKind, Val) -> Val, k: UnaryOpKind, a: Val): Val {
    if !InRange(a) then a else
    match k
    case Neg => Wrap(-a)
    case Abs => Wrap(Magnitude(a))
    case Sign => Sgn(a)
    case Trunc => a
    case Floor => a
    case Ceil => a
    case Round => a
    case _ => rest(k, a)
  }

  /** Any interpretation, with its arithmetic replaced by that of 64-bit integers and
      its shape operations by what the code generators emit for scalars: aliases. */
  ghost function Machine(rest: Interp): Interp {
    rest.(bin := (k: BinOpKind, a: Val, b: Val) => MachineBin(rest.bin, k, a, b),
          un := (k: UnaryOpKind, a: Val) => MachineUn(rest.un, k, a),
          truthy := (a: Val) => a != 0,
          broadcast := (s: Shape, a: Val) => a,
          reshape := (s: Shape, a: Val) => a,
          expandDims := (n: nat, a: Val) => a,
          transpose := (a: Val) => a)
  }

  // ----- arithmetic of Wrap -----

  lemma WrapIdentity(x: int)
    requires InRange(x)
    ensures Wrap(x) == x
  {
  }

  lemma {:induction false} WrapShift(x: int, t: int)
    ensures Wrap(x + t * M) == Wrap(x)
    decreases if t < 0 then -t else t
  {
    if t > 0 {
      WrapShift(x, t - 1);
      WrapOnce(x + (t - 1) * M);
    } else if t < 0 {
      WrapShift(x, t + 1);
      WrapOnce(x + t * M);
    }
  }

  lemma WrapOnce(x: int)
    ensures Wrap(x + M) == Wrap(x)
  {
    ModShift(x + HALF + M);
  }

  /** Wrapping subtracts a multiple of 2^64. */
  lemma WrapDifference(x: int) returns (t: int)
    ensures Wrap(x) == x + t * M
  {
    t := -((x + HALF) / M);
  }

  lemma NegNegMul(a: int, b: int)
    ensures Wrap(Wrap(-a) * Wrap(-b)) == Wrap(a * b)
  {
    var s := WrapDifference(-a);
    var t := WrapDifference(-b);
    var k := -a * t - b * s + s * t * M;
    assert (-a + s * M) * (-b + t * M) == a * b + k * M;
    WrapShift(a * b, k);
  }
}
