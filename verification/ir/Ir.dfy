/**
 The kernel IR: operations, blocks and kernels, as plain values.

 A block's parallel `ops`/`results` arrays are seen here as one sequence of
 instructions; `Blocks.Block` keeps the two arrays and ties them to this view.
 */
module Ir {

  datatype Option<+T> = None | Some(value: T)

  type ValueId = nat
  type BlockId = nat
  type VarId = nat

  datatype BinOpKind =
    | Add | Sub | Mul | Div | Max | Min | And | Or | Xor
    | CmpLt | CmpGt | CmpLe | CmpGe | CmpEq | CmpNe
    | Pow | ATan2 | Rem | Shl | Shr | BitAnd | BitOr | BitXor | Mod

  datatype UnaryOpKind =
    | Exp | Log | Sqrt | Rsqrt | Abs | Neg | Ceil | Floor | Recip | Sin | Cos | Erf
    | Exp2 | Log2 | Sign | Round | Trunc | Sinh | Cosh | Tan | Asin | Atan | Asinh
    | Acos | Acosh | Atanh | Expm1 | Log10 | ErfInv

  datatype ActKind = Silu | Gelu | Relu | Tanh | Sigmoid

  datatype DType = F32 | F16 | BF16 | I32 | I8 | I4 | U8 | U16 | U32 | U64 | I64 | Bool

  datatype Dim = Known(size: nat) | ConstExpr(name: string) | AnyDim
  type Shape = seq<Dim>

  datatype IndexExpr = Value(id: ValueId) | Const(index: int) | Range(id: ValueId, span: int)

  /** The operations the passes look at by name, and three classes for the rest:
      `Pure` (a function of its operands: Dot, Fma, Slice, Pack, FusedElementwise, ...),
      `Fetch` (yields a value from memory or from other threads and changes nothing:
      ThreadgroupLoad, StackLoad, Gather, StrideReduce, Reduce, SimdReduce, ...) and
      `Effect` (writes, or lets other threads see what was written, and yields nothing:
      Atomic, Barrier, ThreadgroupStore, StackStore, SetLocal, StrideStore, StrideScan, ...).
      The last two name the buffers they may touch; a barrier names every shared one. */
  datatype Op =
    | ConstOp(literal: int)
    | ProgramId(axis: nat)
    | BinOp(bin: BinOpKind, lhs: ValueId, rhs: ValueId)
    | UnaryOp(un: UnaryOpKind, arg: ValueId)
    | Cast(arg: ValueId, dtype: DType)
    | Activation(act: ActKind, arg: ValueId)
    | Select(cond: ValueId, onTrue: ValueId, onFalse: ValueId)
    | Broadcast(arg: ValueId, shape: Shape)
    | Reshape(arg: ValueId, shape: Shape)
    | ExpandDims(arg: ValueId, axis: nat)
    | Transpose(arg: ValueId)
    | Zeros(dtype: DType, shape: Shape)
    | Splat(fill: int, dtype: DType, shape: Shape)
    | Load(src: string, indices: seq<IndexExpr>, mask: Option<ValueId>, other: Option<int>)
    | VectorLoad(src: string, byteOffset: ValueId, len: nat)
    | Store(dst: string, indices: seq<IndexExpr>, stored: ValueId, mask: Option<ValueId>)
    | VectorStore(dst: string, byteOffset: ValueId, len: nat, stored: ValueId)
    | Pure(tag: string, args: seq<ValueId>)
    | Fetch(tag: string, bufs: set<string>, args: seq<ValueId>)
    | Effect(tag: string, bufs: set<string>, args: seq<ValueId>)
    | Loop(loopVar: VarId, start: ValueId, end: ValueId, step: ValueId, body: BlockId)
    | If(cond: ValueId, thenBlock: BlockId, elseBlock: Option<BlockId>)

  datatype Instr = Instr(op: Op, res: Option<ValueId>)
  type Code = seq<Instr>

  /** A kernel: the entry block and the nested blocks that `Loop`/`If` name. */
  datatype KernelValue = KernelValue(body: Code, blocks: map<BlockId, Code>)

  /** A block of a kernel: `None` is the entry block. */
  type Where = Option<BlockId>

  function CodeOf(k: KernelValue, bid: BlockId): Code {
    if bid in k.blocks then k.blocks[bid] else []
  }

  function CodeAt(k: KernelValue, w: Where): Code {
    match w
    case None => k.body
    case Some(b) => CodeOf(k, b)
  }

  /** The two ids under which a loop body refers to the induction variable
      (`0xC000_0000 | var` is the sum for every var below 2^30). */
  function LoopIds(v: VarId): set<ValueId> {
    {0xC000_0000 + v, 0x4000_0000 + v}
  }

  function IndexIds(indices: seq<IndexExpr>): set<ValueId> {
    set i | i in indices && !i.Const? :: i.id
  }

  function OptionIds(o: Option<ValueId>): set<ValueId> {
    match o case None => {} case Some(v) => {v}
  }

  /** The ids an op mentions as operands. */
  function Uses(op: Op): set<ValueId> {
    match op
    case ConstOp(_) => {}
    case ProgramId(_) => {}
    case BinOp(_, l, r) => {l, r}
    case UnaryOp(_, x) => {x}
    case Cast(x, _) => {x}
    case Activation(_, x) => {x}
    case Select(c, a, b) => {c, a, b}
    case Broadcast(x, _) => {x}
    case Reshape(x, _) => {x}
    case ExpandDims(x, _) => {x}
    case Transpose(x) => {x}
    case Zeros(_, _) => {}
    case Splat(_, _, _) => {}
    case Load(_, indices, mask, _) => IndexIds(indices) + OptionIds(mask)
    case VectorLoad(_, off, _) => {off}
    case Store(_, indices, v, mask) => IndexIds(indices) + OptionIds(mask) + {v}
    case VectorStore(_, off, _, v) => {off, v}
    case Pure(_, args) => set a | a in args
    case Fetch(_, _, args) => set a | a in args
    case Effect(_, _, args) => set a | a in args
    case Loop(_, s, e, st, _) => {s, e, st}
    case If(c, _, _) => {c}
  }

  /** Where a substitution sends an id; ids outside its domain stay. */
  function To(m: map<ValueId, ValueId>, v: ValueId): ValueId {
    if v in m then m[v] else v
  }

  function SubstIndex(i: IndexExpr, m: map<ValueId, ValueId>): IndexExpr {
    match i
    case Value(v) => Value(To(m, v))
    case Const(n) => Const(n)
    case Range(v, n) => Range(To(m, v), n)
  }

  function SubstIndices(indices: seq<IndexExpr>, m: map<ValueId, ValueId>): seq<IndexExpr> {
    seq(|indices|, i requires 0 <= i < |indices| => SubstIndex(indices[i], m))
  }

  function SubstArgs(args: seq<ValueId>, m: map<ValueId, ValueId>): seq<ValueId> {
    seq(|args|, i requires 0 <= i < |args| => To(m, args[i]))
  }

  function SubstOption(o: Option<ValueId>, m: map<ValueId, ValueId>): Option<ValueId> {
    match o case None => None case Some(v) => Some(To(m, v))
  }

  /** Every operand of the op sent through the map, all at once. */
  function Subst(op: Op, m: map<ValueId, ValueId>): Op {
    match op
    case ConstOp(_) => op
    case ProgramId(_) => op
    case BinOp(k, l, r) => BinOp(k, To(m, l), To(m, r))
    case UnaryOp(k, x) => UnaryOp(k, To(m, x))
    case Cast(x, d) => Cast(To(m, x), d)
    case Activation(k, x) => Activation(k, To(m, x))
    case Select(c, a, b) => Select(To(m, c), To(m, a), To(m, b))
    case Broadcast(x, s) => Broadcast(To(m, x), s)
    case Reshape(x, s) => Reshape(To(m, x), s)
    case ExpandDims(x, a) => ExpandDims(To(m, x), a)
    case Transpose(x) => Transpose(To(m, x))
    case Zeros(_, _) => op
    case Splat(_, _, _) => op
    case Load(src, indices, mask, other) => Load(src, SubstIndices(indices, m), SubstOption(mask, m), other)
    case VectorLoad(src, off, len) => VectorLoad(src, To(m, off), len)
    case Store(dst, indices, v, mask) => Store(dst, SubstIndices(indices, m), To(m, v), SubstOption(mask, m))
    case VectorStore(dst, off, len, v) => VectorStore(dst, To(m, off), len, To(m, v))
    case Pure(tag, args) => Pure(tag, SubstArgs(args, m))
    case Fetch(tag, bufs, args) => Fetch(tag, bufs, SubstArgs(args, m))
    case Effect(tag, bufs, args) => Effect(tag, bufs, SubstArgs(args, m))
    case Loop(v, s, e, st, b) => Loop(v, To(m, s), To(m, e), To(m, st), b)
    case If(c, t, e) => If(To(m, c), t, e)
  }

  /** Ops that only compute a value, from operands and the thread's own view of memory. */
  predicate IsValueOp(op: Op) {
    !op.Store? && !op.VectorStore? && !op.Fetch? && !op.Effect? && !op.Loop? && !op.If?
  }

  /** Ops that change nothing: if nobody uses the result, nobody misses the op. */
  predicate IsReader(op: Op) { IsValueOp(op) || op.Fetch? }

  /** An instruction sits at position `i` of block `w` and names its result `x`. */
  ghost predicate DefinedAt(k: KernelValue, w: Where, i: int, x: ValueId) {
    0 <= i < |CodeAt(k, w)| && CodeAt(k, w)[i].res == Some(x)
  }

  /** Static single assignment over the whole kernel: an id has one defining
      position, and no instruction defines a loop variable's id. */
  ghost predicate UniqueDefs(k: KernelValue) {
    && (forall w, i, v, j, x :: DefinedAt(k, w, i, x) && DefinedAt(k, v, j, x) ==> w == v && i == j)
    && (forall w, i, v, j, x ::
          DefinedAt(k, w, i, x) && 0 <= j < |CodeAt(k, v)| && CodeAt(k, v)[j].op.Loop? ==>
            x !in LoopIds(CodeAt(k, v)[j].op.loopVar))
  }

  /** The same within one block. */
  ghost predicate UniqueResults(code: Code) {
    forall i, j :: 0 <= i < |code| && 0 <= j < |code| && code[i].res.Some? && code[i].res == code[j].res ==> i == j
  }

  lemma UsesOfSubst(op: Op, m: map<ValueId, ValueId>)
    ensures Uses(Subst(op, m)) == set u | u in Uses(op) :: To(m, u)
  {
    if op.Load? || op.Store? {
      IndexIdsOfSubst(op.indices, m);
    } else if op.Pure? || op.Fetch? || op.Effect? {
      UsesOfArgs(op, op.args, m);
    } else {
      UsesOfScalars(op, m);
    }
    hide IndexIds, SubstIndices, SubstArgs;
  }

  /** The ops that name their operands one by one. */
  lemma UsesOfScalars(op: Op, m: map<ValueId, ValueId>)
    requires !op.Load? && !op.Store? && !op.Pure? && !op.Fetch? && !op.Effect?
    ensures Uses(Subst(op, m)) == set u | u in Uses(op) :: To(m, u)
  {
  }

  /** The ops that keep their operands in a list. */
  lemma UsesOfArgs(op: Op, args: seq<ValueId>, m: map<ValueId, ValueId>)
    requires (op.Pure? || op.Fetch? || op.Effect?) && op.args == args
    ensures Uses(Subst(op, m)) == set u | u in Uses(op) :: To(m, u)
  {
    ArgsOfSubst(args, m);
    assert Uses(op) == set a | a in args;
    assert Uses(Subst(op, m)) == set a | a in SubstArgs(args, m);
    hide Uses, Subst, SubstArgs, To;
  }

  lemma IndexIdsOfSubst(indices: seq<IndexExpr>, m: map<ValueId, ValueId>)
    ensures IndexIds(SubstIndices(indices, m)) == set u | u in IndexIds(indices) :: To(m, u)
  {
    var out := SubstIndices(indices, m);
    forall u | u in IndexIds(indices) ensures To(m, u) in IndexIds(out) {
      var i :| 0 <= i < |indices| && !indices[i].Const? && indices[i].id == u;
      assert out[i] in out;
    }
    forall x | x in IndexIds(out) ensures exists u :: u in IndexIds(indices) && To(m, u) == x {
      var i :| 0 <= i < |out| && !out[i].Const? && out[i].id == x;
      assert indices[i] in indices;
    }
  }

  lemma ArgsOfSubst(args: seq<ValueId>, m: map<ValueId, ValueId>)
    ensures (set a | a in SubstArgs(args, m)) == set u | u in (set a | a in args) :: To(m, u)
  {
    var out := SubstArgs(args, m);
    forall u | u in args ensures To(m, u) in out {
      var i :| 0 <= i < |args| && args[i] == u;
      assert out[i] == To(m, u);
    }
    forall x | x in out ensures exists u :: u in args && To(m, u) == x {
      var i :| 0 <= i < |out| && out[i] == x;
      assert args[i] in args;
    }
  }

  /** The empty substitution changes nothing. */
  lemma SubstNothing(op: Op)
    ensures Subst(op, map[]) == op
  {
    match op
    case Load(_, indices, mask, _) => assert SubstIndices(indices, map[]) == indices;
    case Store(_, indices, v, mask) => assert SubstIndices(indices, map[]) == indices;
    case Pure(_, args) => assert SubstArgs(args, map[]) == args;
    case Fetch(_, _, args) => assert SubstArgs(args, map[]) == args;
    case Effect(_, _, args) => assert SubstArgs(args, map[]) == args;
    case _ =>
  }
}
