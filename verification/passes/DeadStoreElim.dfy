/**
 Which stores dead-store elimination drops, block by block: a store whose key is stored
 again later in the block and loaded nowhere in it; masked stores and stores to outputs
 never are.
 */
module DeadStoreElim {
  import opened Ir

  datatype StoreKey =
    | ScalarKey(dst: string, indices: seq<IndexExpr>)
    | VectorKey(dst: string, byteOffset: ValueId, len: nat)

  function KeyOfStore(op: Op): Option<StoreKey> {
    match op
    case Store(dst, indices, _, _) => Some(ScalarKey(dst, indices))
    case VectorStore(dst, off, len, _) => Some(VectorKey(dst, off, len))
    case _ => None
  }

  function KeyOfLoad(op: Op): Option<StoreKey> {
    match op
    case Load(src, indices, _, _) => Some(ScalarKey(src, indices))
    case VectorLoad(src, off, len) => Some(VectorKey(src, off, len))
    case _ => None
  }

  predicate HasMask(op: Op) { op.Store? && op.mask.Some? }

  /** A store that may be dropped, or make an earlier one superfluous. */
  predicate Candidate(op: Op, outputs: set<string>, key: StoreKey) {
    KeyOfStore(op) == Some(key) && !HasMask(op) && key.dst !in outputs
  }

  predicate IsRead(code: Code, key: StoreKey) {
    exists i :: 0 <= i < |code| && KeyOfLoad(code[i].op) == Some(key)
  }

  predicate StoredFrom(code: Code, outputs: set<string>, n: nat, key: StoreKey) {
    exists j :: n <= j < |code| && Candidate(code[j].op, outputs, key)
  }

  /** The stores the pass drops. */
  predicate IsDeadStore(code: Code, outputs: set<string>, i: nat)
    requires i < |code|
  {
    var key := KeyOfStore(code[i].op);
    key.Some? && Candidate(code[i].op, outputs, key.value) && !IsRead(code, key.value)
    && StoredFrom(code, outputs, i + 1, key.value)
  }

  /** The first n instructions, less the dead stores of the block. */
  function Swept(code: Code, outputs: set<string>, n: nat): Code
    requires n <= |code|
  {
    if n == 0 then [] else
    Swept(code, outputs, n - 1) + (if IsDeadStore(code, outputs, n - 1) then [] else [code[n - 1]])
  }

  /** What one position adds. */
  lemma SweptNext(code: Code, outputs: set<string>, n: nat)
    requires n < |code|
    ensures Swept(code, outputs, n + 1)
            == if IsDeadStore(code, outputs, n) then Swept(code, outputs, n) else Swept(code, outputs, n) + [code[n]]
  {
    hide IsDeadStore;
  }

  function SweptCode(code: Code, outputs: set<string>): Code { Swept(code, outputs, |code|) }

  /** The whole pass. */
  function SweptKernel(k: KernelValue, outputs: set<string>): KernelValue {
    KernelValue(SweptCode(k.body, outputs), map b | b in k.blocks :: SweptCode(k.blocks[b], outputs))
  }

  lemma SweptAt(k: KernelValue, outputs: set<string>, b: BlockId)
    ensures CodeOf(SweptKernel(k, outputs), b) == SweptCode(CodeOf(k, b), outputs)
  {
  }

  /** What is kept sits behind what is kept before it. */
  lemma {:induction false} KeptInOrder(code: Code, outputs: set<string>, n: nat, i: nat)
    requires i < n <= |code| && !IsDeadStore(code, outputs, i)
    ensures var kept, p := Swept(code, outputs, n), |Swept(code, outputs, i)|;
            p < |kept| && kept[p] == code[i] && kept[..p] == Swept(code, outputs, i)
  {
    hide IsDeadStore;
    if i + 1 < n {
      KeptInOrder(code, outputs, n - 1, i);
      var shorter, p := Swept(code, outputs, n - 1), |Swept(code, outputs, i)|;
      assert Swept(code, outputs, n)[..p] == shorter[..p];
    } else {
      assert Swept(code, outputs, n) == Swept(code, outputs, i) + [code[i]];
    }
  }

  /** Masked stores, stores to outputs, the last store of every key and whatever stores
      nothing are all found in the swept block, in their old order. */
  lemma KeptStores(code: Code, outputs: set<string>, i: nat)
    requires i < |code|
    requires var key := KeyOfStore(code[i].op);
             key.None? || HasMask(code[i].op) || key.value.dst in outputs || !StoredFrom(code, outputs, i + 1, key.value)
    ensures var kept, p := SweptCode(code, outputs), |Swept(code, outputs, i)|;
            p < |kept| && kept[p] == code[i] && kept[..p] == Swept(code, outputs, i)
  {
    assert !IsDeadStore(code, outputs, i);
    KeptInOrder(code, outputs, |code|, i);
  }

  lemma {:induction false} SweptFrom(code: Code, outputs: set<string>, n: nat)
    requires n <= |code|
    ensures forall ins :: ins in Swept(code, outputs, n) ==> ins in code
  {
    hide IsDeadStore;
    if n > 0 { SweptFrom(code, outputs, n - 1); }
  }

  lemma {:induction false} NothingSwept(code: Code, outputs: set<string>, n: nat)
    requires n <= |code| && forall i :: 0 <= i < n ==> !IsDeadStore(code, outputs, i)
    ensures Swept(code, outputs, n) == code[..n]
  {
    if n > 0 {
      NothingSwept(code, outputs, n - 1);
      assert code[..n] == code[..n - 1] + [code[n - 1]];
    }
  }

  /** What type checking asks of `Store` (and of `Store` alone): the target is an output. */
  predicate StoresToOutputs(k: KernelValue, outputs: set<string>) {
    && (forall ins :: ins in k.body && KeyOfStore(ins.op).Some? ==> KeyOfStore(ins.op).value.dst in outputs)
    && (forall b, ins :: b in k.blocks && ins in k.blocks[b] && KeyOfStore(ins.op).Some? ==>
          KeyOfStore(ins.op).value.dst in outputs)
  }

  /** Where every store targets an output the pass changes nothing. */
  lemma OutputsOnly(k: KernelValue, outputs: set<string>)
    requires StoresToOutputs(k, outputs)
    ensures SweptKernel(k, outputs) == k
  {
    NothingSwept(k.body, outputs, |k.body|);
    forall b | b in k.blocks ensures SweptCode(k.blocks[b], outputs) == k.blocks[b] {
      NothingSwept(k.blocks[b], outputs, |k.blocks[b]|);
      assert k.blocks[b][..|k.blocks[b]|] == k.blocks[b];
    }
    assert k.body[..|k.body|] == k.body;
  }

  // ----- what may come between a dead store and the store that overwrites it -----

  /** The instruction itself looks at the buffer, or changes it. */
  predicate Touches(ins: Instr, buf: string) {
    match ins.op
    case Load(src, _, _, _) => src == buf
    case VectorLoad(src, _, _) => src == buf
    case Store(dst, _, _, _) => dst == buf
    case VectorStore(dst, _, _, _) => dst == buf
    case Fetch(_, bufs, _) => buf in bufs && ins.res.Some?
    case Effect(_, bufs, _) => buf in bufs
    case _ => false
  }

  /** The blocks an op may run. */
  function Nested(op: Op): set<BlockId> {
    match op
    case Loop(_, _, _, _, b) => {b}
    case If(_, t, e) => {t} + OptionIds(e)
    case _ => {}
  }

  predicate AvoidsWithin(ins: Instr, safe: set<BlockId>, buf: string) {
    !Touches(ins, buf) && Nested(ins.op) <= safe
  }

  predicate CodeAvoids(code: Code, safe: set<BlockId>, buf: string) {
    forall i :: 0 <= i < |code| ==> AvoidsWithin(code[i], safe, buf)
  }

  /** Nothing in these blocks touches the buffer, nor in the blocks they run. */
  predicate ClosedOff(k: KernelValue, safe: set<BlockId>, buf: string) {
    forall b :: b in safe ==> CodeAvoids(CodeOf(k, b), safe, buf)
  }

  /** Neither the instruction nor anything it runs touches the buffer. */
  ghost predicate Avoids(k: KernelValue, ins: Instr, buf: string) {
    exists safe :: ClosedOff(k, safe, buf) && AvoidsWithin(ins, safe, buf)
  }

  /** Ops that the keys account for. */
  predicate StraightOp(op: Op) { IsValueOp(op) || op.Store? || op.VectorStore? }

  predicate Settles(op: Op, key: StoreKey) { KeyOfStore(op) == Some(key) && !HasMask(op) }

  /** The key is not stored again before position t. */
  predicate Pending(code: Code, i: nat, t: nat, key: StoreKey) {
    forall j :: i < j < t && j < |code| ==> !Settles(code[j].op, key)
  }

  /** Position t lies after a dead store and not after the store that overwrites it. */
  predicate Between(code: Code, outputs: set<string>, i: nat, t: nat) {
    i < t < |code| && IsDeadStore(code, outputs, i) && Pending(code, i, t, KeyOfStore(code[i].op).value)
  }

  /** Until a dead store's key is stored again, only loads and stores come close to its buffer. */
  ghost predicate Undisturbed(k: KernelValue, code: Code, outputs: set<string>) {
    forall i: nat, t: nat :: Between(code, outputs, i, t) ==>
      StraightOp(code[t].op) || Avoids(k, code[t], KeyOfStore(code[i].op).value.dst)
  }

  ghost predicate UndisturbedKernel(k: KernelValue, outputs: set<string>) {
    forall w :: Undisturbed(k, CodeAt(k, w), outputs)
  }

  /** Sweeping brings nothing new near a buffer. */
  lemma AvoidsSwept(k: KernelValue, outputs: set<string>, ins: Instr, buf: string)
    requires Avoids(k, ins, buf)
    ensures Avoids(SweptKernel(k, outputs), ins, buf)
  {
    hide AvoidsWithin;
    var safe :| ClosedOff(k, safe, buf) && AvoidsWithin(ins, safe, buf);
    var k' := SweptKernel(k, outputs);
    forall b | b in safe ensures CodeAvoids(CodeOf(k', b), safe, buf) {
      SweptAt(k, outputs, b);
      var code, kept := CodeOf(k, b), CodeOf(k', b);
      SweptFrom(code, outputs, |code|);
      forall i | 0 <= i < |kept| ensures AvoidsWithin(kept[i], safe, buf) {
        assert kept[i] in code;
        assert CodeAvoids(code, safe, buf);
      }
    }
    assert ClosedOff(k', safe, buf);
  }
}
