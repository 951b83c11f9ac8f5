/**
 What dead-store elimination gets rid of and what it never touches, in terms of the
 kernel's parameters.
 */
module DeadStoreGone {
  import opened Ir
  import opened Blocks
  import opened DeadStoreElim

  /** Two unmasked stores to one place. */
  predicate SamePlace(a: Op, b: Op) {
    (a.Store? && b.Store? && a.dst == b.dst && a.indices == b.indices && a.mask == None && b.mask == None)
    || (a.VectorStore? && b.VectorStore? && a.dst == b.dst && a.byteOffset == b.byteOffset && a.len == b.len)
  }

  /** A load from where a stores. */
  predicate LoadsPlace(op: Op, a: Op) {
    (a.Store? && op.Load? && op.src == a.dst && op.indices == a.indices)
    || (a.VectorStore? && op.VectorLoad? && op.src == a.dst && op.byteOffset == a.byteOffset && op.len == a.len)
  }

  predicate LoadedIn(code: Code, a: Op) {
    exists i :: 0 <= i < |code| && LoadsPlace(code[i].op, a)
  }

  /** A store to an output parameter is in the swept block. */
  lemma OutputStoresStay(k: KernelValue, params: seq<Param>, w: Where, i: nat)
    requires i < |CodeAt(k, w)| && (CodeAt(k, w)[i].op.Store? || CodeAt(k, w)[i].op.VectorStore?)
    requires exists p :: p in params && p.isOutput && p.name == CodeAt(k, w)[i].op.dst
    ensures CodeAt(k, w)[i] in CodeAt(SweptKernel(k, OutputParams(params)), w)
  {
    var outs, code := OutputParams(params), CodeAt(k, w);
    assert code[i].op.dst in outs;
    KeptStores(code, outs, i);
    if w.Some? { SweptAt(k, outs, w.value); }
  }

  /** Where kept instructions come from, in order. */
  lemma {:induction false} KeptFrom(code: Code, outputs: set<string>, n: nat, p: nat) returns (o: nat)
    requires n <= |code| && p < |Swept(code, outputs, n)|
    ensures o < n && code[o] == Swept(code, outputs, n)[p] && !IsDeadStore(code, outputs, o) && |Swept(code, outputs, o)| == p
  {
    hide IsDeadStore;
    SweptNext(code, outputs, n - 1);
    if p < |Swept(code, outputs, n - 1)| {
      o := KeptFrom(code, outputs, n - 1, p);
    } else {
      o := n - 1;
    }
  }

  lemma {:induction false} SweptGrows(code: Code, outputs: set<string>, m: nat, n: nat)
    requires m <= n <= |code|
    ensures |Swept(code, outputs, m)| <= |Swept(code, outputs, n)|
  {
    hide IsDeadStore;
    if m < n {
      SweptNext(code, outputs, n - 1);
      SweptGrows(code, outputs, m, n - 1);
    }
  }

  /** In the swept block no two unmasked stores go to one place of a buffer that is no output
      and not loaded from there. */
  lemma NoPairLeft(code: Code, params: seq<Param>, p: nat, q: nat)
    requires p < q < |SweptCode(code, OutputParams(params))|
    ensures var kept := SweptCode(code, OutputParams(params));
            !(SamePlace(kept[p].op, kept[q].op) && !IsOutput(params, kept[p].op.dst) && !LoadedIn(kept, kept[p].op))
  {
    var outs := OutputParams(params);
    var kept := SweptCode(code, outs);
    var o := KeptFrom(code, outs, |code|, p);
    var o' := KeptFrom(code, outs, |code|, q);
    if o' <= o { SweptGrows(code, outs, o', o); }
    hide Swept;
    var a := kept[p].op;
    if SamePlace(a, kept[q].op) && !IsOutput(params, a.dst) {
      InputsAreReadOnly(params, a.dst);
      var key := KeyOfStore(a).value;
      assert Candidate(code[o'].op, outs, key);
      assert StoredFrom(code, outs, o + 1, key);
      assert IsRead(code, key);
      LoadKept(code, outs, key, a);
    }
  }

  lemma LoadKept(code: Code, outputs: set<string>, key: StoreKey, a: Op)
    requires KeyOfStore(a) == Some(key) && IsRead(code, key)
    ensures LoadedIn(SweptCode(code, outputs), a)
  {
    var i :| 0 <= i < |code| && KeyOfLoad(code[i].op) == Some(key);
    KeptStores(code, outputs, i);
    assert LoadsPlace(SweptCode(code, outputs)[|Swept(code, outputs, i)|].op, a);
  }
}
