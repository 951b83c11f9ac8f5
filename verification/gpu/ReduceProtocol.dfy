/**
 The two-level threadgroup reduction as a protocol between warps, run any number of
 times over one shared buffer. A schedule says which warp moves next; between barriers
 every order is possible. `guarded` is the trailing barrier of the CUDA form; the MSL
 form has none.
 */
module ReduceProtocol {
  import opened Folds
  import Int64
  import Schedules
  import Warp

  datatype Config<!T> = Config(m: Monoid<T>, warps: nat, lanes: nat, input: nat -> seq<T>, limit: nat, guarded: bool)

  /** A warp's iteration and phase: 0 publish, 1 wait, 2 load totals, 3 store result,
      4 wait, 5 read result, 6 wait (guarded form only). */
  datatype Pc = Pc(iter: nat, phase: nat)

  /** `wv` is warp 0's register; `out[w]` is what warp w has read, iteration by iteration. */
  datatype Sys<T> = Sys(buf: seq<T>, pc: seq<Pc>, wv: T, out: seq<seq<T>>)

  ghost predicate Valid<T(!new)>(c: Config<T>) {
    && Lawful(c.m) && 1 <= c.warps <= 32 && c.warps <= c.lanes
    && forall t :: |c.input(t)| == c.warps * c.lanes
  }

  function Share<T>(c: Config<T>, t: nat, w: nat): (share: seq<T>)
    requires |c.input(t)| == c.warps * c.lanes && w < c.warps
    ensures |share| == c.lanes
  {
    EndOfShare(c.warps, c.lanes, w);
    c.input(t)[w * c.lanes..w * c.lanes + c.lanes]
  }

  lemma EndOfShare(warps: nat, lanes: nat, w: nat)
    requires w < warps
    ensures w * lanes + lanes <= warps * lanes
  {
    assert warps * lanes == w * lanes + lanes + (warps - w - 1) * lanes;
  }

  /** Lane 0 of a shuffle-down tree over the warp's inputs (`Warp.ReduceDown`). */
  function Partial<T>(c: Config<T>, t: nat, w: nat): T
    requires |c.input(t)| == c.warps * c.lanes && w < c.warps
  {
    Fold(c.m, Share(c, t, w))
  }

  function Total<T>(c: Config<T>, t: nat): T { Fold(c.m, c.input(t)) }

  /** What warp 0's lanes load: the published totals, padded with the identity. */
  function Gather<T>(c: Config<T>, buf: seq<T>): seq<T>
    requires c.warps <= |buf|
  {
    seq(c.lanes, l => if 0 <= l < c.warps then buf[l] else c.m.unit)
  }

  /** Phase 0 of a warp: the shuffle tree over its share, then lane 0 publishes. */
  method Publish<T(!new)>(c: Config<T>, t: nat, w: nat, buf: array<T>, ghost n: nat)
    requires Valid(c) && w < c.warps && c.lanes == Int64.Pow2(n) && c.warps <= buf.Length
    modifies buf
    ensures buf[..] == old(buf[..])[w := Partial(c, t, w)]
  {
    hide Lawful, Fold, Share, Int64.Pow2;
    var share := Share(c, t, w);
    hide Valid;
    var lanes := Warp.ReduceDown(c.m, share, n);
    buf[w] := lanes[0];
  }

  /** Phase 2 of warp 0: the same tree over the published totals. */
  method CombineTotals<T(!new)>(c: Config<T>, buf: array<T>, ghost n: nat) returns (wv: T)
    requires Valid(c) && c.lanes == Int64.Pow2(n) && c.warps <= buf.Length
    ensures wv == Fold(c.m, Gather(c, buf[..]))
  {
    var lanes := Warp.ReduceDown(c.m, Gather(c, buf[..]), n);
    wv := lanes[0];
  }

  predicate Shape<T>(c: Config<T>, s: Sys<T>) {
    && |s.buf| == 32 && |s.pc| == |s.out| == c.warps
    && forall w :: 0 <= w < c.warps ==> s.pc[w].phase <= (if c.guarded then 6 else 5)
  }

  predicate IsWait(ph: nat) { ph == 1 || ph == 4 || ph == 6 }

  predicate Reached(p: Pc, q: Pc) { p.iter > q.iter || (p.iter == q.iter && p.phase >= q.phase) }

  /** A barrier opens when every warp has arrived at it. */
  predicate Enabled<T>(c: Config<T>, s: Sys<T>, w: nat)
    requires Shape(c, s)
  {
    && w < c.warps && s.pc[w].iter < c.limit
    && (IsWait(s.pc[w].phase) ==> forall v :: 0 <= v < c.warps ==> Reached(s.pc[v], s.pc[w]))
  }

  function Moved<T>(c: Config<T>, s: Sys<T>, w: nat): Pc
    requires Shape(c, s) && w < c.warps
  {
    var p := s.pc[w];
    if p.phase == (if c.guarded then 6 else 5) then Pc(p.iter + 1, 0) else Pc(p.iter, p.phase + 1)
  }

  function Next<T(!new)>(c: Config<T>, s: Sys<T>, w: nat): (s': Sys<T>)
    requires 1 <= c.warps <= 32 && Shape(c, s) && w < c.warps && |c.input(s.pc[w].iter)| == c.warps * c.lanes
    ensures Shape(c, s')
  {
    var p := s.pc[w];
    var s1 := s.(pc := s.pc[w := Moved(c, s, w)]);
    if p.phase == 0 then s1.(buf := s.buf[w := Partial(c, p.iter, w)])
    else if p.phase == 2 && w == 0 then s1.(wv := Fold(c.m, Gather(c, s.buf)))
    else if p.phase == 3 && w == 0 then s1.(buf := s.buf[0 := s.wv])
    else if p.phase == 5 then s1.(out := s.out[w := s.out[w] + [s.buf[0]]])
    else s1
  }

  ghost predicate Start<T(!new)>(c: Config<T>, s: Sys<T>) {
    Shape(c, s) && forall w :: 0 <= w < c.warps ==> s.pc[w] == Pc(0, 0) && s.out[w] == []
  }

  /** The state after a schedule; picking a warp that cannot move changes nothing. */
  ghost function After<T(!new)>(c: Config<T>, s: Sys<T>, schedule: seq<nat>): (s': Sys<T>)
    requires Valid(c) && Shape(c, s)
    ensures Shape(c, s')
    decreases |schedule|
  {
    if schedule == [] then s else
    After(c, if Enabled(c, s, schedule[0]) then Next(c, s, schedule[0]) else s, schedule[1..])
  }

  /** Every warp has read, in each iteration it has finished, the fold of all threads' inputs. */
  ghost predicate Correct<T(!new)>(c: Config<T>, s: Sys<T>)
    requires Shape(c, s)
  {
    forall w :: 0 <= w < c.warps ==>
      && |s.out[w]| == s.pc[w].iter + (if s.pc[w].phase == 6 then 1 else 0)
      && forall t: nat :: t < |s.out[w]| ==> s.out[w][t] == Total(c, t)
  }

  // ----- the invariant -----

  /** How many barriers a warp has passed. */
  function Passed(guarded: bool, p: Pc): nat {
    if guarded then 3 * p.iter + (if p.phase <= 1 then 0 else if p.phase <= 4 then 1 else 2)
    else 2 * p.iter + (if p.phase <= 1 then 0 else if p.phase <= 4 then 1 else 2)
  }

  /** A warp is at most one barrier behind another, and then it is the one being waited for. */
  ghost predicate InStep<T(!new)>(c: Config<T>, s: Sys<T>, v: nat, w: nat)
    requires Shape(c, s) && v < c.warps && w < c.warps
  {
    var e, d := Passed(c.guarded, s.pc[w]), Passed(c.guarded, s.pc[v]);
    e <= d || (e == d + 1 && IsWait(s.pc[v].phase))
  }

  ghost predicate Slot<T(!new)>(c: Config<T>, s: Sys<T>, w: nat)
    requires Valid(c) && Shape(c, s) && w < c.warps
  {
    var p := s.pc[w];
    && (w > 0 && p.phase >= 1 ==> s.buf[w] == Partial(c, p.iter, w))
    && (w == 0 && 1 <= p.phase <= 3 ==> s.buf[0] == Partial(c, p.iter, 0))
    && (w == 0 && p.phase == 3 ==> s.wv == Total(c, p.iter))
    && (w == 0 && p.phase >= 4 ==> s.buf[0] == Total(c, p.iter))
    && (w == 0 && p.phase == 0 && p.iter > 0 ==> s.buf[0] == Total(c, p.iter - 1))
  }

  ghost predicate Bounded<T(!new)>(c: Config<T>, s: Sys<T>)
    requires Shape(c, s)
  {
    forall w :: 0 <= w < c.warps ==> s.pc[w].iter < c.limit || s.pc[w] == Pc(c.limit, 0)
  }

  /** Running the protocol again before everyone has read is what needs the guard. */
  predicate Reentrant<T>(c: Config<T>) { c.guarded || c.limit <= 1 || c.warps == 1 }

  ghost predicate Inv<T(!new)>(c: Config<T>, s: Sys<T>) {
    && Valid(c) && Shape(c, s)
    && (forall v: nat, w: nat :: v < c.warps && w < c.warps ==> InStep(c, s, v, w))
    && (forall w: nat :: w < c.warps ==> Slot(c, s, w))
    && Bounded(c, s)
    && Correct(c, s)
  }

  lemma InvStarts<T(!new)>(c: Config<T>, s: Sys<T>)
    requires Valid(c) && Start(c, s)
    ensures Inv(c, s)
  {
  }

  // ----- the partial folds -----

  function Front<T>(c: Config<T>, t: nat, k: nat): seq<T>
    requires |c.input(t)| == c.warps * c.lanes && k <= c.warps
  {
    FrontEnd(c.warps, c.lanes, k);
    c.input(t)[..k * c.lanes]
  }

  lemma FrontEnd(warps: nat, lanes: nat, k: nat)
    requires k <= warps
    ensures k * lanes <= warps * lanes
  {
    assert warps * lanes == k * lanes + (warps - k) * lanes;
  }

  lemma FrontNext<T>(c: Config<T>, t: nat, k: nat)
    requires |c.input(t)| == c.warps * c.lanes && k < c.warps
    ensures Front(c, t, k + 1) == Front(c, t, k) + Share(c, t, k)
  {
    assert (k + 1) * c.lanes == k * c.lanes + c.lanes;
  }

  function Partials<T>(c: Config<T>, t: nat, k: nat): (r: seq<T>)
    requires |c.input(t)| == c.warps * c.lanes && k <= c.warps
    ensures |r| == k
  {
    seq(k, w requires 0 <= w < k => Partial(c, t, w))
  }

  lemma PartialsNext<T>(c: Config<T>, t: nat, k: nat)
    requires |c.input(t)| == c.warps * c.lanes && k < c.warps
    ensures Partials(c, t, k + 1) == Partials(c, t, k) + [Partial(c, t, k)]
    ensures Partial(c, t, k) == Fold(c.m, Share(c, t, k))
  {
  }

  lemma FoldNothing<T>(c: Config<T>, t: nat)
    requires |c.input(t)| == c.warps * c.lanes
    ensures Fold(c.m, Partials(c, t, 0)) == Fold(c.m, Front(c, t, 0)) == c.m.unit
  {
  }

  lemma {:induction false} PartialsFold<T(!new)>(c: Config<T>, t: nat, k: nat)
    requires Valid(c) && k <= c.warps
    ensures Fold(c.m, Partials(c, t, k)) == Fold(c.m, Front(c, t, k))
  {
    hide Lawful, Fold, Partials, Front, Share, Partial;
    if k == 0 {
      FoldNothing(c, t);
    } else {
      PartialsFold(c, t, k - 1);
      PartialsNext(c, t, k - 1);
      FrontNext(c, t, k - 1);
      FoldSnoc(c.m, Partials(c, t, k - 1), Partial(c, t, k - 1));
      FoldConcat(c.m, Front(c, t, k - 1), Share(c, t, k - 1));
    }
  }

  lemma {:induction false} FoldUnits<T(!new)>(m: Monoid<T>, s: seq<T>)
    requires Lawful(m) && forall i :: 0 <= i < |s| ==> s[i] == m.unit
    ensures Fold(m, s) == m.unit
  {
    if s != [] { FoldUnits(m, s[..|s| - 1]); }
  }

  /** The published totals, padded, fold to the total of all threads. */
  lemma GatherFolds<T(!new)>(c: Config<T>, t: nat, buf: seq<T>)
    requires Valid(c) && c.warps <= |buf| && forall w: nat :: w < c.warps ==> buf[w] == Partial(c, t, w)
    ensures Fold(c.m, Gather(c, buf)) == Total(c, t)
  {
    var pad := Gather(c, buf)[c.warps..];
    assert Gather(c, buf) == Partials(c, t, c.warps) + pad;
    FoldConcat(c.m, Partials(c, t, c.warps), pad);
    FoldUnits(c.m, pad);
    PartialsFold(c, t, c.warps);
    assert Front(c, t, c.warps) == c.input(t);
    Exchange(c.m, Total(c, t), c.m.unit, c.m.unit);
  }

  // ----- one step -----

  lemma InStepKept<T(!new)>(c: Config<T>, s: Sys<T>, w: nat, a: nat, b: nat)
    requires Inv(c, s) && Enabled(c, s, w) && a < c.warps && b < c.warps
    ensures InStep(c, Next(c, s, w), a, b)
  {
    hide Slot, Bounded, Correct, Valid;
    assert InStep(c, s, a, b) && InStep(c, s, b, a);
    assert Next(c, s, w).pc == s.pc[w := Moved(c, s, w)] by { assert Valid(c); ValidInput(c, s.pc[w].iter); }
    if IsWait(s.pc[w].phase) { assert Reached(s.pc[a], s.pc[w]) && Reached(s.pc[b], s.pc[w]); }
  }

  lemma ValidInput<T(!new)>(c: Config<T>, t: nat)
    requires Valid(c)
    ensures |c.input(t)| == c.warps * c.lanes && 1 <= c.warps <= 32
  {
  }

  /** When warp 0 loads, every other warp's slot holds its partial of this iteration. */
  lemma SlotsReady<T(!new)>(c: Config<T>, s: Sys<T>, v: nat)
    requires Inv(c, s) && s.pc[0].phase == 2 && v < c.warps
    ensures s.buf[v] == Partial(c, s.pc[0].iter, v)
  {
    assert InStep(c, s, 0, v) && InStep(c, s, v, 0) && Slot(c, s, v);
  }

  /** When a warp reads, the slot it reads holds the total of its iteration. */
  lemma ResultReady<T(!new)>(c: Config<T>, s: Sys<T>, w: nat)
    requires Inv(c, s) && Reentrant(c) && w < c.warps && s.pc[w].phase == 5
    ensures s.buf[0] == Total(c, s.pc[w].iter)
  {
    assert InStep(c, s, 0, w) && InStep(c, s, w, 0) && Slot(c, s, 0);
  }

  lemma SlotKept<T(!new)>(c: Config<T>, s: Sys<T>, w: nat, a: nat)
    requires Inv(c, s) && Enabled(c, s, w) && a < c.warps
    ensures Slot(c, Next(c, s, w), a)
  {
    assert Slot(c, s, a);
    if s.pc[w].phase == 2 && w == 0 {
      forall v: nat | v < c.warps ensures s.buf[v] == Partial(c, s.pc[0].iter, v) { SlotsReady(c, s, v); }
      GatherFolds(c, s.pc[0].iter, s.buf);
    }
    hide Inv, InStep, Correct, Bounded, Lawful, Gather, Partial, Total;
  }

  lemma CorrectKept<T(!new)>(c: Config<T>, s: Sys<T>, w: nat)
    requires Inv(c, s) && Enabled(c, s, w) && Reentrant(c)
    ensures Correct(c, Next(c, s, w)) && Bounded(c, Next(c, s, w))
  {
    if s.pc[w].phase == 5 { ResultReady(c, s, w); }
  }

  lemma StepKeeps<T(!new)>(c: Config<T>, s: Sys<T>, w: nat)
    requires Inv(c, s) && Enabled(c, s, w) && Reentrant(c)
    ensures Inv(c, Next(c, s, w))
  {
    var s' := Next(c, s, w);
    CorrectKept(c, s, w);
    forall a: nat, b: nat | a < c.warps && b < c.warps ensures InStep(c, s', a, b) { InStepKept(c, s, w, a, b); }
    forall a: nat | a < c.warps ensures Slot(c, s', a) { SlotKept(c, s, w, a); }
    hide Next, InStep, Slot, Correct, Bounded;
  }

  /** Under every schedule, every warp reads in iteration t the fold of all threads'
      inputs of iteration t: always in the guarded form; without the guard when the
      reduction runs once or there is one warp. */
  lemma {:induction false} EverySchedule<T(!new)>(c: Config<T>, s: Sys<T>, schedule: seq<nat>)
    requires Inv(c, s) && Reentrant(c)
    ensures Inv(c, After(c, s, schedule))
    decreases |schedule|
  {
    if schedule != [] {
      if Enabled(c, s, schedule[0]) { StepKeeps(c, s, schedule[0]); }
      hide Inv, Next, Enabled, Reentrant;
      EverySchedule(c, if Enabled(c, s, schedule[0]) then Next(c, s, schedule[0]) else s, schedule[1..]);
    }
  }

  ghost predicate AlwaysCorrect<T(!new)>(c: Config<T>)
    requires Valid(c)
  {
    forall s: Sys<T>, schedule: seq<nat> :: Start(c, s) ==> Correct(c, After(c, s, schedule))
  }

  lemma ReductionIsCorrect<T(!new)>(c: Config<T>)
    requires Valid(c) && Reentrant(c)
    ensures AlwaysCorrect(c)
  {
    forall s: Sys<T>, schedule: seq<nat> | Start(c, s) ensures Correct(c, After(c, s, schedule)) {
      InvStarts(c, s);
      EverySchedule(c, s, schedule);
    }
  }

  // ----- no deadlock -----

  /** The warp that is furthest behind, among the first k. */
  /** While a warp has iterations left, some warp can move. */
  lemma NoDeadlock<T(!new)>(c: Config<T>, s: Sys<T>)
    requires Inv(c, s) && exists w: nat :: w < c.warps && s.pc[w].iter < c.limit
    ensures exists w: nat :: Enabled(c, s, w)
  {
    var w := Schedules.Last(s.pc, Reached, c.warps);
    var v: nat :| v < c.warps && s.pc[v].iter < c.limit;
    assert Reached(s.pc[v], s.pc[w]);
    assert Enabled(c, s, w);
  }

  // ----- the guard is needed -----

  /** Every thread contributes 0 in the first iteration and 1 in the later ones. */
  function Racy(warps: nat, lanes: nat, limit: nat): Config<int> {
    Config(Monoid(0, (a: int, b: int) => a + b), warps, lanes,
           (t: nat) => seq(warps * lanes, i => if t == 0 then 0 else 1), limit, false)
  }

  lemma {:induction false} FoldOnes(s: seq<int>, x: int)
    requires forall i :: 0 <= i < |s| ==> s[i] == x
    ensures Fold(Monoid(0, (a: int, b: int) => a + b), s) == x * |s|
  {
    if s != [] { FoldOnes(s[..|s| - 1], x); }
  }

  lemma {:induction false} AfterConcat<T(!new)>(c: Config<T>, s: Sys<T>, a: seq<nat>, b: seq<nat>)
    requires Valid(c) && Shape(c, s)
    ensures After(c, s, a + b) == After(c, After(c, s, a), b)
    decreases |a|
  {
    if a == [] {
      assert a + b == b;
    } else {
      assert (a + b)[1..] == a[1..] + b;
      hide Valid, Enabled, Next;
      AfterConcat(c, if Enabled(c, s, a[0]) then Next(c, s, a[0]) else s, a[1..], b);
    }
  }

  /** The first k warps are one phase ahead of the others. */
  ghost predicate Level<T(!new)>(c: Config<T>, s: Sys<T>, ph: nat, k: nat) {
    Shape(c, s) && forall w :: 0 <= w < c.warps ==> s.pc[w] == Pc(0, if w < k then ph + 1 else ph) && s.out[w] == []
  }

  /** One round: every warp moves once. */
  lemma {:induction false} OneRound<T(!new)>(c: Config<T>, s: Sys<T>, ph: nat, k: nat) returns (schedule: seq<nat>)
    requires Valid(c) && c.limit > 0 && ph < 5 && Level(c, s, ph, 0) && k <= c.warps
    ensures Level(c, After(c, s, schedule), ph, k)
  {
    schedule := [];
    if k > 0 {
      schedule := OneRound(c, s, ph, k - 1);
      var s1 := After(c, s, schedule);
      AfterConcat(c, s, schedule, [k - 1]);
      schedule := schedule + [k - 1];
      ValidInput(c, 0);
      assert Enabled(c, s1, k - 1);
      assert After(c, s1, [k - 1]) == Next(c, s1, k - 1) by { assert [k - 1][1..] == []; }
    }
  }

  lemma {:induction false} Rounds<T(!new)>(c: Config<T>, s: Sys<T>, ph: nat) returns (schedule: seq<nat>)
    requires Valid(c) && c.limit > 0 && ph <= 5 && Start(c, s)
    ensures Level(c, After(c, s, schedule), ph, 0)
  {
    schedule := [];
    if ph > 0 {
      schedule := Rounds(c, s, ph - 1);
      var more := OneRound(c, After(c, s, schedule), ph - 1, c.warps);
      AfterConcat(c, s, schedule, more);
      schedule := schedule + more;
    }
  }

  lemma RacyValid(warps: nat, lanes: nat, limit: nat)
    requires 1 <= warps <= 32 && warps <= lanes
    ensures Valid(Racy(warps, lanes, limit))
  {
  }

  lemma RacyTotals(warps: nat, lanes: nat, limit: nat)
    requires 1 <= warps <= 32 && warps <= lanes && Valid(Racy(warps, lanes, limit))
    ensures Total(Racy(warps, lanes, limit), 0) == 0
    ensures Partial(Racy(warps, lanes, limit), 1, 0) == lanes
  {
    hide Valid, Fold;
    var c := Racy(warps, lanes, limit);
    EndOfShare(warps, lanes, 0);
    FoldOnes(c.input(0), 0);
    FoldOnes(Share(c, 1, 0), 1);
  }

  /** Warp 0 reads, starts the next iteration and overwrites the slot; only then does
      warp 1 read the result of the first iteration. */
  lemma LateReader(c: Config<int>, s: Sys<int>)
    requires Valid(c) && !Reentrant(c) && Level(c, s, 5, 0)
    ensures After(c, s, [0, 0, 1]).out[1] == [Partial(c, 1, 0)]
  {
    ValidInput(c, 0);
    ValidInput(c, 1);
    var s1 := Next(c, s, 0);
    assert s1.pc[0] == Pc(1, 0) && s1.pc[1] == Pc(0, 5) && s1.out[1] == [];
    var s2 := Next(c, s1, 0);
    assert s2.buf[0] == Partial(c, 1, 0) && s2.pc[1] == Pc(0, 5) && s2.out[1] == [];
    var s3 := Next(c, s2, 1);
    assert [0, 0, 1][1..] == [0, 1] && [0, 1][1..] == [1] && [1][1..] == [];
    assert After(c, s, [0, 0, 1]) == After(c, s1, [0, 1]) == After(c, s2, [1]) == After(c, s3, []);
  }

  lemma RacyRun(c: Config<int>, s: Sys<int>)
    requires Valid(c) && !Reentrant(c) && Start(c, s) && Partial(c, 1, 0) != Total(c, 0)
    ensures !AlwaysCorrect(c)
  {
    hide Valid, Level, Partial, Total, After;
    var schedule := Rounds(c, s, 5);
    LateReader(c, After(c, s, schedule));
    AfterConcat(c, s, schedule, [0, 0, 1]);
    var s' := After(c, s, schedule + [0, 0, 1]);
    ValidInput(c, 1);
    assert c.warps > 1;
    assert s'.out[1] == [Partial(c, 1, 0)];
    assert s'.out[1][0] != Total(c, 0);
    assert !Correct(c, s');
  }

  lemma GuardIsNeeded(warps: nat, lanes: nat, limit: nat)
    requires 2 <= warps <= 32 && warps <= lanes && 2 <= limit
    ensures Valid(Racy(warps, lanes, limit)) && !AlwaysCorrect(Racy(warps, lanes, limit))
  {
    var c := Racy(warps, lanes, limit);
    RacyValid(warps, lanes, limit);
    RacyTotals(warps, lanes, limit);
    var s := Sys(seq(32, _ => 0), seq(warps, _ => Pc(0, 0)), 0, seq(warps, _ => []));
    RacyRun(c, s);
  }

  ghost predicate CorrectForAllInputs(warps: nat, lanes: nat, limit: nat, guarded: bool) {
    forall c: Config<int> :: Valid(c) && c.warps == warps && c.lanes == lanes && c.limit == limit && c.guarded == guarded ==>
      AlwaysCorrect(c)
  }

  /** Exactly when the protocol is right on every input and every schedule. */
  lemma CorrectIff(warps: nat, lanes: nat, limit: nat, guarded: bool)
    requires 1 <= warps <= 32 && warps <= lanes
    ensures CorrectForAllInputs(warps, lanes, limit, guarded) <==> guarded || limit <= 1 || warps == 1
  {
    hide Valid, AlwaysCorrect;
    if guarded || limit <= 1 || warps == 1 {
      forall c: Config<int> | Valid(c) && c.warps == warps && c.lanes == lanes && c.limit == limit && c.guarded == guarded
        ensures AlwaysCorrect(c)
      {
        ReductionIsCorrect(c);
      }
    } else {
      GuardIsNeeded(warps, lanes, limit);
      var c := Racy(warps, lanes, limit);
      assert Valid(c) && c.warps == warps && c.lanes == lanes && c.limit == limit && c.guarded == guarded;
    }
  }
}
