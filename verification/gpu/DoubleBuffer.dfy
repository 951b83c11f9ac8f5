/**
 The double-buffered simdgroup matrix product as a protocol between the 128 threads of a
 threadgroup (64 by 64 output tile, 16 columns of A per block). Between two barriers a
 thread loads its part of the next block pair into one half of the tiles and multiplies
 the current pair from the other half; a schedule says which thread moves next.
 */
module DoubleBuffer {
  import opened Matmul
  import Schedules

  const TM: nat := 64
  const TN: nat := 64
  const TK: nat := 16
  const THREADS: nat := 128
  const SA: nat := 17
  const SB: nat := 65
  /** Accumulated cells of one thread: 16 fragments of two cells each. */
  const SLOTS: nat := 32

  type Tile = seq<int>

  // ----- who loads what -----

  /** Eight consecutive cells of one row of A's tile. */
  function RowA(t: nat): nat { t / 2 }
  function ColA(t: nat): nat { t % 2 * 8 }

  /** Eight consecutive cells of one row of B's tile. */
  function RowB(t: nat): nat { t / 8 }
  function ColB(t: nat): nat { t % 8 * 8 }

  /** A row piece that fits is copied whole; otherwise cell by cell, zero-padded. */
  function SourceA(g: Gemm, gm: nat, kc: nat, i: nat): int
    requires g.Valid() && i < 8
  {
    if gm < g.m && kc + 8 <= g.k then AtBounds(g.k, g.m, gm, kc + i); g.a[At(g.k, gm, kc + i)]
    else PadA(g, gm, kc + i)
  }

  function SourceB(g: Gemm, kr: nat, gc: nat, i: nat): int
    requires g.Valid() && i < 8
  {
    if kr < g.k && gc + 8 <= g.n then AtBounds(g.n, g.k, kr, gc + i); g.b[At(g.n, kr, gc + i)]
    else PadB(g, kr, gc + i)
  }

  /** The first i cells of thread t's piece of A, written. */
  function WriteA(g: Gemm, tile: Tile, row: nat, kb: nat, t: nat, i: nat): (r: Tile)
    requires g.Valid() && t < THREADS && i <= 8 && |tile| == SA * TM
    ensures |r| == |tile|
  {
    if i == 0 then tile else
    WriteA(g, tile, row, kb, t, i - 1)[At(SA, RowA(t), ColA(t) + (i - 1)) := SourceA(g, row + RowA(t), kb + ColA(t), i - 1)]
  }

  function WriteB(g: Gemm, tile: Tile, col: nat, kb: nat, t: nat, i: nat): (r: Tile)
    requires g.Valid() && t < THREADS && i <= 8 && |tile| == SB * TK
    ensures |r| == |tile|
  {
    if i == 0 then tile else
    WriteB(g, tile, col, kb, t, i - 1)[At(SB, RowB(t), ColB(t) + (i - 1)) := SourceB(g, kb + RowB(t), col + ColB(t), i - 1)]
  }

  lemma {:induction false} WrittenA(g: Gemm, tile: Tile, row: nat, kb: nat, t: nat, i: nat, r: nat, y: nat)
    requires g.Valid() && t < THREADS && i <= 8 && |tile| == SA * TM && r < TM && y < TK
    ensures At(SA, r, y) < |tile|
    ensures WriteA(g, tile, row, kb, t, i)[At(SA, r, y)]
            == if r == RowA(t) && ColA(t) <= y < ColA(t) + i then PadA(g, row + r, kb + y) else tile[At(SA, r, y)]
  {
    AtBounds(SA, TM, r, y);
    hide PadA, At, SourceA;
    if i > 0 {
      WrittenA(g, tile, row, kb, t, i - 1, r, y);
      SourceIsPadA(g, row + RowA(t), kb + ColA(t), i - 1);
      AtSame(SA, r, y, RowA(t), ColA(t) + (i - 1));
    }
  }

  lemma AtSame(stride: nat, i: nat, j: nat, i': nat, j': nat)
    requires j < stride && j' < stride
    ensures At(stride, i, j) == At(stride, i', j') <==> i == i' && j == j'
  {
    if At(stride, i, j) == At(stride, i', j') { AtUnique(stride, i, j, i', j'); }
  }

  lemma SourceIsPadA(g: Gemm, gm: nat, kc: nat, i: nat)
    requires g.Valid() && i < 8
    ensures SourceA(g, gm, kc, i) == PadA(g, gm, kc + i)
  {
  }

  lemma {:induction false} WrittenB(g: Gemm, tile: Tile, col: nat, kb: nat, t: nat, i: nat, y: nat, c: nat)
    requires g.Valid() && t < THREADS && i <= 8 && |tile| == SB * TK && y < TK && c < TN
    ensures At(SB, y, c) < |tile|
    ensures WriteB(g, tile, col, kb, t, i)[At(SB, y, c)]
            == if y == RowB(t) && ColB(t) <= c < ColB(t) + i then PadB(g, kb + y, col + c) else tile[At(SB, y, c)]
  {
    AtBounds(SB, TK, y, c);
    hide PadB, At, SourceB;
    if i > 0 {
      WrittenB(g, tile, col, kb, t, i - 1, y, c);
      SourceIsPadB(g, kb + RowB(t), col + ColB(t), i - 1);
      AtSame(SB, y, c, RowB(t), ColB(t) + (i - 1));
    }
  }

  lemma SourceIsPadB(g: Gemm, kr: nat, gc: nat, i: nat)
    requires g.Valid() && i < 8
    ensures SourceB(g, kr, gc, i) == PadB(g, kr, gc + i)
  {
  }

  // ----- which output cells a thread accumulates -----

  function LaneRow(lane: nat): nat { lane / 2 % 4 + lane / 16 * 4 }
  function LaneCol(lane: nat): nat { lane % 2 * 2 + lane / 8 % 2 * 4 }

  /** Row and column in the tile of cell `s % 2` of fragment `s / 2`. */
  function RowOf(t: nat, s: nat): nat { (t / 32 / 2 * 4 + s / 8) * 8 + LaneRow(t % 32) }
  function ColOf(t: nat, s: nat): nat { (t / 32 % 2 * 4 + s / 2 % 4) * 8 + LaneCol(t % 32) + s % 2 }

  /** The thread and the slot of cell (r, c). */
  function ThreadFor(r: nat, c: nat): nat {
    (r / 32 * 2 + c / 32) * 32 + c / 2 % 2 + r % 4 * 2 + c / 4 % 2 * 8 + r / 4 % 2 * 16
  }
  function SlotFor(r: nat, c: nat): nat { r / 8 % 4 * 8 + c / 8 % 4 * 2 + c % 2 }

  /** The bits that make up a thread number and a slot, and a row and a column. */
  datatype Parts = Parts(gy: nat, gx: nat, h: nat, q: nat, p: nat, b: nat, fi: nat, fj: nat, e: nat) {
    predicate Valid() { gy < 2 && gx < 2 && h < 2 && q < 2 && p < 4 && b < 2 && fi < 4 && fj < 4 && e < 2 }
    function Thread(): nat { 64 * gy + 32 * gx + 16 * h + 8 * q + 2 * p + b }
    function Slot(): nat { 8 * fi + 2 * fj + e }
    function Row(): nat { 32 * gy + 8 * fi + 4 * h + p }
    function Col(): nat { 32 * gx + 8 * fj + 4 * q + 2 * b + e }
  }

  function Lane(d: Parts): nat { 16 * d.h + 8 * d.q + 2 * d.p + d.b }

  lemma LaneOfParts(d: Parts)
    requires d.Valid()
    ensures d.Thread() / 32 == 2 * d.gy + d.gx && d.Thread() % 32 == Lane(d)
    ensures (2 * d.gy + d.gx) / 2 == d.gy && (2 * d.gy + d.gx) % 2 == d.gx
  {
    assert d.Thread() == 32 * (2 * d.gy + d.gx) + Lane(d) && Lane(d) < 32;
  }

  lemma LaneRowCol(d: Parts)
    requires d.Valid()
    ensures LaneRow(Lane(d)) == d.p + 4 * d.h && LaneCol(Lane(d)) == 2 * d.b + 4 * d.q
  {
    var lane := Lane(d);
    assert lane == 16 * d.h + (8 * d.q + 2 * d.p + d.b) && lane / 16 == d.h;
    assert lane == 2 * (8 * d.h + 4 * d.q + d.p) + d.b && lane / 2 == 8 * d.h + 4 * d.q + d.p && lane % 2 == d.b;
    assert lane == 8 * (2 * d.h + d.q) + (2 * d.p + d.b) && lane / 8 == 2 * d.h + d.q;
    assert 8 * d.h + 4 * d.q + d.p == 4 * (2 * d.h + d.q) + d.p;
  }

  lemma SlotParts(d: Parts)
    requires d.Valid()
    ensures d.Slot() / 8 == d.fi && d.Slot() / 2 % 4 == d.fj && d.Slot() % 2 == d.e
  {
    var s := d.Slot();
    assert s == 8 * d.fi + (2 * d.fj + d.e) && s == 2 * (4 * d.fi + d.fj) + d.e;
    assert s / 2 == 4 * d.fi + d.fj;
  }

  lemma RowColOfParts(d: Parts)
    requires d.Valid()
    ensures RowOf(d.Thread(), d.Slot()) == d.Row() && ColOf(d.Thread(), d.Slot()) == d.Col()
  {
    LaneOfParts(d);
    LaneRowCol(d);
    SlotParts(d);
    hide LaneRow, LaneCol;
  }

  lemma RowParts(d: Parts)
    requires d.Valid()
    ensures var r := d.Row(); r / 32 == d.gy && r / 8 % 4 == d.fi && r / 4 % 2 == d.h && r % 4 == d.p
  {
    var r, r1 := d.Row(), 2 * d.fi + d.h;
    assert r == 32 * d.gy + (4 * r1 + d.p) && r / 32 == d.gy;
    assert r == 4 * (8 * d.gy + r1) + d.p && r / 4 == 8 * d.gy + r1 && r % 4 == d.p;
    assert r == 8 * (4 * d.gy + d.fi) + (4 * d.h + d.p) && r / 8 == 4 * d.gy + d.fi;
  }

  lemma ColParts(d: Parts)
    requires d.Valid()
    ensures var c := d.Col(); c / 32 == d.gx && c / 8 % 4 == d.fj && c / 4 % 2 == d.q && c / 2 % 2 == d.b && c % 2 == d.e
  {
    var c, c1 := d.Col(), 2 * d.fj + d.q;
    var c2 := 2 * c1 + d.b;
    assert c == 32 * d.gx + (2 * c2 + d.e) && c / 32 == d.gx;
    assert c == 2 * (16 * d.gx + c2) + d.e && c / 2 == 16 * d.gx + c2 && c % 2 == d.e;
    assert c == 4 * (8 * d.gx + c1) + (2 * d.b + d.e) && c / 4 == 8 * d.gx + c1;
    assert c == 8 * (4 * d.gx + d.fj) + (4 * d.q + 2 * d.b + d.e) && c / 8 == 4 * d.gx + d.fj;
  }

  lemma ThreadSlotOfParts(d: Parts)
    requires d.Valid()
    ensures ThreadFor(d.Row(), d.Col()) == d.Thread() && SlotFor(d.Row(), d.Col()) == d.Slot()
  {
    RowParts(d);
    ColParts(d);
    hide Parts.Row, Parts.Col;
  }

  lemma PartsOfThread(t: nat, s: nat) returns (d: Parts)
    requires t < THREADS && s < SLOTS
    ensures d.Valid() && d.Thread() == t && d.Slot() == s
  {
    var t1, s1 := t / 2, s / 2;
    var t2 := t1 / 4;
    var t3 := t2 / 2;
    var t4 := t3 / 2;
    d := Parts(t4 / 2, t4 % 2, t3 % 2, t2 % 2, t1 % 4, t % 2, s1 / 4, s1 % 4, s % 2);
  }

  lemma PartsOfCell(r: nat, c: nat) returns (d: Parts)
    requires r < TM && c < TN
    ensures d.Valid() && d.Row() == r && d.Col() == c
  {
    var r1, c1 := r / 4, c / 2;
    var r2, c2 := r1 / 2, c1 / 2;
    var c3 := c2 / 2;
    d := Parts(r2 / 4, c3 / 4, r1 % 2, c2 % 2, r % 4, c1 % 2, r2 % 4, c3 % 4, c % 2);
  }

  /** The fragment and lane mapping is a bijection onto the 64 by 64 tile. */
  lemma EveryCellOnce(r: nat, c: nat, t: nat, s: nat)
    requires r < TM && c < TN && t < THREADS && s < SLOTS
    ensures ThreadFor(r, c) < THREADS && SlotFor(r, c) < SLOTS && RowOf(t, s) < TM && ColOf(t, s) < TN
    ensures RowOf(t, s) == r && ColOf(t, s) == c <==> t == ThreadFor(r, c) && s == SlotFor(r, c)
  {
    var d := PartsOfThread(t, s);
    var e := PartsOfCell(r, c);
    RowColOfParts(d);
    RowColOfParts(e);
    ThreadSlotOfParts(d);
    ThreadSlotOfParts(e);
    hide RowOf, ColOf, ThreadFor, SlotFor;
  }

  // ----- the protocol -----

  /** Interval i lies between barrier i - 1 and barrier i. In it a thread loads its piece
      of block i of A (step 0) and of B (step 1), multiplies block i - 1 (step 2) and waits
      (step 3). Interval 0 is the prologue; block i exists while i * TK < k. */
  datatype Pc = Pc(interval: nat, step: nat)

  datatype Sys = Sys(a: seq<Tile>, b: seq<Tile>, pc: seq<Pc>, acc: seq<seq<int>>)

  /** A threadgroup at work: its corner of the output and the number of blocks. */
  datatype Job = Job(g: Gemm, row: nat, col: nat, blocks: nat) {
    predicate Valid() {
      g.Valid() && TK * blocks >= g.k && (blocks > 0 ==> TK * (blocks - 1) < g.k)
    }
  }

  predicate Shape(s: Sys) {
    && |s.a| == 2 && |s.b| == 2 && |s.pc| == |s.acc| == THREADS
    && (forall h :: 0 <= h < 2 ==> |s.a[h]| == SA * TM && |s.b[h]| == SB * TK)
    && (forall t :: 0 <= t < THREADS ==> |s.acc[t]| == SLOTS && s.pc[t].step <= 3)
  }

  predicate Reached(p: Pc, q: Pc) { p.interval > q.interval || (p.interval == q.interval && p.step >= q.step) }

  predicate Enabled(j: Job, s: Sys, t: nat)
    requires Shape(s)
  {
    && t < THREADS && s.pc[t].interval <= j.blocks
    && (s.pc[t].step == 3 ==> forall u :: 0 <= u < THREADS ==> Reached(s.pc[u], s.pc[t]))
  }

  /** Whether interval i loads a block: the prologue always, the loop while one is left. */
  predicate Loads(j: Job, i: nat) { i == 0 || i < j.blocks }

  /** One block's contribution to each cell of a thread. */
  function Multiply(a: Tile, b: Tile, t: nat, acc: seq<int>): (r: seq<int>)
    requires t < THREADS && |a| == SA * TM && |b| == SB * TK && |acc| == SLOTS
    ensures |r| == SLOTS
  {
    seq(SLOTS, s requires 0 <= s < SLOTS => acc[s] + Contribution(a, b, t, s))
  }

  lemma CellInside(t: nat, s: nat)
    requires t < THREADS && s < SLOTS
    ensures RowOf(t, s) < TM && ColOf(t, s) < TN
  {
    EveryCellOnce(0, 0, t, s);
  }

  function Contribution(a: Tile, b: Tile, t: nat, s: nat): int
    requires t < THREADS && s < SLOTS && |a| == SA * TM && |b| == SB * TK
  {
    CellInside(t, s);
    InsideTiles(RowOf(t, s), ColOf(t, s));
    TileDot(a, b, SA, SB, RowOf(t, s), ColOf(t, s), TK)
  }

  lemma InsideTiles(r: nat, c: nat)
    requires r < TM && c < TN
    ensures forall y: nat :: y < TK ==> At(SA, r, y) < SA * TM && At(SB, y, c) < SB * TK
  {
  }

  function Next(j: Job, s: Sys, t: nat): (s': Sys)
    requires j.Valid() && Shape(s) && t < THREADS
    ensures Shape(s')
  {
    var p := s.pc[t];
    var i, h, other := p.interval, p.interval % 2, (p.interval + 1) % 2;
    var s1 := s.(pc := s.pc[t := if p.step == 3 then Pc(i + 1, 0) else Pc(i, p.step + 1)]);
    if p.step == 0 && Loads(j, i) then s1.(a := s.a[h := WriteA(j.g, s.a[h], j.row, TK * i, t, 8)])
    else if p.step == 1 && Loads(j, i) then s1.(b := s.b[h := WriteB(j.g, s.b[h], j.col, TK * i, t, 8)])
    else if p.step == 2 && i > 0 then s1.(acc := s.acc[t := Multiply(s.a[other], s.b[other], t, s.acc[t])])
    else s1
  }

  ghost predicate Start(s: Sys) {
    Shape(s) && forall t :: 0 <= t < THREADS ==> s.pc[t] == Pc(0, 0) && s.acc[t] == seq(SLOTS, _ => 0)
  }

  ghost function After(j: Job, s: Sys, schedule: seq<nat>): (s': Sys)
    requires j.Valid() && Shape(s)
    ensures Shape(s')
    decreases |schedule|
  {
    if schedule == [] then s else
    After(j, if Enabled(j, s, schedule[0]) then Next(j, s, schedule[0]) else s, schedule[1..])
  }

  // ----- the invariant -----

  /** Thread t's piece of A's tile holds block i. */
  ghost predicate PieceA(j: Job, tile: Tile, i: nat, t: nat)
    requires j.Valid() && |tile| == SA * TM
  {
    forall r: nat, y: nat :: r < TM && y < TK && r == RowA(t) && ColA(t) <= y < ColA(t) + 8 ==>
      At(SA, r, y) < |tile| && tile[At(SA, r, y)] == PadA(j.g, j.row + r, TK * i + y)
  }

  ghost predicate PieceB(j: Job, tile: Tile, i: nat, t: nat)
    requires j.Valid() && |tile| == SB * TK
  {
    forall y: nat, c: nat :: y < TK && c < TN && y == RowB(t) && ColB(t) <= c < ColB(t) + 8 ==>
      At(SB, y, c) < |tile| && tile[At(SB, y, c)] == PadB(j.g, TK * i + y, j.col + c)
  }

  ghost predicate InStep(s: Sys, u: nat, t: nat)
    requires Shape(s) && u < THREADS && t < THREADS
  {
    s.pc[t].interval <= s.pc[u].interval || (s.pc[t].interval == s.pc[u].interval + 1 && s.pc[u].step == 3)
  }

  /** The blocks that are loaded: the first, even if it is all padding, and every one that
      starts inside the matrices. */
  predicate Due(j: Job, i: nat) { i == 0 || TK * i < j.g.k }

  /** What thread t has loaded: its piece of this interval's block and of the one before. */
  ghost predicate Loaded(j: Job, s: Sys, t: nat)
    requires j.Valid() && Shape(s) && t < THREADS
  {
    var p := s.pc[t];
    && (p.step >= 1 && Due(j, p.interval) ==> PieceA(j, s.a[p.interval % 2], p.interval, t))
    && (p.step >= 2 && Due(j, p.interval) ==> PieceB(j, s.b[p.interval % 2], p.interval, t))
    && (p.interval >= 1 && Due(j, p.interval - 1) ==>
          PieceA(j, s.a[(p.interval + 1) % 2], p.interval - 1, t) && PieceB(j, s.b[(p.interval + 1) % 2], p.interval - 1, t))
  }

  /** Blocks thread t has multiplied. */
  function Consumed(p: Pc): nat { if p.step == 3 then p.interval else if p.interval == 0 then 0 else p.interval - 1 }

  /** Each block has been consumed exactly once so far, in order. */
  ghost predicate Summed(j: Job, s: Sys, t: nat)
    requires j.Valid() && Shape(s) && t < THREADS
  {
    forall x: nat :: x < SLOTS ==>
      s.acc[t][x] == Dot(j.g, j.row + RowOf(t, x), j.col + ColOf(t, x), TK * Consumed(s.pc[t]))
  }

  ghost predicate Bounded(j: Job, s: Sys)
    requires Shape(s)
  {
    forall t :: 0 <= t < THREADS ==> s.pc[t].interval <= j.blocks || s.pc[t] == Pc(j.blocks + 1, 0)
  }

  ghost predicate Inv(j: Job, s: Sys) {
    && j.Valid() && Shape(s) && Bounded(j, s)
    && (forall u: nat, t: nat :: u < THREADS && t < THREADS ==> InStep(s, u, t))
    && (forall t: nat :: t < THREADS ==> Loaded(j, s, t) && Summed(j, s, t))
  }

  lemma InvStarts(j: Job, s: Sys)
    requires j.Valid() && Start(s)
    ensures Inv(j, s)
  {
  }

  /** No thread is about to read a half that another thread may still write. */
  lemma NoRace(j: Job, s: Sys, t: nat, u: nat)
    requires Inv(j, s) && t < THREADS && u < THREADS && s.pc[t].step == 2 && s.pc[t].interval > 0
    requires s.pc[u].step <= 1 && Loads(j, s.pc[u].interval)
    ensures s.pc[u].interval % 2 != (s.pc[t].interval + 1) % 2
  {
    assert InStep(s, u, t) && InStep(s, t, u);
  }

  // ----- one step -----

  lemma InStepKept(j: Job, s: Sys, w: nat, u: nat, t: nat)
    requires Inv(j, s) && Enabled(j, s, w) && u < THREADS && t < THREADS
    ensures InStep(Next(j, s, w), u, t)
  {
    hide Loaded, Summed;
    assert InStep(s, u, t) && InStep(s, t, u);
    if s.pc[w].step == 3 { assert Reached(s.pc[u], s.pc[w]) && Reached(s.pc[t], s.pc[w]); }
  }

  lemma PieceLoadedA(j: Job, tile: Tile, i: nat, w: nat, t: nat, i': nat)
    requires j.Valid() && |tile| == SA * TM && w < THREADS && t < THREADS
    requires t == w || PieceA(j, tile, i', t)
    ensures PieceA(j, WriteA(j.g, tile, j.row, TK * i, w, 8), if t == w then i else i', t)
  {
    var now := WriteA(j.g, tile, j.row, TK * i, w, 8);
    hide WriteA, PadA;
    forall r: nat, y: nat | r < TM && y < TK && r == RowA(t) && ColA(t) <= y < ColA(t) + 8
      ensures At(SA, r, y) < |now| && now[At(SA, r, y)] == PadA(j.g, j.row + r, TK * (if t == w then i else i') + y)
    {
      WrittenA(j.g, tile, j.row, TK * i, w, 8, r, y);
    }
  }

  lemma PieceLoadedB(j: Job, tile: Tile, i: nat, w: nat, t: nat, i': nat)
    requires j.Valid() && |tile| == SB * TK && w < THREADS && t < THREADS
    requires t == w || PieceB(j, tile, i', t)
    ensures PieceB(j, WriteB(j.g, tile, j.col, TK * i, w, 8), if t == w then i else i', t)
  {
    var now := WriteB(j.g, tile, j.col, TK * i, w, 8);
    hide WriteB, PadB;
    forall y: nat, c: nat | y < TK && c < TN && y == RowB(t) && ColB(t) <= c < ColB(t) + 8
      ensures At(SB, y, c) < |now| && now[At(SB, y, c)] == PadB(j.g, TK * (if t == w then i else i') + y, j.col + c)
    {
      WrittenB(j.g, tile, j.col, TK * i, w, 8, y, c);
    }
  }

  /** Loading keeps what the thread itself has loaded into the other half, and adds its piece. */
  lemma LoadedKeptBySelf(j: Job, s: Sys, w: nat)
    requires Inv(j, s) && Enabled(j, s, w)
    ensures Loaded(j, Next(j, s, w), w)
  {
    assert Loaded(j, s, w);
    var p := s.pc[w];
    var i, h := p.interval, p.interval % 2;
    hide PieceA, PieceB, WriteA, WriteB, Multiply, InStep, Summed, Bounded, Reached;
    if p.step == 3 {
      LoadedNextInterval(j, s, w);
    } else if p.step == 2 {
      assert Next(j, s, w).a == s.a && Next(j, s, w).b == s.b;
    } else {
      assert h != (i + 1) % 2;
      if p.step == 0 { PieceLoadedA(j, s.a[h], i, w, w, 0); } else { PieceLoadedB(j, s.b[h], i, w, w, 0); }
    }
  }

  /** What was this interval's block is the previous interval's after the barrier. */
  lemma LoadedNextInterval(j: Job, s: Sys, w: nat)
    requires j.Valid() && Shape(s) && w < THREADS && s.pc[w].step == 3 && Loaded(j, s, w)
    ensures Loaded(j, Next(j, s, w), w)
  {
    hide PieceA, PieceB, WriteA, WriteB, Multiply;
    assert Next(j, s, w).pc[w] == Pc(s.pc[w].interval + 1, 0);
    assert (s.pc[w].interval + 1 + 1) % 2 == s.pc[w].interval % 2;
  }

  /** Another thread's load leaves this thread's pieces alone. */
  lemma LoadedKeptByOther(j: Job, s: Sys, w: nat, t: nat)
    requires Inv(j, s) && Enabled(j, s, w) && t < THREADS && t != w
    ensures Loaded(j, Next(j, s, w), t)
  {
    assert Loaded(j, s, t);
    var p, q, h := s.pc[w], s.pc[t], s.pc[w].interval % 2;
    hide PieceA, PieceB, WriteA, WriteB, Multiply, InStep, Summed, Bounded, Reached;
    if p.step == 0 {
      forall i | PieceA(j, s.a[h], i, t) ensures PieceA(j, WriteA(j.g, s.a[h], j.row, TK * p.interval, w, 8), i, t) {
        PieceLoadedA(j, s.a[h], p.interval, w, t, i);
      }
    } else if p.step == 1 {
      forall i | PieceB(j, s.b[h], i, t) ensures PieceB(j, WriteB(j.g, s.b[h], j.col, TK * p.interval, w, 8), i, t) {
        PieceLoadedB(j, s.b[h], p.interval, w, t, i);
      }
    } else {
      assert Next(j, s, w).a == s.a && Next(j, s, w).b == s.b;
    }
  }

  /** When a thread multiplies, both tiles of the block are complete. */
  lemma TilesReady(j: Job, s: Sys, t: nat)
    requires Inv(j, s) && t < THREADS && s.pc[t].step == 2 && 0 < s.pc[t].interval <= j.blocks
    ensures var i, h := s.pc[t].interval - 1, (s.pc[t].interval + 1) % 2;
            HoldsA(j.g, s.a[h], TM, TK, SA, j.row, TK * i) && HoldsB(j.g, s.b[h], TN, TK, SB, j.col, TK * i)
  {
    var i, h := s.pc[t].interval - 1, (s.pc[t].interval + 1) % 2;
    forall u: nat | u < THREADS ensures PieceA(j, s.a[h], i, u) && PieceB(j, s.b[h], i, u) {
      PieceReady(j, s, t, u);
    }
    PiecesCover(j, s.a[h], s.b[h], i);
  }

  lemma PieceReady(j: Job, s: Sys, t: nat, u: nat)
    requires Inv(j, s) && t < THREADS && u < THREADS && s.pc[t].step == 2 && 0 < s.pc[t].interval <= j.blocks
    ensures var i, h := s.pc[t].interval - 1, (s.pc[t].interval + 1) % 2;
            PieceA(j, s.a[h], i, u) && PieceB(j, s.b[h], i, u)
  {
    hide PieceA, PieceB;
    assert InStep(s, u, t) && InStep(s, t, u) && Loaded(j, s, u);
  }

  /** The threads' pieces cover the tiles. */
  lemma PiecesCover(j: Job, a: Tile, b: Tile, i: nat)
    requires j.Valid() && |a| == SA * TM && |b| == SB * TK
    requires forall u: nat :: u < THREADS ==> PieceA(j, a, i, u) && PieceB(j, b, i, u)
    ensures HoldsA(j.g, a, TM, TK, SA, j.row, TK * i) && HoldsB(j.g, b, TN, TK, SB, j.col, TK * i)
  {
    hide PadA, PadB;
    forall r: nat, y: nat | r < TM && y < TK ensures At(SA, r, y) < |a| && a[At(SA, r, y)] == PadA(j.g, j.row + r, TK * i + y) {
      assert PieceA(j, a, i, 2 * r + y / 8);
    }
    forall y: nat, c: nat | y < TK && c < TN ensures At(SB, y, c) < |b| && b[At(SB, y, c)] == PadB(j.g, TK * i + y, j.col + c) {
      assert PieceB(j, b, i, 8 * y + c / 8);
    }
  }

  lemma Multiplied(j: Job, s: Sys, t: nat, x: nat)
    requires Inv(j, s) && t < THREADS && x < SLOTS && s.pc[t].step == 2 && 0 < s.pc[t].interval <= j.blocks
    ensures var h := (s.pc[t].interval + 1) % 2;
            s.acc[t][x] + Contribution(s.a[h], s.b[h], t, x)
            == Dot(j.g, j.row + RowOf(t, x), j.col + ColOf(t, x), TK * s.pc[t].interval)
  {
    var i, h := s.pc[t].interval - 1, (s.pc[t].interval + 1) % 2;
    hide Dot, Contribution, RowOf, ColOf, HoldsA, HoldsB, Loaded, InStep, Bounded;
    TilesReady(j, s, t);
    assert Summed(j, s, t);
    ContributionAdds(j, s.a[h], s.b[h], i, t, x);
    assert TK * i + TK == TK * s.pc[t].interval;
  }

  lemma ContributionAdds(j: Job, a: Tile, b: Tile, i: nat, t: nat, x: nat)
    requires j.Valid() && t < THREADS && x < SLOTS && |a| == SA * TM && |b| == SB * TK
    requires HoldsA(j.g, a, TM, TK, SA, j.row, TK * i) && HoldsB(j.g, b, TN, TK, SB, j.col, TK * i)
    ensures Dot(j.g, j.row + RowOf(t, x), j.col + ColOf(t, x), TK * i + TK)
            == Dot(j.g, j.row + RowOf(t, x), j.col + ColOf(t, x), TK * i) + Contribution(a, b, t, x)
  {
    hide Dot, TileDot, RowOf, ColOf, HoldsA, HoldsB;
    CellInside(t, x);
    TileContributes(j.g, a, b, TM, TN, TK, SA, SB, j.row, j.col, TK * i, RowOf(t, x), ColOf(t, x), TK);
  }

  lemma SummedKept(j: Job, s: Sys, w: nat, t: nat)
    requires Inv(j, s) && Enabled(j, s, w) && t < THREADS
    ensures Summed(j, Next(j, s, w), t)
  {
    hide Dot, Contribution, RowOf, ColOf, WriteA, WriteB, Loaded, InStep;
    assert Summed(j, s, t);
    if t == w && s.pc[w].step == 2 && s.pc[w].interval > 0 {
      forall x: nat | x < SLOTS
        ensures Next(j, s, w).acc[t][x] == Dot(j.g, j.row + RowOf(t, x), j.col + ColOf(t, x), TK * s.pc[w].interval)
      {
        Multiplied(j, s, w, x);
      }
    }
  }

  lemma StepKeeps(j: Job, s: Sys, w: nat)
    requires Inv(j, s) && Enabled(j, s, w)
    ensures Inv(j, Next(j, s, w))
  {
    var s' := Next(j, s, w);
    forall u: nat, t: nat | u < THREADS && t < THREADS ensures InStep(s', u, t) { InStepKept(j, s, w, u, t); }
    forall t: nat | t < THREADS ensures Loaded(j, s', t) && Summed(j, s', t) {
      if t == w { LoadedKeptBySelf(j, s, w); } else { LoadedKeptByOther(j, s, w, t); }
      SummedKept(j, s, w, t);
    }
    BoundedKept(j, s, w);
    hide Next, InStep, Loaded, Summed, Bounded;
  }

  lemma BoundedKept(j: Job, s: Sys, w: nat)
    requires Inv(j, s) && Enabled(j, s, w)
    ensures Bounded(j, Next(j, s, w))
  {
  }

  lemma {:induction false} EverySchedule(j: Job, s: Sys, schedule: seq<nat>)
    requires Inv(j, s)
    ensures Inv(j, After(j, s, schedule))
    decreases |schedule|
  {
    hide Next, InStep, Loaded, Summed, Bounded;
    if schedule != [] {
      if Enabled(j, s, schedule[0]) { StepKeeps(j, s, schedule[0]); }
      EverySchedule(j, if Enabled(j, s, schedule[0]) then Next(j, s, schedule[0]) else s, schedule[1..]);
    }
  }

  /** Under every schedule, a thread that has finished holds the product in all its cells. */
  lemma FinishedIsProduct(j: Job, s: Sys, schedule: seq<nat>, t: nat, x: nat)
    requires j.Valid() && Start(s) && t < THREADS && x < SLOTS
    requires After(j, s, schedule).pc[t] == Pc(j.blocks + 1, 0)
    ensures var i, l, v := j.row + RowOf(t, x), j.col + ColOf(t, x), After(j, s, schedule).acc[t][x];
            v == Product(j.g, i, l) && (i < j.g.m && l < j.g.n ==> v == RowTimesColumn(j.g, i, l))
  {
    if j.row + RowOf(t, x) < j.g.m && j.col + ColOf(t, x) < j.g.n {
      ProductIsPlain(j.g, j.row + RowOf(t, x), j.col + ColOf(t, x));
    }
    hide RowTimesColumn, Dot, RowOf, ColOf, Start, After, Loaded, InStep;
    InvStarts(j, s);
    EverySchedule(j, s, schedule);
    assert Summed(j, After(j, s, schedule), t);
    DotPadded(j.g, j.row + RowOf(t, x), j.col + ColOf(t, x), TK * j.blocks);
  }

  /** Until every thread has finished, some thread can move. */
  lemma NoDeadlock(j: Job, s: Sys)
    requires Inv(j, s) && exists t: nat :: t < THREADS && s.pc[t].interval <= j.blocks
    ensures exists t: nat :: Enabled(j, s, t)
  {
    hide Loaded, Summed, InStep;
    var w := Schedules.Last(s.pc, Reached, THREADS);
    var v: nat :| v < THREADS && s.pc[v].interval <= j.blocks;
    assert Reached(s.pc[v], s.pc[w]);
    assert Enabled(j, s, w);
  }
}
