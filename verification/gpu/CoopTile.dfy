/**
 The software cooperative product: tiles staged in shared memory by strided loops, and an
 accumulator tile C that is either shared or spread over the lanes' registers.
 */
module CoopTile {
  import opened Arith
  import opened Matmul
  import TiledScalar

  /** Tile extents, and whether A and B lie transposed in memory. */
  datatype Config = Config(m: nat, n: nat, k: nat, ta: bool, tb: bool)

  /** A pointer: the memory behind it, an offset and the leading dimension. */
  datatype Source = Source(mem: seq<int>, off: nat, ei: nat)

  /** Where A's element (i, l) lies, relative to the offset. */
  function AddrA(c: Config, ei: nat, i: nat, l: nat): nat { if c.ta then At(ei, l, i) else At(ei, i, l) }
  function AddrB(c: Config, ei: nat, l: nat, j: nat): nat { if c.tb then At(ei, j, l) else At(ei, l, j) }

  /** All elements of the first x columns of A lie in memory. */
  ghost predicate HasA(c: Config, s: Source, x: nat) {
    forall i: nat, l: nat :: i < c.m && l < x ==> s.off + AddrA(c, s.ei, i, l) < |s.mem|
  }

  ghost predicate HasB(c: Config, s: Source, x: nat) {
    forall l: nat, j: nat :: l < x && j < c.n ==> s.off + AddrB(c, s.ei, l, j) < |s.mem|
  }

  function ElemA(c: Config, s: Source, i: nat, l: nat): int
    requires s.off + AddrA(c, s.ei, i, l) < |s.mem|
  {
    s.mem[s.off + AddrA(c, s.ei, i, l)]
  }

  function ElemB(c: Config, s: Source, l: nat, j: nat): int
    requires s.off + AddrB(c, s.ei, l, j) < |s.mem|
  {
    s.mem[s.off + AddrB(c, s.ei, l, j)]
  }

  /** The pointers of block b: k columns of A and k rows of B further on. */
  function BlockA(c: Config, s: Source, b: nat): Source { s.(off := s.off + AddrA(c, s.ei, 0, c.k * b)) }
  function BlockB(c: Config, s: Source, b: nat): Source { s.(off := s.off + AddrB(c, s.ei, c.k * b, 0)) }

  lemma BlockElemA(c: Config, s: Source, b: nat, i: nat, l: nat)
    ensures BlockA(c, s, b).off + AddrA(c, s.ei, i, l) == s.off + AddrA(c, s.ei, i, c.k * b + l)
  {
    if c.ta { assert s.ei * (c.k * b + l) == s.ei * (c.k * b) + s.ei * l; }
  }

  lemma BlockElemB(c: Config, s: Source, b: nat, l: nat, j: nat)
    ensures BlockB(c, s, b).off + AddrB(c, s.ei, l, j) == s.off + AddrB(c, s.ei, c.k * b + l, j)
  {
    if !c.tb { assert s.ei * (c.k * b + l) == s.ei * (c.k * b) + s.ei * l; }
  }

  /** The first x terms of cell (i, j) of the product of the matrices behind two pointers. */
  ghost function Sum(c: Config, a: Source, b: Source, i: nat, j: nat, x: nat): int
    requires HasA(c, a, x) && HasB(c, b, x) && i < c.m && j < c.n
  {
    if x == 0 then 0 else Sum(c, a, b, i, j, x - 1) + ElemA(c, a, i, x - 1) * ElemB(c, b, x - 1, j)
  }

  // ----- strided loops over a tile -----

  /** `for (e = sid; e < len; e += ssize) dst[e] = want(e)` by every thread, in any order. */
  method Cooperate(dst: array<int>, want: nat -> int, order: seq<nat>, ssize: nat)
    requires ssize > 0 && TiledScalar.Order(order, ssize)
    modifies dst
    ensures forall e: nat :: e < dst.Length ==> dst[e] == want(e)
  {
    for d := 0 to |order|
      invariant forall e: nat :: e < dst.Length && e % ssize in order[..d] ==> dst[e] == want(e)
    {
      var sid := order[d];
      assert sid in order && order[..d + 1] == order[..d] + [sid];
      var e := sid;
      ghost var b := 0;
      TiledScalar.FirstTurn(ssize, sid);
      while e < dst.Length
        invariant e == ssize * b + sid
        invariant forall x: nat :: x < dst.Length && x % ssize in order[..d] ==> dst[x] == want(x)
        invariant forall x: nat :: x < dst.Length && x < e && x % ssize == sid ==> dst[x] == want(x)
        decreases dst.Length - e
      {
        dst[e] := want(e);
        TiledScalar.NextTurn(ssize, b, sid);
        e, b := e + ssize, b + 1;
      }
    }
    assert order[..|order|] == order;
  }

  // ----- loading -----

  /** The staged tiles, row-major. */
  ghost predicate Staged(c: Config, ta: seq<int>, tb: seq<int>, a: Source, b: Source)
    requires HasA(c, a, c.k) && HasB(c, b, c.k)
  {
    && |ta| == c.k * c.m && |tb| == c.n * c.k
    && (forall i: nat, l: nat :: i < c.m && l < c.k ==> At(c.k, i, l) < |ta| && ta[At(c.k, i, l)] == ElemA(c, a, i, l))
    && (forall l: nat, j: nat :: l < c.k && j < c.n ==> At(c.n, l, j) < |tb| && tb[At(c.n, l, j)] == ElemB(c, b, l, j))
  }

  /** What cell e of the A tile is loaded from: row e / k, column e % k. */
  function FetchA(c: Config, a: Source, e: nat): int {
    if c.k > 0 && a.off + AddrA(c, a.ei, e / c.k, e % c.k) < |a.mem| then ElemA(c, a, e / c.k, e % c.k) else 0
  }

  function FetchB(c: Config, b: Source, e: nat): int {
    if c.n > 0 && b.off + AddrB(c, b.ei, e / c.n, e % c.n) < |b.mem| then ElemB(c, b, e / c.n, e % c.n) else 0
  }

  lemma FetchedA(c: Config, a: Source, i: nat, l: nat)
    requires HasA(c, a, c.k) && i < c.m && l < c.k
    ensures At(c.k, i, l) < c.k * c.m && FetchA(c, a, At(c.k, i, l)) == ElemA(c, a, i, l)
  {
    hide AddrA;
    CellIndex(c.m, c.k, i, l);
  }

  lemma FetchedB(c: Config, b: Source, l: nat, j: nat)
    requires HasB(c, b, c.k) && l < c.k && j < c.n
    ensures At(c.n, l, j) < c.n * c.k && FetchB(c, b, At(c.n, l, j)) == ElemB(c, b, l, j)
  {
    hide AddrB;
    CellIndex(c.k, c.n, l, j);
  }

  /** Cell (i, l) of the staged tile of A holds what lies at its place in memory. */
  predicate StagedA(c: Config, a: Source, ta: seq<int>, i: nat, l: nat) {
    var place := if c.ta then a.off + a.ei * l + i else a.off + a.ei * i + l;
    c.k * i + l < |ta| && place < |a.mem| && ta[c.k * i + l] == a.mem[place]
  }

  predicate StagedB(c: Config, b: Source, tb: seq<int>, l: nat, j: nat) {
    var place := if c.tb then b.off + b.ei * j + l else b.off + b.ei * l + j;
    c.n * l + j < |tb| && place < |b.mem| && tb[c.n * l + j] == b.mem[place]
  }

  lemma LoadedA(c: Config, a: Source, ta: seq<int>, i: nat, l: nat)
    requires HasA(c, a, c.k) && i < c.m && l < c.k && At(c.k, i, l) < |ta| && ta[At(c.k, i, l)] == ElemA(c, a, i, l)
    ensures StagedA(c, a, ta, i, l)
  {
  }

  lemma LoadedB(c: Config, b: Source, tb: seq<int>, l: nat, j: nat)
    requires HasB(c, b, c.k) && l < c.k && j < c.n && At(c.n, l, j) < |tb| && tb[At(c.n, l, j)] == ElemB(c, b, l, j)
    ensures StagedB(c, b, tb, l, j)
  {
  }

  method LoadA(c: Config, a: Source, ta: array<int>, order: seq<nat>, ssize: nat)
    requires ssize > 0 && TiledScalar.Order(order, ssize) && ta.Length == c.k * c.m && HasA(c, a, c.k)
    modifies ta
    ensures forall i: nat, l: nat :: i < c.m && l < c.k ==>
              At(c.k, i, l) < ta.Length && ta[At(c.k, i, l)] == ElemA(c, a, i, l)
    ensures forall i: nat, l: nat :: i < c.m && l < c.k ==> StagedA(c, a, ta[..], i, l)
  {
    Cooperate(ta, (e: nat) => FetchA(c, a, e), order, ssize);
    hide At, FetchA, HasA, AddrA;
    forall i: nat, l: nat | i < c.m && l < c.k
      ensures At(c.k, i, l) < ta.Length && ta[At(c.k, i, l)] == FetchA(c, a, At(c.k, i, l)) == ElemA(c, a, i, l)
    {
      FetchedA(c, a, i, l);
    }
    hide ElemA, StagedA;
    forall i: nat, l: nat | i < c.m && l < c.k ensures StagedA(c, a, ta[..], i, l) {
      LoadedA(c, a, ta[..], i, l);
    }
  }

  method LoadB(c: Config, b: Source, tb: array<int>, order: seq<nat>, ssize: nat)
    requires ssize > 0 && TiledScalar.Order(order, ssize) && tb.Length == c.n * c.k && HasB(c, b, c.k)
    modifies tb
    ensures forall l: nat, j: nat :: l < c.k && j < c.n ==>
              At(c.n, l, j) < tb.Length && tb[At(c.n, l, j)] == ElemB(c, b, l, j)
    ensures forall l: nat, j: nat :: l < c.k && j < c.n ==> StagedB(c, b, tb[..], l, j)
  {
    Cooperate(tb, (e: nat) => FetchB(c, b, e), order, ssize);
    hide At, FetchB, HasB, AddrB;
    forall l: nat, j: nat | l < c.k && j < c.n
      ensures At(c.n, l, j) < tb.Length && tb[At(c.n, l, j)] == FetchB(c, b, At(c.n, l, j)) == ElemB(c, b, l, j)
    {
      FetchedB(c, b, l, j);
    }
    hide ElemB, StagedB;
    forall l: nat, j: nat | l < c.k && j < c.n ensures StagedB(c, b, tb[..], l, j) {
      LoadedB(c, b, tb[..], l, j);
    }
  }

  // ----- multiplying -----

  predicate Sized(c: Config, ta: seq<int>, tb: seq<int>) { |ta| == c.k * c.m && |tb| == c.n * c.k }

  /** The product of the staged tiles at cell e. */
  function CellDot(c: Config, ta: seq<int>, tb: seq<int>, e: nat): int
    requires Sized(c, ta, tb) && e < c.n * c.m
  {
    CellInTiles(c, e);
    TileDot(ta, tb, c.k, c.n, e / c.n, e % c.n, c.k)
  }

  lemma CellInTiles(c: Config, e: nat)
    requires e < c.n * c.m
    ensures c.n > 0 && e / c.n < c.m
    ensures forall l: nat :: l < c.k ==> At(c.k, e / c.n, l) < c.k * c.m && At(c.n, l, e % c.n) < c.n * c.k
  {
    AtOf(c.n, c.m, e);
    forall l: nat | l < c.k ensures At(c.k, e / c.n, l) < c.k * c.m && At(c.n, l, e % c.n) < c.n * c.k {
      AtBounds(c.k, c.m, e / c.n, l);
      AtBounds(c.n, c.k, l, e % c.n);
    }
  }

  /** What a `Run` leaves in C. */
  function RunTile(c: Config, ta: seq<int>, tb: seq<int>, tc: seq<int>, accumulate: bool): (r: seq<int>)
    requires Sized(c, ta, tb) && |tc| == c.n * c.m
    ensures |r| == |tc|
  {
    seq(c.n * c.m, e requires 0 <= e < c.n * c.m => (if accumulate then tc[e] else 0) + CellDot(c, ta, tb, e))
  }

  /** The inner loop of a cell. */
  method CellLoop(c: Config, ta: array<int>, tb: array<int>, e: nat, init: int) returns (acc: int)
    requires Sized(c, ta[..], tb[..]) && e < c.n * c.m
    ensures acc == init + CellDot(c, ta[..], tb[..], e)
  {
    CellInTiles(c, e);
    var i, j := e / c.n, e % c.n;
    acc := init;
    hide At;
    for l := 0 to c.k
      invariant acc == init + TileDot(ta[..], tb[..], c.k, c.n, i, j, l)
    {
      acc := acc + ta[At(c.k, i, l)] * tb[At(c.n, l, j)];
    }
  }

  /** `Run` with C in shared memory. */
  method RunShared(c: Config, ta: array<int>, tb: array<int>, tc: array<int>, accumulate: bool, order: seq<nat>, ssize: nat)
    requires ssize > 0 && TiledScalar.Order(order, ssize) && tc != ta && tc != tb
    requires Sized(c, ta[..], tb[..]) && tc.Length == c.n * c.m
    modifies tc
    ensures tc[..] == RunTile(c, ta[..], tb[..], old(tc[..]), accumulate)
  {
    ghost var was, goal := tc[..], RunTile(c, ta[..], tb[..], tc[..], accumulate);
    for d := 0 to |order|
      invariant forall e: nat :: e < tc.Length ==> tc[e] == if e % ssize in order[..d] then goal[e] else was[e]
    {
      var sid := order[d];
      assert sid in order && sid !in order[..d] && order[..d + 1] == order[..d] + [sid];
      var e := sid;
      ghost var b := 0;
      TiledScalar.FirstTurn(ssize, sid);
      while e < tc.Length
        invariant e == ssize * b + sid
        invariant forall x: nat :: x < tc.Length ==>
                    tc[x] == if x % ssize in order[..d] || (x % ssize == sid && x < e) then goal[x] else was[x]
        decreases tc.Length - e
      {
        TiledScalar.NextTurn(ssize, b, sid);
        tc[e] := CellLoop(c, ta, tb, e, if accumulate then tc[e] else 0);
        e, b := e + ssize, b + 1;
      }
    }
    assert order[..|order|] == order;
  }

  // ----- C in registers -----

  /** How many slots a lane has. */
  function PerLane(cells: nat, lw: nat): nat
    requires lw > 0
  {
    var slots := (cells + lw - 1) / lw;
    if slots == 0 then 1 else slots
  }

  /** Slot li of a lane is cell lane + li * lw: each cell has exactly one slot. */
  lemma SlotOfCell(cells: nat, lw: nat, lane: nat, li: nat, e: nat)
    requires lane < lw && e < cells
    ensures e / lw < PerLane(cells, lw)
    ensures At(lw, li, lane) == e <==> lane == e % lw && li == e / lw
  {
    AtIs(lw, li, lane, e);
    CeilCovers(cells, lw);
    DivBelow(e, lw, (cells + lw - 1) / lw);
  }

  lemma CeilCovers(cells: nat, lw: nat)
    requires lw > 0
    ensures cells <= lw * ((cells + lw - 1) / lw)
  {
    var x := cells + lw - 1;
    assert x == lw * (x / lw) + x % lw;
  }

  /** The tile the lanes hold together. */
  ghost function LaneTile(cells: nat, lw: nat, lanes: array2<int>): (r: seq<int>)
    requires lw > 0 && lanes.Length0 == lw && lanes.Length1 == PerLane(cells, lw)
    reads lanes
    ensures |r| == cells
  {
    seq(cells, e requires 0 <= e < cells reads lanes => SlotOfCell(cells, lw, 0, 0, e); lanes[e % lw, e / lw])
  }

  /** `Run` with C spread over the lanes. */
  method RunLanes(c: Config, ta: array<int>, tb: array<int>, lanes: array2<int>, accumulate: bool, order: seq<nat>, lw: nat)
    requires lw > 0 && TiledScalar.Order(order, lw) && Sized(c, ta[..], tb[..])
    requires lanes.Length0 == lw && lanes.Length1 == PerLane(c.n * c.m, lw)
    modifies lanes
    ensures LaneTile(c.n * c.m, lw, lanes) == RunTile(c, ta[..], tb[..], old(LaneTile(c.n * c.m, lw, lanes)), accumulate)
  {
    var cells := c.n * c.m;
    ghost var was := LaneTile(cells, lw, lanes);
    ghost var goal := RunTile(c, ta[..], tb[..], was, accumulate);
    for d := 0 to |order|
      invariant forall e: nat :: e < cells ==> LaneTile(cells, lw, lanes)[e] == if e % lw in order[..d] then goal[e] else was[e]
    {
      var lane := order[d];
      assert lane in order && lane !in order[..d] && order[..d + 1] == order[..d] + [lane];
      RunLane(c, ta, tb, lanes, accumulate, lane, lw);
    }
    assert order[..|order|] == order;
  }

  /** One lane's slots; the loop stops at the first slot past the tile. */
  method RunLane(c: Config, ta: array<int>, tb: array<int>, lanes: array2<int>, accumulate: bool, lane: nat, lw: nat)
    requires lane < lw && Sized(c, ta[..], tb[..])
    requires lanes.Length0 == lw && lanes.Length1 == PerLane(c.n * c.m, lw)
    modifies lanes
    ensures var was := old(LaneTile(c.n * c.m, lw, lanes));
            LaneFinal(LaneTile(c.n * c.m, lw, lanes), was, RunTile(c, ta[..], tb[..], was, accumulate), lw, lane)
  {
    var cells, li := c.n * c.m, 0;
    ghost var was := LaneTile(cells, lw, lanes);
    ghost var goal := RunTile(c, ta[..], tb[..], was, accumulate);
    LaneBegins(was, goal, lw, lane);
    hide CellDot, PerLane, LaneTile, RunTile, LaneDone, LaneFinal, At;
    while li < PerLane(cells, lw) && At(lw, li, lane) < cells
      invariant LaneDone(LaneTile(cells, lw, lanes), was, goal, lw, lane, li)
    {
      RunSlot(c, ta, tb, lanes, accumulate, lane, li, lw, was);
      li := li + 1;
    }
    LaneEnds(LaneTile(cells, lw, lanes), was, goal, lw, lane, li);
  }

  /** One slot of one lane. */
  method RunSlot(c: Config, ta: array<int>, tb: array<int>, lanes: array2<int>, accumulate: bool, lane: nat, li: nat, lw: nat,
                 ghost was: seq<int>)
    requires lane < lw && Sized(c, ta[..], tb[..]) && |was| == c.n * c.m && At(lw, li, lane) < |was|
    requires lanes.Length0 == lw && lanes.Length1 == PerLane(c.n * c.m, lw)
    requires LaneDone(LaneTile(c.n * c.m, lw, lanes), was, RunTile(c, ta[..], tb[..], was, accumulate), lw, lane, li)
    modifies lanes
    ensures LaneDone(LaneTile(c.n * c.m, lw, lanes), was, RunTile(c, ta[..], tb[..], was, accumulate), lw, lane, li + 1)
  {
    ghost var goal, now := RunTile(c, ta[..], tb[..], was, accumulate), LaneTile(c.n * c.m, lw, lanes);
    SlotOfCell(c.n * c.m, lw, lane, li, At(lw, li, lane));
    SlotValue(c.n * c.m, lw, lanes, lane, li);
    hide CellDot, PerLane, LaneTile, RunTile, At;
    var e := At(lw, li, lane);
    RunTileAt(c, ta[..], tb[..], was, accumulate, e);
    var acc := CellLoop(c, ta, tb, e, if accumulate then lanes[lane, li] else 0);
    SetSlot(c.n * c.m, lw, lanes, lane, li, acc);
    LaneDoneNext(LaneTile(c.n * c.m, lw, lanes), now, was, goal, lw, lane, li);
  }

  ghost predicate LaneFinal(now: seq<int>, was: seq<int>, goal: seq<int>, lw: nat, lane: nat)
    requires lw > 0
  {
    |now| == |was| == |goal| && forall e: nat :: e < |now| ==> now[e] == if e % lw == lane then goal[e] else was[e]
  }

  lemma LaneBegins(was: seq<int>, goal: seq<int>, lw: nat, lane: nat)
    requires lw > 0 && |was| == |goal|
    ensures LaneDone(was, was, goal, lw, lane, 0)
  {
  }

  /** Where the loop stops, the lane has no cell left. */
  lemma LaneEnds(now: seq<int>, was: seq<int>, goal: seq<int>, lw: nat, lane: nat, li: nat)
    requires lane < lw && LaneDone(now, was, goal, lw, lane, li)
    requires li >= PerLane(|now|, lw) || At(lw, li, lane) >= |now|
    ensures LaneFinal(now, was, goal, lw, lane)
  {
    if li < PerLane(|now|, lw) { PastTheEnd(|now|, lw, lane, li); } else { LastSlots(|now|, lw); }
  }

  /** The cells of a lane's first li slots have their final value. */
  ghost predicate LaneDone(now: seq<int>, was: seq<int>, goal: seq<int>, lw: nat, lane: nat, li: nat)
    requires lw > 0
  {
    && |now| == |was| == |goal|
    && forall e: nat :: e < |now| ==> now[e] == if e % lw == lane && e / lw < li then goal[e] else was[e]
  }

  lemma LaneDoneNext(next: seq<int>, now: seq<int>, was: seq<int>, goal: seq<int>, lw: nat, lane: nat, li: nat)
    requires lane < lw && LaneDone(now, was, goal, lw, lane, li) && At(lw, li, lane) < |now| == |next|
    requires forall x: nat :: x < |now| ==> next[x] == if x % lw == lane && x / lw == li then goal[At(lw, li, lane)] else now[x]
    ensures LaneDone(next, was, goal, lw, lane, li + 1)
  {
    forall x: nat | x < |now| && x % lw == lane && x / lw == li ensures x == At(lw, li, lane) {
      SlotOfCell(|now|, lw, lane, li, x);
    }
  }

  lemma SlotValue(cells: nat, lw: nat, lanes: array2<int>, lane: nat, li: nat)
    requires lane < lw && lanes.Length0 == lw && lanes.Length1 == PerLane(cells, lw) && At(lw, li, lane) < cells
    ensures li < lanes.Length1 && LaneTile(cells, lw, lanes)[At(lw, li, lane)] == lanes[lane, li]
  {
    SlotOfCell(cells, lw, lane, li, At(lw, li, lane));
  }

  lemma RunTileAt(c: Config, ta: seq<int>, tb: seq<int>, tc: seq<int>, accumulate: bool, e: nat)
    requires Sized(c, ta, tb) && |tc| == c.n * c.m && e < |tc|
    ensures RunTile(c, ta, tb, tc, accumulate)[e] == (if accumulate then tc[e] else 0) + CellDot(c, ta, tb, e)
  {
  }

  /** Writing a slot writes one cell. */
  method SetSlot(ghost cells: nat, ghost lw: nat, lanes: array2<int>, lane: nat, li: nat, v: int)
    requires lane < lw && lanes.Length0 == lw && lanes.Length1 == PerLane(cells, lw) && li < lanes.Length1
    modifies lanes
    ensures forall e: nat :: e < cells ==>
              LaneTile(cells, lw, lanes)[e] == if e % lw == lane && e / lw == li then v else old(LaneTile(cells, lw, lanes))[e]
  {
    hide PerLane;
    LastSlots(cells, lw);
    lanes[lane, li] := v;
  }

  lemma LastSlots(cells: nat, lw: nat)
    requires lw > 0
    ensures forall e: nat :: e < cells ==> e / lw < PerLane(cells, lw)
  {
    forall e: nat | e < cells ensures e / lw < PerLane(cells, lw) { SlotOfCell(cells, lw, 0, 0, e); }
  }

  lemma PastTheEnd(cells: nat, lw: nat, lane: nat, li: nat)
    requires lane < lw && At(lw, li, lane) >= cells
    ensures forall e: nat :: e < cells && e % lw == lane ==> e / lw < li
  {
    forall e: nat | e < cells && e % lw == lane ensures e / lw < li {
      AtIs(lw, e / lw, lane, e);
      if e / lw >= li { MulOrder(lw, li, e / lw); }
    }
  }

  // ----- K blocks -----

  /** A block's tiles contribute its k terms. */
  lemma {:induction false} BlockContributes(c: Config, a: Source, b: Source, ta: seq<int>, tb: seq<int>, d: nat, i: nat, j: nat, x: nat)
    requires HasA(c, a, c.k * d + c.k) && HasB(c, b, c.k * d + c.k) && i < c.m && j < c.n && x <= c.k
    requires HasA(c, BlockA(c, a, d), c.k) && HasB(c, BlockB(c, b, d), c.k) && Staged(c, ta, tb, BlockA(c, a, d), BlockB(c, b, d))
    ensures forall y: nat :: y < x ==> At(c.k, i, y) < |ta| && At(c.n, y, j) < |tb|
    ensures Sum(c, a, b, i, j, c.k * d + x) == Sum(c, a, b, i, j, c.k * d) + TileDot(ta, tb, c.k, c.n, i, j, x)
  {
    hide At, AddrA, AddrB;
    if x > 0 {
      BlockContributes(c, a, b, ta, tb, d, i, j, x - 1);
      BlockElemA(c, a, d, i, x - 1);
      BlockElemB(c, b, d, x - 1, j);
      assert ta[At(c.k, i, x - 1)] == ElemA(c, BlockA(c, a, d), i, x - 1);
      assert tb[At(c.n, x - 1, j)] == ElemB(c, BlockB(c, b, d), x - 1, j);
    }
  }

  /** C holds the first x terms of every cell. */
  ghost predicate HoldsSum(c: Config, a: Source, b: Source, tc: seq<int>, x: nat)
    requires HasA(c, a, x) && HasB(c, b, x)
  {
    && |tc| == c.n * c.m
    && forall i: nat, j: nat :: i < c.m && j < c.n ==> At(c.n, i, j) < |tc| && tc[At(c.n, i, j)] == Sum(c, a, b, i, j, x)
  }

  lemma BlockInMemory(c: Config, a: Source, b: Source, d: nat)
    requires HasA(c, a, c.k * d + c.k) && HasB(c, b, c.k * d + c.k)
    ensures HasA(c, BlockA(c, a, d), c.k) && HasB(c, BlockB(c, b, d), c.k)
    ensures HasA(c, a, c.k * d) && HasB(c, b, c.k * d)
  {
    hide AddrA, AddrB;
    forall i: nat, l: nat | i < c.m && l < c.k ensures BlockA(c, a, d).off + AddrA(c, a.ei, i, l) < |a.mem| { BlockElemA(c, a, d, i, l); }
    forall l: nat, j: nat | l < c.k && j < c.n ensures BlockB(c, b, d).off + AddrB(c, b.ei, l, j) < |b.mem| { BlockElemB(c, b, d, l, j); }
  }

  /** Accumulating one more block. */
  lemma RunAccumulates(c: Config, a: Source, b: Source, ta: seq<int>, tb: seq<int>, tc: seq<int>, d: nat)
    requires HasA(c, a, c.k * d + c.k) && HasB(c, b, c.k * d + c.k)
    requires HasA(c, BlockA(c, a, d), c.k) && HasB(c, BlockB(c, b, d), c.k) && Staged(c, ta, tb, BlockA(c, a, d), BlockB(c, b, d))
    requires HasA(c, a, c.k * d) && HasB(c, b, c.k * d) && HoldsSum(c, a, b, tc, c.k * d)
    ensures HoldsSum(c, a, b, RunTile(c, ta, tb, tc, true), c.k * d + c.k)
  {
    hide HasA, HasB, Sum, RunTile;
    forall i: nat, j: nat | i < c.m && j < c.n
      ensures At(c.n, i, j) < |tc| && RunTile(c, ta, tb, tc, true)[At(c.n, i, j)] == Sum(c, a, b, i, j, c.k * d + c.k)
    {
      RunAccumulatesCell(c, a, b, ta, tb, tc, d, i, j);
    }
  }

  lemma RunAccumulatesCell(c: Config, a: Source, b: Source, ta: seq<int>, tb: seq<int>, tc: seq<int>, d: nat, i: nat, j: nat)
    requires HasA(c, a, c.k * d + c.k) && HasB(c, b, c.k * d + c.k)
    requires HasA(c, BlockA(c, a, d), c.k) && HasB(c, BlockB(c, b, d), c.k) && Staged(c, ta, tb, BlockA(c, a, d), BlockB(c, b, d))
    requires HasA(c, a, c.k * d) && HasB(c, b, c.k * d) && HoldsSum(c, a, b, tc, c.k * d) && i < c.m && j < c.n
    ensures At(c.n, i, j) < |tc| && RunTile(c, ta, tb, tc, true)[At(c.n, i, j)] == Sum(c, a, b, i, j, c.k * d + c.k)
  {
    hide HasA, HasB, Sum, RunTile, TileDot;
    CellIndex(c.m, c.n, i, j);
    RunTileAt(c, ta, tb, tc, true, At(c.n, i, j));
    BlockContributes(c, a, b, ta, tb, d, i, j, c.k);
  }

  // ----- storing -----

  function Dest(c: Config, ei: nat, e: nat): nat { if c.n == 0 then 0 else At(ei, e / c.n, e % c.n) }

  /** With rows at least n apart, no two cells share a destination. */
  lemma DestUnique(c: Config, ei: nat, e: nat, e': nat)
    requires c.n <= ei && e < c.n * c.m && e' < c.n * c.m && Dest(c, ei, e) == Dest(c, ei, e')
    ensures e == e'
  {
    hide At, Dest;
    var i, j := DestParts(c, ei, e);
    var i', j' := DestParts(c, ei, e');
    AtUnique(ei, i, j, i', j');
  }

  lemma DestParts(c: Config, ei: nat, e: nat) returns (i: nat, j: nat)
    requires e < c.n * c.m
    ensures j < c.n && e == At(c.n, i, j) && Dest(c, ei, e) == At(ei, i, j)
  {
    hide At;
    AtOf(c.n, c.m, e);
    i, j := e / c.n, e % c.n;
  }

  /** The threads listed have stored their cells, and thread sid those below `upto`. */
  ghost predicate StoredSome(c: Config, out: seq<int>, was: seq<int>, off: nat, ei: nat, tile: seq<int>,
                             ssize: nat, threads: seq<nat>, sid: nat, upto: nat)
    requires ssize > 0
  {
    && |out| == |was|
    && (forall e: nat :: e < |tile| && (e % ssize in threads || (e % ssize == sid && e < upto)) ==>
          off + Dest(c, ei, e) < |out| && out[off + Dest(c, ei, e)] == tile[e])
    && (forall p: nat :: p < |out| && Untouched(c, off, ei, |tile|, p) ==> out[p] == was[p])
  }

  /** No cell goes to position p. */
  ghost predicate Untouched(c: Config, off: nat, ei: nat, cells: nat, p: nat) {
    forall e: nat :: e < cells ==> off + Dest(c, ei, e) != p
  }

  lemma StoreOne(c: Config, out: seq<int>, was: seq<int>, off: nat, ei: nat, tile: seq<int>,
                 ssize: nat, threads: seq<nat>, sid: nat, e: nat, next: nat)
    requires c.n <= ei && |tile| == c.n * c.m && sid < ssize && e < |tile| && off + Dest(c, ei, e) < |out|
    requires e % ssize == sid && (forall x :: e < x < next ==> x % ssize != sid)
    requires StoredSome(c, out, was, off, ei, tile, ssize, threads, sid, e)
    ensures StoredSome(c, out[off + Dest(c, ei, e) := tile[e]], was, off, ei, tile, ssize, threads, sid, next)
  {
    forall x: nat | x < |tile| && Dest(c, ei, x) == Dest(c, ei, e) ensures x == e { DestUnique(c, ei, x, e); }
    hide Dest;
  }

  /** `StoreC`: every thread its cells, in any order. */
  method StoreC(c: Config, tile: seq<int>, out: array<int>, off: nat, ei: nat, order: seq<nat>, ssize: nat)
    requires ssize > 0 && TiledScalar.Order(order, ssize) && c.n <= ei && |tile| == c.n * c.m
    requires forall e: nat :: e < |tile| ==> off + Dest(c, ei, e) < out.Length
    modifies out
    ensures StoredSome(c, out[..], old(out[..]), off, ei, tile, ssize, order, 0, 0)
  {
    hide Dest;
    ghost var was := out[..];
    for d := 0 to |order|
      invariant StoredSome(c, out[..], was, off, ei, tile, ssize, order[..d], 0, 0)
    {
      var sid := order[d];
      assert sid in order && order[..d + 1] == order[..d] + [sid];
      var e := sid;
      ghost var b := 0;
      TiledScalar.FirstTurn(ssize, sid);
      assert StoredSome(c, out[..], was, off, ei, tile, ssize, order[..d], sid, sid);
      hide StoredSome;
      while e < |tile|
        invariant e == ssize * b + sid
        invariant StoredSome(c, out[..], was, off, ei, tile, ssize, order[..d], sid, e)
        decreases |tile| - e
      {
        TiledScalar.NextTurn(ssize, b, sid);
        StoreOne(c, out[..], was, off, ei, tile, ssize, order[..d], sid, e, e + ssize);
        out[off + Dest(c, ei, e)] := tile[e];
        e, b := e + ssize, b + 1;
      }
      ThreadStored(c, out[..], was, off, ei, tile, ssize, order[..d], sid, e);
    }
    assert order[..|order|] == order;
  }

  /** The same with C in registers: every lane its slots, up to the first past the tile. */
  method StoreLanes(c: Config, lanes: array2<int>, out: array<int>, off: nat, ei: nat, order: seq<nat>, lw: nat)
    requires lw > 0 && TiledScalar.Order(order, lw) && c.n <= ei
    requires lanes.Length0 == lw && lanes.Length1 == PerLane(c.n * c.m, lw)
    requires forall e: nat :: e < c.n * c.m ==> off + Dest(c, ei, e) < out.Length
    modifies out
    ensures StoredSome(c, out[..], old(out[..]), off, ei, LaneTile(c.n * c.m, lw, lanes), lw, order, 0, 0)
  {
    ghost var was, tile := out[..], LaneTile(c.n * c.m, lw, lanes);
    hide Dest, LaneTile;
    assert StoredSome(c, was, was, off, ei, tile, lw, [], 0, 0);
    hide StoredSome;
    for d := 0 to |order|
      invariant StoredSome(c, out[..], was, off, ei, tile, lw, order[..d], 0, 0)
    {
      assert order[d] in order && order[..d + 1] == order[..d] + [order[d]];
      StoreLane(c, lanes, out, off, ei, lw, order[d], was, order[..d]);
    }
    assert order[..|order|] == order;
  }

  /** One lane's slots. */
  method StoreLane(c: Config, lanes: array2<int>, out: array<int>, off: nat, ei: nat, lw: nat, lane: nat,
                   ghost was: seq<int>, ghost done: seq<nat>)
    requires lane < lw && c.n <= ei && lanes.Length0 == lw && lanes.Length1 == PerLane(c.n * c.m, lw)
    requires forall e: nat :: e < c.n * c.m ==> off + Dest(c, ei, e) < out.Length
    requires StoredSome(c, out[..], was, off, ei, LaneTile(c.n * c.m, lw, lanes), lw, done, 0, 0)
    modifies out
    ensures StoredSome(c, out[..], was, off, ei, LaneTile(c.n * c.m, lw, lanes), lw, done + [lane], 0, 0)
  {
    var cells, li := c.n * c.m, 0;
    ghost var tile := LaneTile(cells, lw, lanes);
    hide Dest, LaneTile, PerLane;
    LaneStarts(c, out[..], was, off, ei, tile, lw, done, lane);
    hide StoredSome, At;
    while li < PerLane(cells, lw) && At(lw, li, lane) < cells
      invariant StoredSome(c, out[..], was, off, ei, tile, lw, done, lane, At(lw, li, lane))
    {
      var e := At(lw, li, lane);
      NextSlot(lw, li, lane);
      SlotValue(cells, lw, lanes, lane, li);
      StoreOne(c, out[..], was, off, ei, tile, lw, done, lane, e, At(lw, li + 1, lane));
      out[off + Dest(c, ei, e)] := lanes[lane, li];
      li := li + 1;
    }
    if li >= PerLane(cells, lw) { SlotsPast(cells, lw, lane, li); }
    ThreadStored(c, out[..], was, off, ei, tile, lw, done, lane, At(lw, li, lane));
  }

  lemma LaneStarts(c: Config, out: seq<int>, was: seq<int>, off: nat, ei: nat, tile: seq<int>, lw: nat, done: seq<nat>, lane: nat)
    requires lane < lw && StoredSome(c, out, was, off, ei, tile, lw, done, 0, 0)
    ensures StoredSome(c, out, was, off, ei, tile, lw, done, lane, At(lw, 0, lane))
  {
    hide Dest, Untouched;
    TiledScalar.FirstTurn(lw, lane);
  }

  lemma NextSlot(lw: nat, li: nat, lane: nat)
    requires lane < lw
    ensures At(lw, li, lane) % lw == lane
    ensures forall x :: At(lw, li, lane) < x < At(lw, li + 1, lane) ==> x % lw != lane
  {
    TiledScalar.NextTurn(lw, li, lane);
  }

  lemma SlotsPast(cells: nat, lw: nat, lane: nat, li: nat)
    requires lane < lw && li >= PerLane(cells, lw)
    ensures At(lw, li, lane) >= cells
  {
    CeilCovers(cells, lw);
    MulOrder(lw, (cells + lw - 1) / lw, li);
  }

  lemma ThreadStored(c: Config, out: seq<int>, was: seq<int>, off: nat, ei: nat, tile: seq<int>,
                     ssize: nat, threads: seq<nat>, sid: nat, e: nat)
    requires ssize > 0 && |tile| <= e && StoredSome(c, out, was, off, ei, tile, ssize, threads, sid, e)
    ensures StoredSome(c, out, was, off, ei, tile, ssize, threads + [sid], 0, 0)
  {
    hide Dest, Untouched;
  }

  /** The destination holds the product; everything else is as it was. */
  ghost predicate Multiplied(c: Config, a: Source, b: Source, x: nat, out: seq<int>, was: seq<int>, off: nat, ei: nat)
    requires HasA(c, a, x) && HasB(c, b, x)
  {
    && |out| == |was|
    && (forall i: nat, j: nat :: i < c.m && j < c.n ==>
          off + At(ei, i, j) < |out| && out[off + At(ei, i, j)] == Sum(c, a, b, i, j, x))
    && (forall p: nat :: p < |out| && Untouched(c, off, ei, c.n * c.m, p) ==> out[p] == was[p])
  }

  lemma StoredProduct(c: Config, a: Source, b: Source, x: nat, out: seq<int>, was: seq<int>, off: nat, ei: nat,
                      tile: seq<int>, ssize: nat, order: seq<nat>)
    requires ssize > 0 && TiledScalar.Order(order, ssize) && HasA(c, a, x) && HasB(c, b, x) && HoldsSum(c, a, b, tile, x)
    requires StoredSome(c, out, was, off, ei, tile, ssize, order, 0, 0)
    ensures Multiplied(c, a, b, x, out, was, off, ei)
  {
    hide Sum, HasA, HasB;
    forall i: nat, j: nat | i < c.m && j < c.n
      ensures off + At(ei, i, j) < |out| && out[off + At(ei, i, j)] == Sum(c, a, b, i, j, x)
    {
      CellIndex(c.m, c.n, i, j);
      var e := At(c.n, i, j);
      assert Dest(c, ei, e) == At(ei, i, j) && e % ssize in order;
    }
  }

  // ----- the product in terms of the flat memories -----

  /** A's first x columns lie in memory: with its last element, so does all of it. */
  predicate FitsA(c: Config, a: Source, x: nat) {
    c.m > 0 && x > 0 ==>
      a.off + (if c.ta then a.ei * (x - 1) + (c.m - 1) else a.ei * (c.m - 1) + (x - 1)) < |a.mem|
  }

  predicate FitsB(c: Config, b: Source, x: nat) {
    c.n > 0 && x > 0 ==>
      b.off + (if c.tb then b.ei * (c.n - 1) + (x - 1) else b.ei * (x - 1) + (c.n - 1)) < |b.mem|
  }

  lemma FitsHas(c: Config, a: Source, b: Source, x: nat)
    requires FitsA(c, a, x) && FitsB(c, b, x)
    ensures HasA(c, a, x) && HasB(c, b, x)
  {
    forall i: nat, l: nat | i < c.m && l < x ensures a.off + AddrA(c, a.ei, i, l) < |a.mem| {
      MulOrder(a.ei, l, x - 1);
      MulOrder(a.ei, i, c.m - 1);
    }
    forall l: nat, j: nat | l < x && j < c.n ensures b.off + AddrB(c, b.ei, l, j) < |b.mem| {
      MulOrder(b.ei, l, x - 1);
      MulOrder(b.ei, j, c.n - 1);
    }
  }

  /** Row i of A times column j of B, x terms, each matrix as it lies in memory. */
  function RowTimesColumnOf(c: Config, a: Source, b: Source, i: nat, j: nat, x: nat): int
    requires FitsA(c, a, x) && FitsB(c, b, x) && i < c.m && j < c.n
  {
    LastTermOf(c, a, b, i, j, x);
    Inner(a.mem, b.mem, if c.ta then a.off + i else a.off + a.ei * i, if c.ta then a.ei else 1,
          if c.tb then b.off + b.ei * j else b.off + j, if c.tb then 1 else b.ei, x)
  }

  lemma LastTermOf(c: Config, a: Source, b: Source, i: nat, j: nat, x: nat)
    requires FitsA(c, a, x) && FitsB(c, b, x) && i < c.m && j < c.n
    ensures x > 0 ==> (if c.ta then a.off + i else a.off + a.ei * i) + (if c.ta then a.ei else 1) * (x - 1) < |a.mem|
    ensures x > 0 ==> (if c.tb then b.off + b.ei * j else b.off + j) + (if c.tb then 1 else b.ei) * (x - 1) < |b.mem|
  {
    MulOrder(a.ei, i, c.m - 1);
    MulOrder(b.ei, j, c.n - 1);
  }

  lemma {:induction false} SumIsInner(c: Config, a: Source, b: Source, i: nat, j: nat, y: nat, a0: nat, da: nat, b0: nat, db: nat)
    requires HasA(c, a, y) && HasB(c, b, y) && i < c.m && j < c.n
    requires a0 == (if c.ta then a.off + i else a.off + a.ei * i) && da == (if c.ta then a.ei else 1)
    requires b0 == (if c.tb then b.off + b.ei * j else b.off + j) && db == (if c.tb then 1 else b.ei)
    ensures y > 0 ==> a0 + da * (y - 1) < |a.mem| && b0 + db * (y - 1) < |b.mem|
    ensures Sum(c, a, b, i, j, y) == Inner(a.mem, b.mem, a0, da, b0, db, y)
  {
    if y > 0 {
      LastElemA(c, a, i, y);
      LastElemB(c, b, j, y);
      SomeInMemory(c, a, b, y - 1, y);
      SumIsInner(c, a, b, i, j, y - 1, a0, da, b0, db);
      hide AddrA, AddrB, ElemA, ElemB, HasA, HasB;
    }
  }

  lemma LastElemA(c: Config, a: Source, i: nat, y: nat)
    requires HasA(c, a, y) && i < c.m && y > 0
    ensures a.off + AddrA(c, a.ei, i, y - 1) < |a.mem|
    ensures var a0, da := if c.ta then a.off + i else a.off + a.ei * i, if c.ta then a.ei else 1;
            a0 + da * (y - 1) < |a.mem| && ElemA(c, a, i, y - 1) == a.mem[a0 + da * (y - 1)]
  {
  }

  lemma LastElemB(c: Config, b: Source, j: nat, y: nat)
    requires HasB(c, b, y) && j < c.n && y > 0
    ensures b.off + AddrB(c, b.ei, y - 1, j) < |b.mem|
    ensures var b0, db := if c.tb then b.off + b.ei * j else b.off + j, if c.tb then 1 else b.ei;
            b0 + db * (y - 1) < |b.mem| && ElemB(c, b, y - 1, j) == b.mem[b0 + db * (y - 1)]
  {
  }

  lemma SumIsPlain(c: Config, a: Source, b: Source, i: nat, j: nat, x: nat)
    requires FitsA(c, a, x) && FitsB(c, b, x) && i < c.m && j < c.n
    ensures HasA(c, a, x) && HasB(c, b, x)
    ensures Sum(c, a, b, i, j, x) == RowTimesColumnOf(c, a, b, i, j, x)
  {
    FitsHas(c, a, b, x);
    var a0: nat, da: nat := if c.ta then a.off + i else a.off + a.ei * i, if c.ta then a.ei else 1;
    var b0: nat, db: nat := if c.tb then b.off + b.ei * j else b.off + j, if c.tb then 1 else b.ei;
    hide FitsA, FitsB, HasA, HasB, Sum, Inner, RowTimesColumnOf;
    SumIsInner(c, a, b, i, j, x, a0, da, b0, db);
    PlainIsInner(c, a, b, i, j, x, a0, da, b0, db);
  }

  lemma PlainIsInner(c: Config, a: Source, b: Source, i: nat, j: nat, x: nat, a0: nat, da: nat, b0: nat, db: nat)
    requires FitsA(c, a, x) && FitsB(c, b, x) && i < c.m && j < c.n
    requires a0 == (if c.ta then a.off + i else a.off + a.ei * i) && da == (if c.ta then a.ei else 1)
    requires b0 == (if c.tb then b.off + b.ei * j else b.off + j) && db == (if c.tb then 1 else b.ei)
    ensures x > 0 ==> a0 + da * (x - 1) < |a.mem| && b0 + db * (x - 1) < |b.mem|
    ensures RowTimesColumnOf(c, a, b, i, j, x) == Inner(a.mem, b.mem, a0, da, b0, db, x)
  {
    LastTermOf(c, a, b, i, j, x);
    hide FitsA, FitsB, Inner;
  }

  predicate CellStored(c: Config, a: Source, b: Source, x: nat, out: seq<int>, off: nat, ei: nat, i: nat, j: nat)
    requires FitsA(c, a, x) && FitsB(c, b, x) && i < c.m && j < c.n
  {
    off + ei * i + j < |out| && out[off + ei * i + j] == RowTimesColumnOf(c, a, b, i, j, x)
  }

  /** Position p is no cell (i, j) of the destination. */
  ghost predicate Beside(c: Config, off: nat, ei: nat, p: nat) {
    forall i: nat, j: nat :: i < c.m && j < c.n ==> !IsCell(off, ei, i, j, p)
  }

  predicate IsCell(off: nat, ei: nat, i: nat, j: nat, p: nat) { p == off + ei * i + j }

  /** The destination holds the product of the two matrices; everything else is as it was. */
  ghost predicate HoldsProduct(c: Config, a: Source, b: Source, x: nat, out: seq<int>, was: seq<int>, off: nat, ei: nat)
    requires FitsA(c, a, x) && FitsB(c, b, x)
  {
    && |out| == |was|
    && (forall i: nat, j: nat :: i < c.m && j < c.n ==> CellStored(c, a, b, x, out, off, ei, i, j))
    && (forall p: nat :: p < |out| && Beside(c, off, ei, p) ==> out[p] == was[p])
  }

  lemma MultipliedIsProduct(c: Config, a: Source, b: Source, x: nat, out: seq<int>, was: seq<int>, off: nat, ei: nat)
    requires FitsA(c, a, x) && FitsB(c, b, x) && HasA(c, a, x) && HasB(c, b, x)
    requires Multiplied(c, a, b, x, out, was, off, ei)
    ensures HoldsProduct(c, a, b, x, out, was, off, ei)
  {
    hide Sum, RowTimesColumnOf;
    forall i: nat, j: nat | i < c.m && j < c.n ensures CellStored(c, a, b, x, out, off, ei, i, j) {
      SumIsPlain(c, a, b, i, j, x);
      assert off + At(ei, i, j) < |out|;
    }
    forall p: nat | p < |out| && Beside(c, off, ei, p) ensures Untouched(c, off, ei, c.n * c.m, p) {
      forall e: nat | e < c.n * c.m ensures off + Dest(c, ei, e) != p {
        AtOf(c.n, c.m, e);
        assert !IsCell(off, ei, e / c.n, e % c.n, p);
      }
    }
  }

  /** Every destination is a cell, and the last one bounds them all. */
  lemma DestFits(c: Config, off: nat, ei: nat, len: nat)
    requires c.m > 0 && c.n > 0 ==> off + ei * (c.m - 1) + (c.n - 1) < len
    ensures forall e: nat :: e < c.n * c.m ==> off + Dest(c, ei, e) < len
  {
    forall e: nat | e < c.n * c.m ensures off + Dest(c, ei, e) < len {
      AtOf(c.n, c.m, e);
      MulOrder(ei, e / c.n, c.m - 1);
    }
  }

  // ----- the whole product -----

  lemma SomeInMemory(c: Config, a: Source, b: Source, x: nat, y: nat)
    requires HasA(c, a, y) && HasB(c, b, y) && x <= y
    ensures HasA(c, a, x) && HasB(c, b, x)
  {
  }

  lemma ZeroHolds(c: Config, a: Source, b: Source, tc: seq<int>)
    requires HasA(c, a, 0) && HasB(c, b, 0) && |tc| == c.n * c.m && forall e: nat :: e < |tc| ==> tc[e] == 0
    ensures HoldsSum(c, a, b, tc, 0)
  {
    forall i: nat, j: nat | i < c.m && j < c.n ensures At(c.n, i, j) < |tc| { AtBounds(c.n, c.m, i, j); }
  }

  /** Loading block d stages it. */
  method LoadBlock(c: Config, a: Source, b: Source, d: nat, ghost blocks: nat, ta: array<int>, tb: array<int>, order: seq<nat>, ssize: nat)
    requires ssize > 0 && TiledScalar.Order(order, ssize) && d < blocks
    requires HasA(c, a, c.k * blocks) && HasB(c, b, c.k * blocks)
    requires ta != tb && ta.Length == c.k * c.m && tb.Length == c.n * c.k
    modifies ta, tb
    ensures HasA(c, a, c.k * d + c.k) && HasB(c, b, c.k * d + c.k)
    ensures HasA(c, BlockA(c, a, d), c.k) && HasB(c, BlockB(c, b, d), c.k)
    ensures Staged(c, ta[..], tb[..], BlockA(c, a, d), BlockB(c, b, d))
  {
    MulOrder(c.k, d + 1, blocks);
    SomeInMemory(c, a, b, c.k * d + c.k, c.k * blocks);
    BlockInMemory(c, a, b, d);
    hide HasA, HasB;
    LoadA(c, BlockA(c, a, d), ta, order, ssize);
    LoadB(c, BlockB(c, b, d), tb, order, ssize);
  }

  /** One K block, with C in shared memory. */
  method SharedBlock(c: Config, a: Source, b: Source, d: nat, ghost blocks: nat, ta: array<int>, tb: array<int>,
                     tc: array<int>, order: seq<nat>, ssize: nat)
    requires ssize > 0 && TiledScalar.Order(order, ssize) && d < blocks
    requires HasA(c, a, c.k * blocks) && HasB(c, b, c.k * blocks)
    requires ta != tb && tc != ta && tc != tb && ta.Length == c.k * c.m && tb.Length == c.n * c.k && tc.Length == c.n * c.m
    requires HasA(c, a, c.k * d) && HasB(c, b, c.k * d) && HoldsSum(c, a, b, tc[..], c.k * d)
    modifies ta, tb, tc
    ensures HasA(c, a, c.k * d + c.k) && HasB(c, b, c.k * d + c.k)
    ensures HoldsSum(c, a, b, tc[..], c.k * d + c.k)
  {
    hide HasA, HasB, Staged, HoldsSum;
    ghost var was := tc[..];
    LoadBlock(c, a, b, d, blocks, ta, tb, order, ssize);
    assert tc[..] == was;
    RunAccumulates(c, a, b, ta[..], tb[..], was, d);
    RunShared(c, ta, tb, tc, true, order, ssize);
  }

  /** Zero, the K blocks, store: C in shared memory. */
  method GemmSharedBlocks(c: Config, a: Source, b: Source, blocks: nat, out: array<int>, off: nat, ei: nat, order: seq<nat>, ssize: nat)
    requires ssize > 0 && TiledScalar.Order(order, ssize) && c.n <= ei
    requires HasA(c, a, c.k * blocks) && HasB(c, b, c.k * blocks)
    requires forall e: nat :: e < c.n * c.m ==> off + Dest(c, ei, e) < out.Length
    modifies out
    ensures Multiplied(c, a, b, c.k * blocks, out[..], old(out[..]), off, ei)
  {
    var tc := new int[c.n * c.m];
    ghost var was := out[..];
    Cooperate(tc, (e: nat) => 0, order, ssize);
    SomeInMemory(c, a, b, 0, c.k * blocks);
    ZeroHolds(c, a, b, tc[..]);
    hide HasA, HasB, HoldsSum, Multiplied, Dest, StoredSome;
    var ta, tb := new int[c.k * c.m], new int[c.n * c.k];
    for d := 0 to blocks
      invariant HasA(c, a, c.k * d) && HasB(c, b, c.k * d) && HoldsSum(c, a, b, tc[..], c.k * d)
      invariant out[..] == was
    {
      SharedBlock(c, a, b, d, blocks, ta, tb, tc, order, ssize);
      assert c.k * (d + 1) == c.k * d + c.k;
    }
    var tile := tc[..];
    StoreC(c, tile, out, off, ei, order, ssize);
    StoredProduct(c, a, b, c.k * blocks, out[..], was, off, ei, tile, ssize, order);
  }

  /** Zero, the K blocks, store: C in shared memory, in the terms of the memories. */
    method GemmShared(c: Config, a: Source, b: Source, blocks: nat, out: array<int>, off: nat, ei: nat, order: seq<nat>, ssize: nat)
    requires ssize > 0 && TiledScalar.Order(order, ssize) && c.n <= ei
    requires FitsA(c, a, c.k * blocks) && FitsB(c, b, c.k * blocks)
    requires c.m > 0 && c.n > 0 ==> off + ei * (c.m - 1) + (c.n - 1) < out.Length
    modifies out
    ensures HoldsProduct(c, a, b, c.k * blocks, out[..], old(out[..]), off, ei)
  {
    FitsHas(c, a, b, c.k * blocks);
    DestFits(c, off, ei, out.Length);
    ghost var was := out[..];
    hide Multiplied, HoldsProduct, HasA, HasB, FitsA, FitsB, Dest;
    GemmSharedBlocks(c, a, b, blocks, out, off, ei, order, ssize);
    MultipliedIsProduct(c, a, b, c.k * blocks, out[..], was, off, ei);
  }

  /** One K block, with C in the lanes' registers. */
  method LaneBlock(c: Config, a: Source, b: Source, d: nat, ghost blocks: nat, ta: array<int>, tb: array<int>,
                   lanes: array2<int>, order: seq<nat>, lw: nat)
    requires lw > 0 && TiledScalar.Order(order, lw) && d < blocks
    requires HasA(c, a, c.k * blocks) && HasB(c, b, c.k * blocks)
    requires ta != tb && ta.Length == c.k * c.m && tb.Length == c.n * c.k
    requires lanes.Length0 == lw && lanes.Length1 == PerLane(c.n * c.m, lw)
    requires HasA(c, a, c.k * d) && HasB(c, b, c.k * d) && HoldsSum(c, a, b, LaneTile(c.n * c.m, lw, lanes), c.k * d)
    modifies ta, tb, lanes
    ensures HasA(c, a, c.k * d + c.k) && HasB(c, b, c.k * d + c.k)
    ensures HoldsSum(c, a, b, LaneTile(c.n * c.m, lw, lanes), c.k * d + c.k)
  {
    hide HasA, HasB, Staged, HoldsSum, LaneTile, PerLane;
    LoadBlock(c, a, b, d, blocks, ta, tb, order, lw);
    RunAccumulates(c, a, b, ta[..], tb[..], LaneTile(c.n * c.m, lw, lanes), d);
    RunLanes(c, ta, tb, lanes, true, order, lw);
  }

  method ZeroLanes(c: Config, ghost a: Source, ghost b: Source, lw: nat) returns (lanes: array2<int>)
    requires lw > 0 && HasA(c, a, 0) && HasB(c, b, 0)
    ensures fresh(lanes) && lanes.Length0 == lw && lanes.Length1 == PerLane(c.n * c.m, lw)
    ensures HoldsSum(c, a, b, LaneTile(c.n * c.m, lw, lanes), 0)
  {
    hide PerLane;
    LastSlots(c.n * c.m, lw);
    lanes := new int[lw, PerLane(c.n * c.m, lw)]((i, j) => 0);
    assert forall e: nat :: e < c.n * c.m ==> LaneTile(c.n * c.m, lw, lanes)[e] == 0;
    hide LaneTile;
    ZeroHolds(c, a, b, LaneTile(c.n * c.m, lw, lanes));
  }

  /** The same with C in the lanes' registers: the result is the same tile. */
  method GemmLanesBlocks(c: Config, a: Source, b: Source, blocks: nat, out: array<int>, off: nat, ei: nat, order: seq<nat>, lw: nat)
    requires lw > 0 && TiledScalar.Order(order, lw) && c.n <= ei
    requires HasA(c, a, c.k * blocks) && HasB(c, b, c.k * blocks)
    requires forall e: nat :: e < c.n * c.m ==> off + Dest(c, ei, e) < out.Length
    modifies out
    ensures Multiplied(c, a, b, c.k * blocks, out[..], old(out[..]), off, ei)
  {
    SomeInMemory(c, a, b, 0, c.k * blocks);
    hide HasA, HasB, HoldsSum, Multiplied, Dest, StoredSome, LaneTile, PerLane;
    ghost var was := out[..];
    var lanes := ZeroLanes(c, a, b, lw);
    var ta, tb := new int[c.k * c.m], new int[c.n * c.k];
    for d := 0 to blocks
      invariant HasA(c, a, c.k * d) && HasB(c, b, c.k * d) && HoldsSum(c, a, b, LaneTile(c.n * c.m, lw, lanes), c.k * d)
      invariant out[..] == was
    {
      LaneBlock(c, a, b, d, blocks, ta, tb, lanes, order, lw);
      assert c.k * (d + 1) == c.k * d + c.k;
    }
    ghost var tile := LaneTile(c.n * c.m, lw, lanes);
    StoreLanes(c, lanes, out, off, ei, order, lw);
    StoredProduct(c, a, b, c.k * blocks, out[..], was, off, ei, tile, lw, order);
  }

  /** The lane-local variant in the same terms. */
    method GemmLanes(c: Config, a: Source, b: Source, blocks: nat, out: array<int>, off: nat, ei: nat, order: seq<nat>, lw: nat)
    requires lw > 0 && TiledScalar.Order(order, lw) && c.n <= ei
    requires FitsA(c, a, c.k * blocks) && FitsB(c, b, c.k * blocks)
    requires c.m > 0 && c.n > 0 ==> off + ei * (c.m - 1) + (c.n - 1) < out.Length
    modifies out
    ensures HoldsProduct(c, a, b, c.k * blocks, out[..], old(out[..]), off, ei)
  {
    FitsHas(c, a, b, c.k * blocks);
    DestFits(c, off, ei, out.Length);
    ghost var was := out[..];
    hide Multiplied, HoldsProduct, HasA, HasB, FitsA, FitsB, Dest;
    GemmLanesBlocks(c, a, b, blocks, out, off, ei, order, lw);
    MultipliedIsProduct(c, a, b, c.k * blocks, out[..], was, off, ei);
  }
}
