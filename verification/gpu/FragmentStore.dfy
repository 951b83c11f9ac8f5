/**
 The last part of the double-buffered product: every thread stores the cells of its
 fragments, in pairs when rows are even, cell by cell at the edges.
 */
module FragmentStore {
  import opened Matmul
  import opened DoubleBuffer
  import TiledScalar

  predicate InTile(j: Job, i: nat, l: nat) { j.row <= i < j.row + TM && j.col <= l < j.col + TN }

  /** Cell (i, l) is among the stored ones: its thread is done, or is t and its slot is below k. */
  predicate Due(j: Job, done: seq<nat>, t: nat, k: nat, i: nat, l: nat) {
    && InTile(j, i, l)
    && var u, x := ThreadFor(i - j.row, l - j.col), SlotFor(i - j.row, l - j.col);
       u in done || (u == t && x < k)
  }

  ghost predicate Stored(j: Job, now: seq<int>, was: seq<int>, done: seq<nat>, t: nat, k: nat)
    requires j.Valid()
  {
    && |now| == |was| == j.g.n * j.g.m
    && forall i: nat, l: nat :: i < j.g.m && l < j.g.n ==>
         && At(j.g.n, i, l) < |now|
         && now[At(j.g.n, i, l)] == if Due(j, done, t, k, i, l) then Product(j.g, i, l) else was[At(j.g.n, i, l)]
  }

  lemma StoredStarts(j: Job, was: seq<int>, t: nat)
    requires j.Valid() && |was| == j.g.n * j.g.m
    ensures Stored(j, was, was, [], t, 0)
  {
    forall i: nat, l: nat | i < j.g.m && l < j.g.n ensures At(j.g.n, i, l) < |was| { AtBounds(j.g.n, j.g.m, i, l); }
  }

  /** The slot that comes next covers exactly one more cell. */
  lemma DueNext(j: Job, done: seq<nat>, t: nat, k: nat, i: nat, l: nat)
    requires t < THREADS && k < SLOTS
    ensures Due(j, done, t, k + 1, i, l) <==>
              Due(j, done, t, k, i, l) || (i == j.row + RowOf(t, k) && l == j.col + ColOf(t, k))
  {
    hide RowOf, ColOf, ThreadFor, SlotFor;
    CellInside(t, k);
    if InTile(j, i, l) { EveryCellOnce(i - j.row, l - j.col, t, k); }
  }

  /** Writing one in-range cell, or skipping one that is out of range. */
  lemma StoredNext(j: Job, now: seq<int>, was: seq<int>, done: seq<nat>, t: nat, k: nat)
    requires j.Valid() && t < THREADS && k < SLOTS && Stored(j, now, was, done, t, k)
    ensures var i, l := j.row + RowOf(t, k), j.col + ColOf(t, k);
            if i < j.g.m && l < j.g.n then
              At(j.g.n, i, l) < |now| && Stored(j, now[At(j.g.n, i, l) := Product(j.g, i, l)], was, done, t, k + 1)
            else Stored(j, now, was, done, t, k + 1)
  {
    hide Due, At, Product, RowOf, ColOf;
    var gr, gc := j.row + RowOf(t, k), j.col + ColOf(t, k);
    forall i: nat, l: nat | i < j.g.m && l < j.g.n
      ensures Due(j, done, t, k + 1, i, l) <==> Due(j, done, t, k, i, l) || (i == gr && l == gc)
      ensures At(j.g.n, i, l) == At(j.g.n, gr, gc) && gc < j.g.n ==> i == gr && l == gc
    {
      DueNext(j, done, t, k, i, l);
      if At(j.g.n, i, l) == At(j.g.n, gr, gc) && gc < j.g.n { AtUnique(j.g.n, i, l, gr, gc); }
    }
  }

  lemma PairAdjacent(t: nat, f: nat)
    requires t < THREADS && f < 16
    ensures RowOf(t, 2 * f + 1) == RowOf(t, 2 * f) && ColOf(t, 2 * f + 1) == ColOf(t, 2 * f) + 1
  {
    assert (2 * f + 1) / 8 == 2 * f / 8 && (2 * f + 1) / 2 == 2 * f / 2;
  }

  ghost predicate Finished(j: Job, acc: seq<seq<int>>)
    requires j.Valid()
  {
    && |acc| == THREADS
    && forall t: nat, x: nat :: t < THREADS && x < SLOTS ==>
         |acc[t]| == SLOTS && acc[t][x] == Product(j.g, j.row + RowOf(t, x), j.col + ColOf(t, x))
  }

  /** What the protocol leaves once every thread has finished. */
  lemma ProtocolFinishes(j: Job, s: Sys, schedule: seq<nat>)
    requires j.Valid() && Start(s)
    requires forall t: nat :: t < THREADS ==> After(j, s, schedule).pc[t] == Pc(j.blocks + 1, 0)
    ensures Finished(j, After(j, s, schedule).acc)
  {
    forall t: nat, x: nat | t < THREADS && x < SLOTS
      ensures After(j, s, schedule).acc[t][x] == Product(j.g, j.row + RowOf(t, x), j.col + ColOf(t, x))
    {
      FinishedIsProduct(j, s, schedule, t, x);
    }
  }

  /** One cell of thread t that lies inside the matrix. */
  method StoreCell(j: Job, c: array<int>, acc: seq<seq<int>>, t: nat, x: nat, ghost was: seq<int>, ghost done: seq<nat>)
    requires j.Valid() && Finished(j, acc) && t < THREADS && x < SLOTS && Stored(j, c[..], was, done, t, x)
    requires j.row + RowOf(t, x) < j.g.m && j.col + ColOf(t, x) < j.g.n
    modifies c
    ensures Stored(j, c[..], was, done, t, x + 1)
  {
    StoredNext(j, c[..], was, done, t, x);
    var gr, gc := j.row + RowOf(t, x), j.col + ColOf(t, x);
    hide Stored, RowOf, ColOf, Product;
    c[At(j.g.n, gr, gc)] := acc[t][x];
  }

  /** The same cell if it is in range, nothing otherwise. */
  method StoreChecked(j: Job, c: array<int>, acc: seq<seq<int>>, t: nat, x: nat, ghost was: seq<int>, ghost done: seq<nat>)
    requires j.Valid() && Finished(j, acc) && t < THREADS && x < SLOTS && Stored(j, c[..], was, done, t, x)
    modifies c
    ensures Stored(j, c[..], was, done, t, x + 1)
  {
    hide Stored, RowOf, ColOf, Finished;
    if j.row + RowOf(t, x) < j.g.m && j.col + ColOf(t, x) < j.g.n {
      StoreCell(j, c, acc, t, x, was, done);
    } else {
      StoredNext(j, c[..], was, done, t, x);
    }
  }

  /** One fragment's pair of cells: both at once when that is aligned and in range. */
  method StorePair(j: Job, c: array<int>, acc: seq<seq<int>>, t: nat, f: nat, ghost was: seq<int>, ghost done: seq<nat>)
    requires j.Valid() && Finished(j, acc) && t < THREADS && f < 16 && Stored(j, c[..], was, done, t, 2 * f)
    modifies c
    ensures Stored(j, c[..], was, done, t, 2 * f + 2)
  {
    PairAdjacent(t, f);
    hide Stored, RowOf, ColOf, Finished;
    var x := 2 * f;
    if j.row + RowOf(t, x) < j.g.m && j.g.n % 2 == 0 && j.col + ColOf(t, x) + 1 < j.g.n {
      StoreCell(j, c, acc, t, x, was, done);
      StoreCell(j, c, acc, t, x + 1, was, done);
    } else {
      StoreChecked(j, c, acc, t, x, was, done);
      StoreChecked(j, c, acc, t, x + 1, was, done);
    }
  }

  /** All threads, in any order: the tile's in-range cells hold the product, the rest is untouched. */
  method StoreTile(j: Job, c: array<int>, acc: seq<seq<int>>, order: seq<nat>)
    requires j.Valid() && Finished(j, acc) && c.Length == j.g.n * j.g.m
    requires (forall t :: t in order ==> t < THREADS) && (forall t: nat :: t < THREADS ==> t in order)
    modifies c
    ensures forall i: nat, l: nat :: i < j.g.m && l < j.g.n ==>
              && At(j.g.n, i, l) < c.Length
              && c[At(j.g.n, i, l)] == if InTile(j, i, l) then Product(j.g, i, l) else old(c[..])[At(j.g.n, i, l)]
  {
    ghost var was := c[..];
    StoredStarts(j, was, 0);
    for d := 0 to |order|
      invariant Stored(j, c[..], was, order[..d], 0, 0)
    {
      hide Stored, Finished;
      var t := order[d];
      assert t in order && order[..d + 1] == order[..d] + [t];
      NextThread(j, c[..], was, order[..d], 0, t);
      for f := 0 to 16
        invariant Stored(j, c[..], was, order[..d], t, 2 * f)
      {
        StorePair(j, c, acc, t, f, was, order[..d]);
      }
      ThreadDone(j, c[..], was, order[..d], t);
    }
    assert order[..|order|] == order;
    forall i: nat, l: nat | i < j.g.m && l < j.g.n ensures Due(j, order, 0, 0, i, l) <==> InTile(j, i, l) {
      if InTile(j, i, l) { EveryCellOnce(i - j.row, l - j.col, 0, 0); }
    }
  }

  /** Nothing of a thread is stored before its first slot. */
  lemma NextThread(j: Job, now: seq<int>, was: seq<int>, done: seq<nat>, t: nat, u: nat)
    requires j.Valid() && Stored(j, now, was, done, t, 0)
    ensures Stored(j, now, was, done, u, 0)
  {
    hide At, Product, ThreadFor, SlotFor;
  }

  lemma ThreadDone(j: Job, now: seq<int>, was: seq<int>, done: seq<nat>, t: nat)
    requires j.Valid() && t < THREADS && Stored(j, now, was, done, t, SLOTS)
    ensures Stored(j, now, was, done + [t], 0, 0)
  {
    forall i: nat, l: nat | i < j.g.m && l < j.g.n
      ensures Due(j, done, t, SLOTS, i, l) <==> Due(j, done + [t], 0, 0, i, l)
    {
      if InTile(j, i, l) { EveryCellOnce(i - j.row, l - j.col, t, 0); }
    }
    hide At, Product, Due;
  }

  // ----- the grid -----

  /** The grid is that of any kernel with tiles of 64 by 64. */
  const Tiles := TiledScalar.Tiling(TM, TN, TK, 8, 16, 8, 4)

  function JobOf(g: Gemm, gridX: nat, group: nat): Job
    requires gridX > 0
  {
    Job(g, At(TM, group / gridX, 0), At(TN, group % gridX, 0), (g.k + TK - 1) / TK)
  }

  /** Every threadgroup has run the protocol to its end, each under a schedule of its own. */
  ghost predicate AllFinished(g: Gemm, gridX: nat, count: nat, starts: seq<Sys>, schedules: seq<seq<nat>>, accs: seq<seq<seq<int>>>)
    requires g.Valid() && gridX > 0
  {
    && |starts| == |schedules| == |accs| == count
    && forall group: nat :: group < count ==>
         && Start(starts[group])
         && var j, end := JobOf(g, gridX, group), After(JobOf(g, gridX, group), starts[group], schedules[group]);
            accs[group] == end.acc && forall t: nat :: t < THREADS ==> end.pc[t] == Pc(j.blocks + 1, 0)
  }

  lemma JobIsValid(g: Gemm, gridX: nat, group: nat)
    requires g.Valid() && gridX > 0
    ensures JobOf(g, gridX, group).Valid()
  {
  }

  lemma GroupFinishes(g: Gemm, gridX: nat, count: nat, starts: seq<Sys>, schedules: seq<seq<nat>>, accs: seq<seq<seq<int>>>, group: nat)
    requires g.Valid() && gridX > 0 && group < count && AllFinished(g, gridX, count, starts, schedules, accs)
    ensures group < |accs| && JobOf(g, gridX, group).Valid() && JobOf(g, gridX, group).g == g
    ensures Finished(JobOf(g, gridX, group), accs[group])
  {
    JobIsValid(g, gridX, group);
    hide JobOf, Start, After, Finished;
    ProtocolFinishes(JobOf(g, gridX, group), starts[group], schedules[group]);
  }

  /** A stored tile completes exactly its group's cells. */
  lemma GridStep(g: Gemm, now: seq<int>, mid: seq<int>, gridX: nat, gridY: nat, groups: seq<nat>, group: nat)
    requires g.Valid() && group < gridX * gridY && TiledScalar.Covers(g, Tiles, gridY, gridX) && gridX > 0
    requires forall i: nat, l: nat :: i < g.m && l < g.n ==>
               && At(g.n, i, l) < |now| == |mid|
               && now[At(g.n, i, l)] == if InTile(JobOf(g, gridX, group), i, l) then Product(g, i, l) else mid[At(g.n, i, l)]
    requires TiledScalar.Done(g, Tiles, gridX, mid, groups)
    ensures TiledScalar.Done(g, Tiles, gridX, now, groups + [group])
  {
    forall i: nat, l: nat | i < g.m && l < g.n
      ensures InTile(JobOf(g, gridX, group), i, l) <==> TiledScalar.GroupOf(Tiles, gridX, i, l) == group
    {
      TiledScalar.GroupOwns(g, Tiles, gridX, gridY, group, i, l);
    }
    hide At, TiledScalar.GroupOf, Product, InTile;
  }

  /** The whole kernel: whatever order the groups store in and however their threads were
      interleaved, every cell holds the product. */
  method StoreGrid(g: Gemm, c: array<int>, gridY: nat, gridX: nat, groups: seq<nat>, order: seq<nat>, accs: seq<seq<seq<int>>>,
                   ghost starts: seq<Sys>, ghost schedules: seq<seq<nat>>)
    requires g.Valid() && c.Length == g.n * g.m && TiledScalar.Covers(g, Tiles, gridY, gridX) && gridX > 0
    requires TiledScalar.Order(groups, gridX * gridY) && TiledScalar.Order(order, THREADS)
    requires AllFinished(g, gridX, gridX * gridY, starts, schedules, accs)
    modifies c
    ensures IsProduct(g, c[..])
  {
    assert TiledScalar.Done(g, Tiles, gridX, c[..], []) by {
      forall i: nat, l: nat | i < g.m && l < g.n ensures At(g.n, i, l) < c.Length { AtBounds(g.n, g.m, i, l); }
    }
    hide At, TiledScalar.Done, Product, JobOf, AllFinished, Finished, InTile, IsProduct;
    for d := 0 to |groups|
      invariant TiledScalar.Done(g, Tiles, gridX, c[..], groups[..d])
    {
      var group := groups[d];
      assert groups[..d + 1] == groups[..d] + [group] && group in groups;
      ghost var mid := c[..];
      GroupFinishes(g, gridX, gridX * gridY, starts, schedules, accs, group);
      StoreTile(JobOf(g, gridX, group), c, accs[group], order);
      GridStep(g, c[..], mid, gridX, gridY, groups[..d], group);
    }
    assert groups[..|groups|] == groups;
    TiledScalar.AllDone(g, Tiles, gridY, gridX, c[..], groups);
    CellsAreProduct(g, c[..]);
  }
}
