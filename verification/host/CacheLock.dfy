/**
 The fetch of a pinned checkout into a cache shared by any number of build processes: a
 marker file says the cache is valid, a lock file serialises whoever finds it invalid.
 Deleting and cloning are not atomic; a fetch may fail, and a process may be killed.
 */
module CacheLock {
  import opened Ir

  datatype Marker = NoMarker | OtherText | Pinned

  /** The cache directory, and whether the pinned checkout in it is complete. */
  datatype Cache = Absent | Present(complete: bool, marker: Marker)

  datatype Pc = Check | WantLock | Recheck | Wipe | Clone | CreateMarker | WriteMarker | Release | Failing
              | Returned | Failed | Killed

  datatype Sys = Sys(cache: Cache, lock: Option<nat>, pc: seq<Pc>)

  /** What happens to the process that moves: it takes its next step; a deletion or a clone
      gets partly done; the step fails; the process is killed. */
  datatype Action = Go | Partly(keepMarker: bool) | Fail | Kill

  /** `cache_is_valid`. */
  predicate IsValid(c: Cache) { c.Present? && c.marker == Pinned }

  predicate Finished(pc: Pc) { pc == Returned || pc == Failed || pc == Killed }

  /** One step of process p; a process that cannot take it stays as it is. */
  function Next(s: Sys, p: nat, a: Action): (s': Sys)
    ensures |s'.pc| == |s.pc|
  {
    if p >= |s.pc| || Finished(s.pc[p]) then s else
    if a.Kill? then s.(pc := s.pc[p := Killed]) else
    match s.pc[p]
    case Check => At(s, p, if IsValid(s.cache) then Returned else WantLock)
    case WantLock => if s.lock.None? then At(s, p, Recheck).(lock := Some(p)) else s
    case Recheck => At(s, p, if IsValid(s.cache) then Release else Wipe)
    case Wipe =>
      (match a
       case Go => At(s, p, Clone).(cache := Absent)
       case Partly(keep) =>
         if s.cache.Absent? then s else s.(cache := Present(false, if keep then s.cache.marker else NoMarker))
       case _ => At(s, p, Failing))
    case Clone =>
      (match a
       case Go => At(s, p, CreateMarker).(cache := Present(true, NoMarker))
       case Partly(_) => s.(cache := Present(false, NoMarker))
       case _ => At(s, p, Failing))
    case CreateMarker =>
      if a.Fail? then At(s, p, Failing) else At(s, p, WriteMarker).(cache := Present(s.cache.Present? && s.cache.complete, OtherText))
    case WriteMarker =>
      if a.Fail? then At(s, p, Failing) else At(s, p, Release).(cache := Present(s.cache.Present? && s.cache.complete, Pinned))
    case Release => At(s, p, Returned).(lock := None)
    case Failing => At(s, p, Failed).(lock := None)
  }

  function At(s: Sys, p: nat, pc: Pc): (s': Sys)
    requires p < |s.pc|
    ensures |s'.pc| == |s.pc|
  {
    s.(pc := s.pc[p := pc])
  }

  function After(s: Sys, schedule: seq<(nat, Action)>): (s': Sys)
    ensures |s'.pc| == |s.pc|
    decreases |schedule|
  {
    if schedule == [] then s else After(Next(s, schedule[0].0, schedule[0].1), schedule[1..])
  }

  /** Any cache left behind by earlier builds, as long as a valid marker means a complete checkout. */
  predicate Start(s: Sys) {
    s.lock.None? && (forall p :: 0 <= p < |s.pc| ==> s.pc[p] == Check) && (IsValid(s.cache) ==> s.cache.complete)
  }

  // ----- the invariant -----

  predicate HoldsLock(pc: Pc) {
    pc == Recheck || pc == Release || pc == Failing || Rebuilding(pc)
  }

  /** Between the decision to wipe and the written marker. */
  predicate Rebuilding(pc: Pc) { pc == Wipe || pc == Clone || pc == CreateMarker || pc == WriteMarker }

  ghost predicate Inv(s: Sys) {
    && (IsValid(s.cache) ==> s.cache.complete)
    && (forall p :: 0 <= p < |s.pc| && HoldsLock(s.pc[p]) ==> s.lock == Some(p))
    && (forall p :: 0 <= p < |s.pc| && Rebuilding(s.pc[p]) ==> !IsValid(s.cache))
    && (forall p :: 0 <= p < |s.pc| && s.pc[p] == Clone ==> s.cache.Absent? || s.cache == Present(false, NoMarker))
    && (forall p :: 0 <= p < |s.pc| && (s.pc[p] == CreateMarker || s.pc[p] == WriteMarker) ==> s.cache.Present? && s.cache.complete)
    && (forall p :: 0 <= p < |s.pc| && (s.pc[p] == Release || s.pc[p] == Returned) ==> IsValid(s.cache))
  }

  lemma InvStarts(s: Sys)
    requires Start(s)
    ensures Inv(s)
  {
  }

  /** One step keeps the invariant, and a valid cache stays valid and untouched. */
  lemma StepKeeps(s: Sys, p: nat, a: Action)
    requires Inv(s)
    ensures Inv(Next(s, p, a))
    ensures IsValid(s.cache) ==> Next(s, p, a).cache == s.cache
  {
    if p < |s.pc| && Rebuilding(s.pc[p]) && !a.Kill? {
      RebuildKeeps(s, p, a);
    } else {
      OtherKeeps(s, p, a);
    }
    hide Inv, Next;
  }

  lemma RebuildKeeps(s: Sys, p: nat, a: Action)
    requires Inv(s) && p < |s.pc| && Rebuilding(s.pc[p]) && !a.Kill?
    ensures Inv(Next(s, p, a))
    ensures IsValid(s.cache) ==> Next(s, p, a).cache == s.cache
  {
  }

  lemma OtherKeeps(s: Sys, p: nat, a: Action)
    requires Inv(s) && (p >= |s.pc| || !Rebuilding(s.pc[p]) || a.Kill?)
    ensures Inv(Next(s, p, a)) && Next(s, p, a).cache == s.cache
  {
  }

  lemma {:induction false} EverySchedule(s: Sys, schedule: seq<(nat, Action)>)
    requires Inv(s)
    ensures Inv(After(s, schedule))
    ensures IsValid(s.cache) ==> After(s, schedule).cache == s.cache
    decreases |schedule|
  {
    hide Inv, Next;
    if schedule != [] {
      StepKeeps(s, schedule[0].0, schedule[0].1);
      EverySchedule(Next(s, schedule[0].0, schedule[0].1), schedule[1..]);
    }
  }

  /** Under every schedule: one process at a time rebuilds; a valid marker means a complete
      checkout; a clone starts from nothing but its own leavings; once valid, the cache never
      changes again; who returns normally sees it valid. */
  lemma ProtocolIsSafe(s: Sys, schedule: seq<(nat, Action)>, later: seq<(nat, Action)>)
    requires Start(s)
    ensures var t := After(s, schedule);
            && (forall p, q :: 0 <= p < |t.pc| && 0 <= q < |t.pc| && Rebuilding(t.pc[p]) && HoldsLock(t.pc[q]) ==> p == q)
            && (IsValid(t.cache) ==> t.cache.complete)
            && (forall p :: 0 <= p < |t.pc| && t.pc[p] == Clone ==> t.cache.Absent? || t.cache == Present(false, NoMarker))
            && (IsValid(t.cache) ==> After(t, later).cache == t.cache)
            && (forall p :: 0 <= p < |t.pc| && t.pc[p] == Returned ==> IsValid(t.cache) && t.cache.complete)
  {
    InvStarts(s);
    EverySchedule(s, schedule);
    EverySchedule(After(s, schedule), later);
  }

  // ----- who can still move -----

  /** Some process can change the state by taking its next step. */
  ghost predicate CanMove(s: Sys) {
    exists p: nat :: p < |s.pc| && Next(s, p, Go) != s
  }

  /** The lock is taken by a process that no longer runs, or by none of these processes. */
  ghost predicate Orphaned(s: Sys) {
    s.lock.Some? && (s.lock.value >= |s.pc| || !HoldsLock(s.pc[s.lock.value]))
  }

  /** The build stops moving exactly when everyone still running waits for a lock whose
      holder was killed: a failing fetch releases it, a killed one does not. */
  lemma StopsIff(s: Sys)
    requires Inv(s)
    ensures !CanMove(s) <==>
              forall p :: 0 <= p < |s.pc| && !Finished(s.pc[p]) ==> s.pc[p] == WantLock && Orphaned(s)
  {
    forall p: nat | p < |s.pc| ensures Next(s, p, Go) != s <==> !Finished(s.pc[p]) && !(s.pc[p] == WantLock && s.lock.Some?) {
      GoMoves(s, p);
    }
    if !CanMove(s) {
      forall p | 0 <= p < |s.pc| && !Finished(s.pc[p]) ensures s.pc[p] == WantLock && Orphaned(s) {
        assert Next(s, p, Go) == s;
        if !Orphaned(s) { assert Next(s, s.lock.value, Go) == s; }
      }
    }
  }

  lemma GoMoves(s: Sys, p: nat)
    requires p < |s.pc|
    ensures Next(s, p, Go) != s <==> !Finished(s.pc[p]) && !(s.pc[p] == WantLock && s.lock.Some?)
  {
    assert Next(s, p, Go) != s ==> Next(s, p, Go).pc[p] != s.pc[p];
  }

  /** The lock is orphaned only by a kill. */
  ghost predicate LockAccounted(s: Sys) {
    s.lock.Some? ==> s.lock.value < |s.pc| && (HoldsLock(s.pc[s.lock.value]) || s.pc[s.lock.value] == Killed)
  }

  lemma {:induction false} OnlyKillsOrphan(s: Sys, schedule: seq<(nat, Action)>)
    requires Inv(s) && LockAccounted(s)
    ensures LockAccounted(After(s, schedule))
    decreases |schedule|
  {
    if schedule != [] {
      StepKeeps(s, schedule[0].0, schedule[0].1);
      assert LockAccounted(Next(s, schedule[0].0, schedule[0].1));
      hide Inv, Next, LockAccounted;
      OnlyKillsOrphan(Next(s, schedule[0].0, schedule[0].1), schedule[1..]);
    }
  }

  // ----- which builds can get stuck -----

  /** Someone still runs and nobody can move. */
  ghost predicate Blocked(s: Sys) {
    !CanMove(s) && exists p :: 0 <= p < |s.pc| && !Finished(s.pc[p])
  }

  predicate NoKill(schedule: seq<(nat, Action)>) {
    forall i :: 0 <= i < |schedule| ==> !schedule[i].1.Kill?
  }

  ghost predicate Unkilled(s: Sys) {
    forall p :: 0 <= p < |s.pc| ==> s.pc[p] != Killed
  }

  lemma {:induction false} StaysUnkilled(s: Sys, schedule: seq<(nat, Action)>)
    requires NoKill(schedule) && Unkilled(s)
    ensures Unkilled(After(s, schedule))
    decreases |schedule|
  {
    if schedule != [] {
      assert Unkilled(Next(s, schedule[0].0, schedule[0].1));
      hide Next, Unkilled;
      StaysUnkilled(Next(s, schedule[0].0, schedule[0].1), schedule[1..]);
    }
  }

  /** Without a kill the build never gets stuck, whatever fails and whoever moves. */
  lemma NoKillNoBlock(s: Sys, schedule: seq<(nat, Action)>)
    requires Start(s) && NoKill(schedule)
    ensures !Blocked(After(s, schedule))
  {
    var t := After(s, schedule);
    InvStarts(s);
    EverySchedule(s, schedule);
    OnlyKillsOrphan(s, schedule);
    StaysUnkilled(s, schedule);
    hide Inv, After, CanMove;
    StopsIff(t);
  }

  /** A cache that was valid from the start is never locked. */
  ghost predicate Untroubled(s: Sys) {
    IsValid(s.cache) && s.lock.None? && forall p :: 0 <= p < |s.pc| ==> s.pc[p] == Check || Finished(s.pc[p])
  }

  lemma {:induction false} StaysUntroubled(s: Sys, schedule: seq<(nat, Action)>)
    requires Untroubled(s)
    ensures Untroubled(After(s, schedule))
    decreases |schedule|
  {
    if schedule != [] {
      assert Untroubled(Next(s, schedule[0].0, schedule[0].1));
      hide Next, Untroubled;
      StaysUntroubled(Next(s, schedule[0].0, schedule[0].1), schedule[1..]);
    }
  }

  /** From a start, some schedule blocks the build exactly when at least two processes find
      the cache invalid: one is killed with the lock, the rest wait for it for ever. */
  lemma BlocksIff(s: Sys)
    requires Start(s)
    ensures (exists schedule :: Blocked(After(s, schedule))) <==> |s.pc| >= 2 && !IsValid(s.cache)
  {
    hide Start, After, Blocked, IsValid;
    if |s.pc| >= 2 && !IsValid(s.cache) {
      var schedule := KillHolder(s);
      assert Blocked(After(s, schedule));
    } else {
      forall schedule ensures !Blocked(After(s, schedule)) { NeverBlocks(s, schedule); }
    }
  }

  lemma NeverBlocks(s: Sys, schedule: seq<(nat, Action)>)
    requires Start(s) && (|s.pc| < 2 || IsValid(s.cache))
    ensures !Blocked(After(s, schedule))
  {
    var t := After(s, schedule);
    InvStarts(s);
    EverySchedule(s, schedule);
    if IsValid(s.cache) {
      StaysUntroubled(s, schedule);
    } else {
      OnlyKillsOrphan(s, schedule);
    }
    hide Inv, After, CanMove;
    StopsIff(t);
  }

  /** Process 0 holds the lock and is dead; processes from 1 to n have come to wait for it. */
  ghost predicate Waiting(s: Sys, n: nat) {
    && 1 <= n <= |s.pc| && s.lock == Some(0) && !IsValid(s.cache) && s.pc[0] == Killed
    && forall p :: 1 <= p < |s.pc| ==> s.pc[p] == if p < n then WantLock else Check
  }

  /** A schedule with one kill, after which nobody can move. */
  lemma KillHolder(s: Sys) returns (schedule: seq<(nat, Action)>)
    requires Start(s) && |s.pc| >= 2 && !IsValid(s.cache)
    ensures Blocked(After(s, schedule))
    ensures |schedule| >= 3 && schedule[..3] == [(0, Go), (0, Go), (0, Kill)]
    ensures forall i :: 3 <= i < |schedule| ==> schedule[i].1 == Go
  {
    var s1 := Next(s, 0, Go);
    var s2 := Next(s1, 0, Go);
    var s3 := Next(s2, 0, Kill);
    var rest := OthersWait(s3, 1);
    schedule := [(0, Go), (0, Go), (0, Kill)] + rest;
    assert schedule[1..] == [(0, Go), (0, Kill)] + rest && schedule[1..][1..] == [(0, Kill)] + rest
           && schedule[1..][1..][1..] == rest;
    assert After(s, schedule) == After(s1, schedule[1..]) == After(s2, schedule[1..][1..]) == After(s3, rest);
  }

  lemma {:induction false} OthersWait(s: Sys, n: nat) returns (rest: seq<(nat, Action)>)
    requires Waiting(s, n) && |s.pc| >= 2
    ensures Blocked(After(s, rest)) && forall i :: 0 <= i < |rest| ==> rest[i].1 == Go
    decreases |s.pc| - n
  {
    if n == |s.pc| {
      rest := [];
      assert !Finished(s.pc[1]);
    } else {
      var next := Next(s, n, Go);
      assert next.pc[n] == WantLock && Waiting(next, n + 1);
      var more := OthersWait(next, n + 1);
      rest := [(n, Go)] + more;
      assert rest[1..] == more;
    }
  }

  // ----- a build that nothing disturbs succeeds -----

  ghost predicate Undisturbed(s: Sys) {
    forall p :: 0 <= p < |s.pc| ==> s.pc[p] != Failing && s.pc[p] != Failed && s.pc[p] != Killed
  }

  lemma {:induction false} StaysUndisturbed(s: Sys, schedule: seq<(nat, Action)>)
    requires Undisturbed(s) && forall i :: 0 <= i < |schedule| ==> schedule[i].1 == Go
    ensures Undisturbed(After(s, schedule))
    decreases |schedule|
  {
    if schedule != [] {
      assert Undisturbed(Next(s, schedule[0].0, Go));
      hide Next, Undisturbed;
      StaysUndisturbed(Next(s, schedule[0].0, Go), schedule[1..]);
    }
  }

  /** Where every step succeeds and all have finished, all have returned and the cache is valid. */
  lemma GoAloneSucceeds(s: Sys, schedule: seq<(nat, Action)>)
    requires Start(s) && (forall i :: 0 <= i < |schedule| ==> schedule[i].1 == Go)
    requires |s.pc| > 0 && forall p :: 0 <= p < |s.pc| ==> Finished(After(s, schedule).pc[p])
    ensures var t := After(s, schedule);
            (forall p :: 0 <= p < |t.pc| ==> t.pc[p] == Returned) && t.cache == Present(true, Pinned)
  {
    InvStarts(s);
    EverySchedule(s, schedule);
    StaysUndisturbed(s, schedule);
    var t := After(s, schedule);
    assert Finished(t.pc[0]);
    hide After, Next;
  }

  lemma {:induction false} AfterAppend(s: Sys, a: seq<(nat, Action)>, b: seq<(nat, Action)>)
    ensures After(s, a + b) == After(After(s, a), b)
    decreases |a|
  {
    hide Next;
    if a == [] {
      assert a + b == b;
    } else {
      assert (a + b)[0] == a[0] && (a + b)[1..] == a[1..] + b;
      AfterAppend(Next(s, a[0].0, a[0].1), a[1..], b);
    }
  }

  /** The first n processes have returned, the others have not begun. */
  predicate Served(s: Sys, n: nat) {
    && n <= |s.pc| && s.lock.None? && (n > 0 ==> IsValid(s.cache))
    && forall p :: 0 <= p < |s.pc| ==> s.pc[p] == if p < n then Returned else Check
  }

  /** One process after another, each to its end: every build can succeed. */
  lemma {:induction false} EveryBuildCanSucceed(s: Sys, n: nat) returns (schedule: seq<(nat, Action)>)
    requires Served(s, n)
    ensures forall i :: 0 <= i < |schedule| ==> schedule[i].1 == Go
    ensures Served(After(s, schedule), |s.pc|)
    decreases |s.pc| - n
  {
    if n == |s.pc| {
      schedule := [];
    } else {
      var mine := ServeOne(s, n);
      var rest := EveryBuildCanSucceed(After(s, mine), n + 1);
      schedule := mine + rest;
      AfterAppend(s, mine, rest);
    }
  }

  lemma ServeOne(s: Sys, n: nat) returns (schedule: seq<(nat, Action)>)
    requires Served(s, n) && n < |s.pc|
    ensures forall i :: 0 <= i < |schedule| ==> schedule[i].1 == Go
    ensures Served(After(s, schedule), n + 1)
  {
    var steps := if IsValid(s.cache) then 1 else 8;
    schedule := seq(steps, _ => (n, Go));
    GoOn(s, n, steps);
    if IsValid(s.cache) {
      assert GoTimes(s, n, 1) == GoTimes(Next(s, n, Go), n, 0);
    } else {
      EightSteps(s, n);
    }
  }

  /** Check, lock, check again, wipe, clone, create and write the marker, release. */
  lemma EightSteps(s: Sys, n: nat)
    requires Served(s, n) && n < |s.pc| && !IsValid(s.cache)
    ensures Served(GoTimes(s, n, 8), n + 1)
  {
    FourToClone(s, n);
    FourToReturn(s, n);
    hide Served, Next;
    TimesAdd(s, n, 4, 4);
  }

  lemma FourToClone(s: Sys, n: nat)
    requires Served(s, n) && n < |s.pc| && !IsValid(s.cache)
    ensures GoTimes(s, n, 4) == Sys(Absent, Some(n), s.pc[n := Clone])
  {
    var s1 := Next(s, n, Go);
    var s2 := Next(s1, n, Go);
    var s3 := Next(s2, n, Go);
    var s4 := Next(s3, n, Go);
    assert s4 == Sys(Absent, Some(n), s.pc[n := Clone]);
    hide Next, Served;
    assert GoTimes(s2, n, 2) == s4;
  }

  lemma FourToReturn(s: Sys, n: nat)
    requires Served(s, n) && n < |s.pc| && !IsValid(s.cache)
    ensures Served(GoTimes(Sys(Absent, Some(n), s.pc[n := Clone]), n, 4), n + 1)
  {
    var s4 := Sys(Absent, Some(n), s.pc[n := Clone]);
    var s5 := Next(s4, n, Go);
    var s6 := Next(s5, n, Go);
    var s7 := Next(s6, n, Go);
    var s8 := Next(s7, n, Go);
    assert Served(s8, n + 1);
    hide Next, Served;
    assert GoTimes(s6, n, 2) == s8;
  }

  lemma {:induction false} TimesAdd(s: Sys, p: nat, a: nat, b: nat)
    ensures GoTimes(s, p, a + b) == GoTimes(GoTimes(s, p, a), p, b)
    decreases a
  {
    hide Next;
    if a > 0 { TimesAdd(Next(s, p, Go), p, a - 1, b); }
  }

  /** The state after n steps of one process. */
  function GoTimes(s: Sys, p: nat, n: nat): Sys
    decreases n
  {
    if n == 0 then s else GoTimes(Next(s, p, Go), p, n - 1)
  }

  lemma {:induction false} GoOn(s: Sys, p: nat, n: nat)
    ensures After(s, seq(n, _ => (p, Go))) == GoTimes(s, p, n)
    decreases n
  {
    hide Next;
    if n > 0 {
      assert seq(n, _ => (p, Go))[1..] == seq(n - 1, _ => (p, Go));
      GoOn(Next(s, p, Go), p, n - 1);
    }
  }
}
