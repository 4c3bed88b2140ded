/** Runs of a new pool that show how the idle total goes wrong and how a pass fails to end. */
module PoolWitnesses {
  import opened Basics
  import opened AutoScaling
  import opened PoolMaintenance
  import opened GrowLoop
  import opened PoolRuns

  // ----- Every operation can happen --------------------------------------------------------

  /** The shrink loop comes to an end. */
  lemma {:induction false} ShrinkLoopEnds(p: Pool, q: Pool) returns (r: Pool)
    requires Sound(p) && Shrunk(p, q)
    ensures Shrunk(p, r) && (ShrinkWanted(r) ==> !Deletable(r))
    decreases Candidates(q.table.status)
  {
    if ShrinkWanted(q) && Deletable(q) {
      var q1 := DeletesOne(q);
      ShrunkAfterStep(p, q, q1, true);
      r := ShrinkLoopEnds(p, q1);
    } else {
      r := q;
    }
  }

  lemma DeletesOne(q: Pool) returns (q1: Pool)
    requires Sound(q) && Deletable(q)
    ensures ShrinkStep(q, q1, true)
  {
    if n :| n in Bucket(q.table.status, Pending) {
      q1 := q.(table := SetStatus(q.table, n, Disconnected, 0), killingIdle := false);
      assert ShrinksBy(q, n, q1.table);
    } else {
      var n :| n in Bucket(q.table.status, Idle) && IdleSize(q) - q.table.available[n] >= q.cfg.minIdle;
      q1 := q.(table := SetStatus(q.table, n, NotifyDeleting, -1), killingIdle := false);
      assert ShrinksBy(q, n, q1.table);
    }
  }

  /** A pass always comes to an end, whatever the backend replies. */
  lemma PassEnds(p: Pool, replies: seq<Reply>, now: int) returns (q: Pool)
    requires Sound(p)
    ensures Maintained(p, q, replies, now)
  {
    if Active(p) {
      var p1 := p.(ready := true);
      GrowAllGrows(p1, replies, now);
      var grown := GrowAll(p1, replies, now);
      var r := ShrinkLoopEnds(grown, grown);
      PassDone(p, replies, now, r);
      q := r.(killingIdle := CanKill(r));
    } else {
      InactiveMaintains(p, p.ready, replies, now);
      q := p.(ready := p.ready);
    }
  }

  /** A report that is not exact makes a right total wrong. */
  lemma ReportBreaksTotal(p: Pool, e: Event) returns (q: Pool)
    requires TotalIsRight(p) && IsReport(e.op) && !Exact(p, e.op)
    ensures Happens(p, e, q) && !TotalIsRight(q)
  {
    ReportErrors(p, e.op, e.now);
    q := Updated(p, e.op, e.now);
    if PassFollows(p, e.op) {
      q := PassEnds(q, e.replies, e.now);
    }
    StepKeepsTotalIff(p, e.op, e.replies, e.now, q);
  }

  // ----- How the total goes wrong --------------------------------------------------------------

  /** A new pool whose lower bounds are zero, with room for one worker of one slot. */
  ghost predicate IsSmallPool(p: Pool)
  {
    && IsNew(p) && p.cfg.hasBackend && !p.cfg.batch && p.cfg.maxSize == 1
    && p.cfg.minIdle == 0 && p.cfg.maxIdle == 0 && p.cfg.minSize == 0 && p.cfg.slots == 1
  }

  lemma SmallPool() returns (p: Pool)
    ensures IsSmallPool(p)
  {
    var t := EmptyTable();
    var cfg := Config(true, false, 0, 0, 0, 1, 1, 0, DEFAULT_RETRY_DELAY, RESET_MARGIN);
    p := Pool(cfg, false, t, 0, false, false, Errors(None, None, None));
  }

  /** A run of a new pool with a backend throughout which the total is right. */
  ghost predicate RightRun(pools: seq<Pool>, events: seq<Event>)
  {
    && IsPoolRun(pools, events) && IsNew(pools[0]) && pools[0].cfg.hasBackend
    && forall i :: 0 <= i < |pools| ==> TotalIsRight(pools[i])
  }

  /** The last event of a run, `op`, makes a total wrong that was right until then. */
  ghost predicate BreaksTotal(pools: seq<Pool>, events: seq<Event>, op: Op)
  {
    && events != [] && IsPoolRun(pools, events) && RightRun(pools[..|events|], events[..|events| - 1])
    && events[|events| - 1].op == op && !TotalIsRight(pools[|events|])
  }

  lemma RunGoesOn(pools: seq<Pool>, events: seq<Event>, e: Event, q: Pool)
    requires IsPoolRun(pools, events) && Happens(pools[|events|], e, q)
    ensures IsPoolRun(pools + [q], events + [e])
  {
    var ps, es := pools + [q], events + [e];
    assert forall i {:trigger es[i]} :: 0 <= i < |events| ==>
      es[i] == events[i] && ps[i] == pools[i] && ps[i + 1] == pools[i + 1];
  }

  lemma FirstEvent(p: Pool, e: Event, q: Pool)
    requires IsNew(p) && p.cfg.hasBackend && Exact(p, e.op) && Happens(p, e, q)
    ensures RightRun([p, q], [e])
  {
    StepKeepsTotalIff(p, e.op, e.replies, e.now, q);
  }

  lemma LastEvent(pools: seq<Pool>, events: seq<Event>, e: Event) returns (q: Pool)
    requires RightRun(pools, events) && IsReport(e.op) && !Exact(pools[|events|], e.op)
    ensures BreaksTotal(pools + [q], events + [e], e.op)
  {
    q := ReportBreaksTotal(pools[|events|], e);
    RunGoesOn(pools, events, e, q);
    assert (pools + [q])[..|events| + 1] == pools && (events + [e])[..|events|] == events;
  }

  /** A worker connects with a negative slot count. */
  lemma NegativeReportBreaksTotal(n: Name) returns (pools: seq<Pool>, events: seq<Event>)
    ensures BreaksTotal(pools, events, Connected(n, false, -1))
  {
    var p := SmallPool();
    var e := Event(Connected(n, false, -1), [], 0);
    var q := LastEvent([p], [], e);
    pools, events := [p] + [q], [] + [e];
  }

  lemma OnlyWorker(t: Table, n: Name, s: Status)
    requires t.status == map[n := s]
    ensures SizeOf(t) == Weight(Some(s)) + t.pendingUnknown
    ensures forall u :: Bucket(t.status, u) == if u == s then {n} else {}
  {
    forall u ensures Bucket(t.status, u) == if u == s then {n} else {} {
    }
  }

  lemma NewWorker(p: Pool, n: Name) returns (q: Pool)
    requires IsSmallPool(p)
    ensures q == Updated(p, Connected(n, false, 1), 0) && Sound(q) && Active(q)
    ensures q.cfg == p.cfg && q.table.status == map[n := Idle] && q.table.available == map[n := 1]
    ensures q.table.pendingUnknown == 0 && IdleSize(q) == 1
  {
    q := Updated(p, Connected(n, false, 1), 0);
    AgentAvailableDrifts(p, n, false, 1);
    OnlyWorker(q.table, n, Idle);
  }

  /** A pool whose lower bounds are zero and whose only worker is idle and not wanted. */
  ghost predicate HasSpare(g: Pool, n: Name)
  {
    && Sound(g) && g.cfg.minIdle == 0 && g.cfg.maxIdle == 0 && g.cfg.minSize == 0
    && g.table.status == map[n := Idle] && g.table.available == map[n := 1]
    && g.table.pendingUnknown == 0 && IdleSize(g) == 1
  }

  lemma StopsSpare(g: Pool, n: Name) returns (q: Pool)
    requires HasSpare(g, n)
    ensures ShrinkWanted(g) && ShrinkStep(g, q, true) && q.cfg == g.cfg && q.table.pendingUnknown == 0
    ensures q.table.status == map[n := NotifyDeleting] && q.table.available == map[n := 1]
  {
    OnlyWorker(g.table, n, Idle);
    q := g.(table := SetStatus(g.table, n, NotifyDeleting, -1), killingIdle := false);
    assert ShrinksBy(g, n, q.table);
  }

  /** The shrink loop tells it to stop. */
  lemma StopsOnlyWorker(g: Pool, n: Name) returns (q: Pool)
    requires HasSpare(g, n)
    ensures Shrunk(g, q) && !ShrinkWanted(q)
    ensures Get(q.table.status, n) == Some(NotifyDeleting) && Get(q.table.available, n) == Some(1)
  {
    q := StopsSpare(g, n);
    ShrunkAfterStep(g, g, q, true);
    OnlyWorker(q.table, n, NotifyDeleting);
  }

  lemma StopsNewWorker(p: Pool, n: Name) returns (q: Pool)
    requires IsSmallPool(p)
    ensures Happens(p, Event(Connected(n, false, 1), [], 0), q)
    ensures Get(q.table.status, n) == Some(NotifyDeleting) && Get(q.table.available, n) == Some(1)
  {
    var p1 := NewWorker(p, n);
    var g := p1.(ready := true);
    OnlyWorker(g.table, n, Idle);
    assert GrowAll(g, [], 0) == g;
    var r := StopsOnlyWorker(g, n);
    PassDone(p1, [], 0, r);
    q := r.(killingIdle := CanKill(r));
  }

  /** A worker connects to a pool that wants none, and the pass tells it to stop. */
  lemma StoppingRun(n: Name) returns (pools: seq<Pool>, events: seq<Event>)
    ensures RightRun(pools, events)
    ensures var t := pools[|events|].table;
      Get(t.status, n) == Some(NotifyDeleting) && Get(t.available, n) == Some(1)
  {
    var p := SmallPool();
    var q := StopsNewWorker(p, n);
    var e := Event(Connected(n, false, 1), [], 0);
    FirstEvent(p, e, q);
    pools, events := [p, q], [e];
  }

  /** Then its allocation fails. */
  lemma FailureOfStoppingBreaksTotal(n: Name) returns (pools: seq<Pool>, events: seq<Event>)
    ensures BreaksTotal(pools, events, AllocationError(Some(n)))
  {
    pools, events := StoppingRun(n);
    var e := Event(AllocationError(Some(n)), [], 0);
    var q := LastEvent(pools, events, e);
    pools, events := pools + [q], events + [e];
  }

  /** The grow loop over an empty pool that one session waits for. */
  lemma AsksForOne(g: Pool) returns (q: Pool)
    requires Sound(g) && g.cfg.minIdle == 0 && g.cfg.maxIdle == 0 && g.cfg.minSize == 0 && g.cfg.maxSize > 0
    requires !g.cfg.batch && g.cfg.slots == 1 && g.errors == Errors(None, None, None)
    requires g.table.status == map[] && g.table.pendingUnknown == 0 && IdleSize(g) == -1
    ensures Sound(q) && q == GrowAll(g, [Unnamed], 0) && !ShrinkWanted(q) && q.cfg == g.cfg
    ensures q.table.pendingUnknown == 1
  {
    assert forall u :: Bucket(g.table.status, u) == {};
    GrowsByOne(g, Unnamed, 0);
    q := GrowOnce(g, Unnamed, 0);
    assert GrowAll(q, [], 0) == q;
  }

  lemma AwaitsUnnamed(p: Pool) returns (q: Pool)
    requires IsSmallPool(p)
    ensures Happens(p, Event(Requested, [Unnamed], 0), q) && q.cfg.slots == 1 && q.table.pendingUnknown == 1
  {
    var p1 := Updated(p, Requested, 0);
    assert Bucket(p1.table.status, Unknown) == {};
    var r := AsksForOne(p1.(ready := true));
    assert Shrunk(r, r);
    PassDone(p1, [Unnamed], 0, r);
    q := r.(killingIdle := CanKill(r));
  }

  /** A session is requested, and the backend promises a worker without naming it. */
  lemma AwaitingRun() returns (pools: seq<Pool>, events: seq<Event>)
    ensures RightRun(pools, events)
    ensures pools[|events|].cfg.slots == 1 && pools[|events|].table.pendingUnknown == 1
  {
    var p := SmallPool();
    var q := AwaitsUnnamed(p);
    var e := Event(Requested, [Unnamed], 0);
    FirstEvent(p, e, q);
    pools, events := [p, q], [e];
  }

  /** Then the default slots change. */
  lemma NewDefaultBreaksTotal() returns (pools: seq<Pool>, events: seq<Event>, c: Config)
    ensures BreaksTotal(pools, events, Configured(c, true))
  {
    pools, events := AwaitingRun();
    c := pools[|events|].cfg.(slots := 2);
    var e := Event(Configured(c, true), [], 0);
    var q := LastEvent(pools, events, e);
    pools, events := pools + [q], events + [e];
  }

  // ----- A pass that does not end ---------------------------------------------------------------

  /** A new pool that wants two idle workers of one slot. */
  lemma PoolOfTwo() returns (p: Pool)
    ensures IsNew(p) && Active(p) && Asks(p, 0)
    ensures p.cfg.slots == 1 && p.cfg.minIdle == 2 && p.cfg.maxSize == 2 && !p.cfg.batch
  {
    var t := EmptyTable();
    var cfg := Config(true, false, 2, 2, 0, 2, 1, 0, DEFAULT_RETRY_DELAY, RESET_MARGIN);
    p := Pool(cfg, false, t, 0, false, false, Errors(None, None, None));
    assert forall u :: Bucket(t.status, u) == {};
  }

  /** A backend that always names the same worker keeps the first pass of such a pool going. */
  lemma EndlessPassExists(w: Name) returns (p: Pool, s: Backend)
    ensures IsNew(p) && Active(p) && NeverEnds(p, s, 0)
  {
    p := PoolOfTwo();
    s := i => Named(w);
    GrowsByOne(p, Named(w), 0);
    var q := GrowOnce(p, Named(w), 0);
    OnlyWorker(q.table, w, Pending);
    assert First(s, 1) == [Named(w)];
    assert AsksAfter(q, [], 0);
    assert OnlyRepeats(q.table, 1, Rest(s, 1));
    forall k: nat ensures AsksAfter(p, First(s, k), 0) {
      CaughtNeverEnds(p, s, 1, k, 0);
    }
  }
}
