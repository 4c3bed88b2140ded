/** Whole runs of the pool: any sequence of its operations, each followed by its pass, with
    any replies of the backend. */
module PoolRuns {
  import opened Basics
  import opened AutoScaling
  import opened PoolMaintenance
  import opened PoolSync

  datatype Op =
    | Requested
    | RequestDropped
    | WentBusy(n: Name, remaining: int)
    | WentIdle(n: Name, remaining: int)
    | ConnectionLost(n: Name)
    | DeletionStarted(n: Name)
    | Connected(n: Name, busy: bool, slots: int)
    | AllocationError(worker: Option<Name>)
    | Configured(c: Config, sameBackend: bool)
    | Readied
    | BatchRequested(count: int, nodes: Option<seq<Name>>)
    | SyncBegun
    | IdleTimer
    | SyncFinished(names: seq<Name>, refused: set<Name>)

  /** A batch pool counts the sessions and the nodes the backend named; any other refuses. */
  ghost function WithBatch(p: Pool, count: int, nodes: Option<seq<Name>>, now: int): Pool
    requires Sound(p)
  {
    if p.cfg.batch && nodes.Some?
    then AddPending(p.(pendingSessions := p.pendingSessions + count), nodes.value, now)
    else p
  }

  /** A batch request changes only the workers and the number of waiting sessions. */
  lemma WithBatchRest(p: Pool, count: int, nodes: Option<seq<Name>>, now: int)
    requires Sound(p)
    ensures var q := WithBatch(p, count, nodes, now);
      q.errors == p.errors && q.table.pendingUnknown == p.table.pendingUnknown
      && q.pendingSessions == p.pendingSessions + (if p.cfg.batch && nodes.Some? then count else 0)
  {
  }

  lemma WithBatchKeeps(p: Pool, count: int, nodes: Option<seq<Name>>, now: int)
    requires Sound(p)
    ensures Keeps(p, WithBatch(p, count, nodes, now))
    ensures p.cfg.batch && nodes.Some? ==>
      AllPending(p.table, nodes.value, WithBatch(p, count, nodes, now).table, p.cfg.slots)
  {
    if p.cfg.batch && nodes.Some? {
      var p1 := p.(pendingSessions := p.pendingSessions + count);
      var q := AddPending(p1, nodes.value, now);
      assert Keeps(p, p1);
      KeepsTransitive(p, p1, q);
      AddPendingNodes(p1, nodes.value, now);
    }
  }

  /** What an operation does before its pass; the last two choose among workers. */
  ghost function Updated(p: Pool, op: Op, now: int): Pool
    requires Sound(p)
  {
    match op
    case Requested => p.(pendingSessions := p.pendingSessions + 1)
    case RequestDropped => p.(pendingSessions := p.pendingSessions - 1)
    case WentBusy(n, remaining) => WithStatus(p.(pendingSessions := p.pendingSessions - 1), n, Running, remaining)
    case WentIdle(n, remaining) => WithStatus(p, n, Idle, remaining)
    case ConnectionLost(n) => AgentLost(p, n, now)
    case DeletionStarted(n) => WithStatus(p, n, Deleting, 0)
    case Connected(n, busy, slots) => AgentAvailable(p, n, busy, slots)
    case AllocationError(worker) => AllocationFailed(p, worker, now)
    case Configured(c, _) => p.(cfg := Normalise(c), killingIdle := false)
    case Readied => p.(ready := true)
    case BatchRequested(count, nodes) => WithBatch(p, count, nodes, now)
    case SyncBegun => p.(table := p.table.(version := p.table.version + 1))
    case IdleTimer => p.(killingIdle := false)
    case SyncFinished(_, _) => p
  }

  predicate PassFollows(p: Pool, op: Op)
  {
    match op
    case WentIdle(n, _) => Get(p.table.status, n) == Some(Running)
    case Configured(_, sameBackend) => sameBackend
    case Readied => !p.ready
    case BatchRequested(_, _) => false
    case SyncBegun => false
    case _ => true
  }

  /** What an operation at time `now` may turn pool `p` into, if the backend answers scale-up
      requests with `replies`. */
  ghost predicate PoolStep(p: Pool, op: Op, replies: seq<Reply>, now: int, q: Pool)
    requires Sound(p)
  {
    match op
    case IdleTimer => TimerStep(p.(killingIdle := false), replies, now, q)
    case SyncFinished(names, refused) =>
      exists t :: Synced(p, names, refused, now, t) && Maintained(p.(table := t), q, replies, now)
    case _ =>
      if PassFollows(p, op) then Maintained(Updated(p, op, now), q, replies, now) else q == Updated(p, op, now)
  }

  /** The idle timer deletes at most one worker, and only if it can be spared. */
  ghost predicate TimerStep(p: Pool, replies: seq<Reply>, now: int, q: Pool)
    requires Sound(p)
  {
    || (q == p && !(CanKill(p) && Deletable(p)))
    || (CanKill(p) && exists t :: OneDeleted(p, t) && Maintained(p.(table := t), q, replies, now))
  }

  // ----- The idle total ----------------------------------------------------------------

  /** How far the kept total of `p` is from the sum over its workers. */
  ghost function Error(p: Pool): int
    requires Sound(p)
  {
    Drift(p.table, p.cfg.slots)
  }

  /** Exactly the operations that leave the total as right or wrong as it was: a slot report
      is not negative or repeats what is recorded, a failure event does not name a worker
      that was told to stop and holds slots, and the default slots stay the same unless no
      unnamed worker is pending. */
  predicate Exact(p: Pool, op: Op)
    requires p.table.available.Keys == p.table.status.Keys
  {
    match op
    case Connected(n, _, slots) => slots >= 0 || (n in p.table.status && p.table.available[n] == slots)
    case AllocationError(Some(n)) =>
      n in p.table.status && p.table.status[n] == NotifyDeleting ==> p.table.available[n] == 0
    case Configured(c, _) => Normalise(c).slots == p.cfg.slots || p.table.pendingUnknown == 0
    case _ => true
  }

  lemma ReportErrors(p: Pool, op: Op, now: int)
    requires Sound(p) && (op.Connected? || op.AllocationError? || op.Configured?)
    ensures Sound(Updated(p, op, now)) && (Error(Updated(p, op, now)) == Error(p) <==> Exact(p, op))
  {
    match op
    case Connected(n, busy, slots) => AgentAvailableDrifts(p, n, busy, slots);
    case AllocationError(worker) => AllocationFailedDrifts(p, worker, now);
    case Configured(c, _) => ReconfigureDrifts(p, c);
  }

  lemma StatusKeeps(p: Pool, op: Op, now: int)
    requires Sound(p) && (op.WentBusy? || op.WentIdle? || op.ConnectionLost? || op.DeletionStarted?)
    ensures Keeps(p, Updated(p, op, now))
  {
    match op
    case WentBusy(n, remaining) =>
      var p1 := p.(pendingSessions := p.pendingSessions - 1);
      assert Keeps(p, p1);
      WithStatusKeeps(p1, n, Running, remaining);
      KeepsTransitive(p, p1, Updated(p, op, now));
    case WentIdle(n, remaining) => WithStatusKeeps(p, n, Idle, remaining);
    case ConnectionLost(n) => AgentLostKeeps(p, n, now);
    case DeletionStarted(n) => WithStatusKeeps(p, n, Deleting, 0);
  }

  predicate IsReport(op: Op)
  {
    op.Connected? || op.AllocationError? || op.Configured?
  }

  lemma UpdateKeeps(p: Pool, op: Op, now: int)
    requires Sound(p) && !IsReport(op)
    ensures Keeps(p, Updated(p, op, now))
  {
    if op.WentBusy? || op.WentIdle? || op.ConnectionLost? || op.DeletionStarted? {
      StatusKeeps(p, op, now);
    } else if op.BatchRequested? {
      WithBatchKeeps(p, op.count, op.nodes, now);
    } else if op.SyncBegun? {
      NewVersionKeeps(p);
    } else {
      assert Updated(p, op, now).table == p.table;
    }
  }

  lemma TimerKeeps(p: Pool, replies: seq<Reply>, now: int, q: Pool)
    requires Sound(p) && TimerStep(p, replies, now, q)
    ensures Keeps(p, q)
  {
    if !(q == p && !(CanKill(p) && Deletable(p))) {
      var t :| OneDeleted(p, t) && Maintained(p.(table := t), q, replies, now);
      ShrinkKeeps(p, t);
      KeepsTransitive(p, p.(table := t), q);
    }
  }

  lemma SyncStepKeeps(p: Pool, names: seq<Name>, refused: set<Name>, replies: seq<Reply>, now: int, q: Pool)
    requires Sound(p) && PoolStep(p, SyncFinished(names, refused), replies, now, q)
    ensures Keeps(p, q)
  {
    var t :| Synced(p, names, refused, now, t) && Maintained(p.(table := t), q, replies, now);
    SyncKeeps(p, names, refused, now, t);
    KeepsTransitive(p, p.(table := t), q);
  }

  /** All other operations keep the total right, whatever the backend replies. */
  lemma StepKeeps(p: Pool, op: Op, replies: seq<Reply>, now: int, q: Pool)
    requires Sound(p) && !IsReport(op) && PoolStep(p, op, replies, now, q)
    ensures Keeps(p, q)
  {
    UpdateKeeps(p, op, now);
    var p1 := Updated(p, op, now);
    if op.IdleTimer? {
      TimerKeeps(p1, replies, now, q);
      KeepsTransitive(p, p1, q);
    } else if op.SyncFinished? {
      SyncStepKeeps(p, op.names, op.refused, replies, now, q);
    } else if PassFollows(p, op) {
      KeepsTransitive(p, p1, q);
    }
  }

  /** An operation leaves the total as right or wrong as it was if and only if it is exact. */
  lemma StepKeepsTotalIff(p: Pool, op: Op, replies: seq<Reply>, now: int, q: Pool)
    requires Sound(p) && PoolStep(p, op, replies, now, q)
    ensures Sound(q) && (Error(q) == Error(p) <==> Exact(p, op))
  {
    if IsReport(op) {
      ReportErrors(p, op, now);
    } else {
      StepKeeps(p, op, replies, now, q);
    }
  }

  // ----- Runs --------------------------------------------------------------------------------

  /** One operation with the backend's replies and the time. */
  datatype Event = Event(op: Op, replies: seq<Reply>, now: int)

  ghost predicate Happens(p: Pool, e: Event, q: Pool)
  {
    Sound(p) && PoolStep(p, e.op, e.replies, e.now, q)
  }

  /** `pools` are the states before, between and after the events. */
  ghost predicate IsPoolRun(pools: seq<Pool>, events: seq<Event>)
  {
    && |pools| == |events| + 1
    && forall i {:trigger events[i]} :: 0 <= i < |events| ==> Happens(pools[i], events[i], pools[i + 1])
  }

  /** The kept total is the sum over all workers and the unnamed ones. */
  ghost predicate TotalIsRight(p: Pool)
  {
    && Sound(p)
    && p.table.idleSlots == Total(Shares(p.table.status, p.table.available)) + p.table.pendingUnknown * p.cfg.slots
  }

  ghost predicate ExactAt(p: Pool, e: Event)
  {
    Sound(p) && Exact(p, e.op)
  }

  ghost predicate IsExactRun(pools: seq<Pool>, events: seq<Event>)
  {
    IsPoolRun(pools, events) && forall k {:trigger events[k]} :: 0 <= k < |events| ==> ExactAt(pools[k], events[k])
  }

  lemma ExactStep(pools: seq<Pool>, events: seq<Event>, k: nat)
    requires IsExactRun(pools, events) && k < |events| && TotalIsRight(pools[k])
    ensures TotalIsRight(pools[k + 1])
  {
    var e := events[k];
    assert Happens(pools[k], e, pools[k + 1]) && ExactAt(pools[k], e);
    StepKeepsTotalIff(pools[k], e.op, e.replies, e.now, pools[k + 1]);
  }

  lemma {:induction false} ExactRunStaysRight(pools: seq<Pool>, events: seq<Event>, i: nat)
    requires IsExactRun(pools, events) && i <= |events| && TotalIsRight(pools[0])
    ensures TotalIsRight(pools[i])
  {
    if i > 0 {
      ExactRunStaysRight(pools, events, i - 1);
      ExactStep(pools, events, i - 1);
    }
  }

  /** Over every run, with any backend, the kept idle total is the sum it stands for at every
      point if and only if every operation of the run is exact. */
  lemma RunStaysRightIff(pools: seq<Pool>, events: seq<Event>)
    requires IsPoolRun(pools, events) && TotalIsRight(pools[0])
    ensures (forall i :: 0 <= i < |pools| ==> TotalIsRight(pools[i])) <==> IsExactRun(pools, events)
  {
    if IsExactRun(pools, events) {
      forall i | 0 <= i < |pools| ensures TotalIsRight(pools[i]) {
        ExactRunStaysRight(pools, events, i);
      }
    }
    if forall i :: 0 <= i < |pools| ==> TotalIsRight(pools[i]) {
      forall k | 0 <= k < |events| ensures ExactAt(pools[k], events[k]) {
        var e := events[k];
        assert Happens(pools[k], e, pools[k + 1]);
        StepKeepsTotalIff(pools[k], e.op, e.replies, e.now, pools[k + 1]);
      }
    }
  }

  // ----- Slots of unconnected workers ------------------------------------------------------------

  predicate KeepsDefault(p: Pool, op: Op)
  {
    op.Configured? ==> Normalise(op.c).slots == p.cfg.slots
  }

  lemma StepKeepsTidy(p: Pool, op: Op, replies: seq<Reply>, now: int, q: Pool)
    requires Sound(p) && Tidy(p) && KeepsDefault(p, op) && PoolStep(p, op, replies, now, q)
    ensures Sound(q) && Tidy(q)
  {
    match op
    case Connected(n, busy, slots) => AgentAvailableDrifts(p, n, busy, slots);
    case AllocationError(worker) => AllocationFailedDrifts(p, worker, now);
    case Configured(c, _) => ReconfigureDrifts(p, c); ConfiguredTidy(p, c);
    case _ => StepKeeps(p, op, replies, now, q);
  }

  lemma ConfiguredTidy(p: Pool, c: Config)
    requires Sound(p) && Tidy(p) && Normalise(c).slots == p.cfg.slots
    ensures var q := p.(cfg := Normalise(c), killingIdle := false); Sound(q) && Tidy(q)
  {
    ReconfigureDrifts(p, c);
  }

  /** The total is right and unconnected workers hold the default slots, which the size
      bounds of a pass build on. */
  ghost predicate Right(p: Pool)
  {
    TotalIsRight(p) && Tidy(p)
  }

  /** Every exact operation that leaves the default slots alone keeps the pool right. */
  lemma StepRight(p: Pool, op: Op, replies: seq<Reply>, now: int, q: Pool)
    requires Right(p) && Exact(p, op) && KeepsDefault(p, op) && PoolStep(p, op, replies, now, q)
    ensures Right(q)
  {
    StepKeepsTotalIff(p, op, replies, now, q);
    StepKeepsTidy(p, op, replies, now, q);
  }

  ghost predicate Harmless(p: Pool, e: Event)
  {
    Sound(p) && Exact(p, e.op) && KeepsDefault(p, e.op)
  }

  ghost predicate IsHarmlessRun(pools: seq<Pool>, events: seq<Event>)
  {
    IsPoolRun(pools, events) && forall k {:trigger events[k]} :: 0 <= k < |events| ==> Harmless(pools[k], events[k])
  }

  lemma HarmlessStep(pools: seq<Pool>, events: seq<Event>, k: nat)
    requires IsHarmlessRun(pools, events) && k < |events| && Right(pools[k])
    ensures Right(pools[k + 1])
  {
    var e := events[k];
    assert Happens(pools[k], e, pools[k + 1]) && Harmless(pools[k], e);
    StepRight(pools[k], e.op, e.replies, e.now, pools[k + 1]);
  }

  /** Over every run of exact operations that leave the default slots alone, with any
      backend, the pool is right at every point. */
  lemma {:induction false} RunStaysRight(pools: seq<Pool>, events: seq<Event>, i: nat)
    requires IsHarmlessRun(pools, events) && i <= |events| && Right(pools[0])
    ensures Right(pools[i])
  {
    if i > 0 {
      RunStaysRight(pools, events, i - 1);
      HarmlessStep(pools, events, i - 1);
    }
  }

  /** A pool as it is created. */
  ghost predicate IsNew(p: Pool)
  {
    && Right(p) && p.cfg == Normalise(p.cfg) && !p.cancelled && p.pendingSessions == 0 && !p.ready && !p.killingIdle
    && p.errors == Errors(None, None, None)
    && p.table.status == map[] && p.table.lastKnown == map[] && p.table.idleSlots == 0 && p.table.pendingUnknown == 0
  }
}
