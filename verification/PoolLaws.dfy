/** What the operations of the pool and its passes amount to, in terms of single workers, the
    configured bounds and the counters. */
module PoolLaws {
  import opened Basics
  import opened AutoScaling
  import opened PoolMaintenance
  import opened PoolSync
  import opened PoolRuns

  // ----- Passes ------------------------------------------------------------------------------

  /** The pool has a backend and knows the state of all its workers, or was told to go on. */
  predicate Manages(p: Pool)
  {
    && p.cfg.hasBackend && !p.cancelled
    && (p.ready || forall n :: n in p.table.status ==> p.table.status[n] != Unknown)
  }

  lemma ActiveManages(p: Pool)
    ensures Active(p) <==> Manages(p)
  {
    if n :| n in p.table.status && p.table.status[n] == Unknown {
      assert n in Bucket(p.table.status, Unknown);
    }
  }

  /** A pass over a pool that manages its size, may ask and has a backend that can deliver
      brings it up to both minima, as far as the maximum allows. */
  lemma PassReachesMinima(p: Pool, p': Pool, replies: seq<Reply>, now: int)
    requires Maintained(p, p', replies, now) && Tidy(p)
    requires Manages(p) && !p.cfg.batch && MayAsk(p, now) && Plenty(p, replies)
    ensures SizeOf(p'.table) >= Min(p.cfg.minSize, p.cfg.maxSize)
    ensures IdleSize(p') >= p.cfg.minIdle || SizeOf(p'.table) >= p.cfg.maxSize
  {
    ActiveManages(p);
  }

  /** After a pass there are not too many idle slots, or the pool is at its minimum size, or no
      worker can go: none is pending, and every idle one is needed. */
  lemma PassTrimsSurplus(p: Pool, p': Pool, replies: seq<Reply>, now: int)
    requires Maintained(p, p', replies, now) && Tidy(p) && Manages(p)
    ensures
      || IdleSize(p') <= p.cfg.maxIdle || SizeOf(p'.table) <= p.cfg.minSize
      || forall n :: n in p'.table.status ==>
           && p'.table.status[n] != Pending
           && (p'.table.status[n] == Idle ==> IdleSize(p') - p'.table.available[n] < p.cfg.minIdle)
  {
    ActiveManages(p);
    if IdleSize(p') > p.cfg.maxIdle && SizeOf(p'.table) > p.cfg.minSize {
      assert !Deletable(p');
      forall n | n in p'.table.status
        ensures p'.table.status[n] != Pending
        ensures p'.table.status[n] == Idle ==> IdleSize(p') - p'.table.available[n] < p.cfg.minIdle
      {
        assert n !in Bucket(p'.table.status, Pending);
        assert p'.table.status[n] == Idle ==> n in Bucket(p'.table.status, Idle);
      }
    }
  }

  /** A pass leaves a pool alone that has no backend, was cancelled, or still waits to hear of
      some worker. */
  lemma PassSparesOthers(p: Pool, p': Pool, replies: seq<Reply>, now: int)
    requires Maintained(p, p', replies, now) && !Manages(p)
    ensures p' == p.(ready := p'.ready)
  {
    ActiveManages(p);
  }

  /** The idle timer runs exactly while a worker with the default slots could go and leave
      both minima in place. */
  lemma TimerRunsIff(p: Pool, p': Pool, replies: seq<Reply>, now: int)
    requires Maintained(p, p', replies, now) && Manages(p)
    ensures p'.killingIdle <==>
      && SizeOf(p'.table) - 1 >= p.cfg.minSize && IdleSize(p') - p.cfg.slots >= p.cfg.minIdle
      && exists n :: n in p'.table.status && (p'.table.status[n] == Idle || p'.table.status[n] == Pending)
  {
    ActiveManages(p);
    var status := p'.table.status;
    if n :| n in status && (status[n] == Idle || status[n] == Pending) {
      assert n in Bucket(status, status[n]);
    } else {
      assert Bucket(status, Idle) == {} && Bucket(status, Pending) == {};
    }
  }

  /** An accepted request is noted, and neither blocks the next one nor brings back an old error. */
  lemma RequestIsNoted(p: Pool, reply: Reply, now: int, later: int)
    requires Sound(p) && !reply.Failed? && MayAsk(p, now) && now <= later
    ensures var p1 := GrowOnce(p, reply, now);
      && p1.errors.lastAttempt == Some(now) && MayAsk(p1, later)
      && (p1.errors.at.Some? ==> p1.errors.at == p.errors.at)
  {
  }

  // ----- Configuration -------------------------------------------------------------------------

  /** A configuration whose values are all usable is taken as it is; a missing value gets its
      default, and the upper idle bound is raised as little as needed to leave room for one
      whole agent. */
  lemma NormaliseRepairs(c: Config)
    ensures var d := Normalise(c);
      && d.hasBackend == c.hasBackend && d.batch == c.batch && d.minIdle == c.minIdle
      && d.minSize == c.minSize && d.maxSize == c.maxSize && d.killUnknownAfter == c.killUnknownAfter
      && d.slots == (if c.slots > 0 then c.slots else 1)
      && d.retryDelay == (if c.retryDelay > 0 then c.retryDelay else 60)
      && d.resetAfter == (if c.resetAfter > 0 then c.resetAfter else 30 + d.retryDelay)
      && d.maxIdle == Max(c.maxIdle, c.minIdle + d.slots - 1)
    ensures Normalise(Normalise(c)) == Normalise(c)
  {
  }

  // ----- Single operations ------------------------------------------------------------------------

  /** The operations that do not choose among workers. */
  predicate IsPlain(op: Op)
  {
    !op.IdleTimer? && !op.SyncFinished?
  }

  /** What becomes of a worker in status `was` whose connection is lost. */
  function LostStatus(was: Status): Status
  {
    match was
    case NeedsRestart => Pending
    case Deleting => Disconnected
    case _ => Lost
  }

  /** The status of `k` after an operation, before its pass. */
  function StatusAfter(p: Pool, op: Op, k: Name): Option<Status>
  {
    var was := Get(p.table.status, k);
    match op
    case WentBusy(n, _) => if k == n then Some(Running) else was
    case WentIdle(n, _) => if k == n then Some(Idle) else was
    case ConnectionLost(n) => if k != n || was.None? then was else Some(LostStatus(was.value))
    case DeletionStarted(n) => if k == n then Some(Deleting) else was
    case Connected(n, busy, _) => if k == n then Some(if busy then Running else Idle) else was
    case AllocationError(Some(n)) => if k == n then None else was
    case BatchRequested(_, Some(nodes)) => if p.cfg.batch && k in nodes then Some(Pending) else was
    case _ => was
  }

  /** The slots recorded for `k` after an operation; a negative report leaves the record. */
  function SlotsAfter(p: Pool, op: Op, k: Name): Option<int>
  {
    var was := Get(p.table.available, k);
    var held := if was.Some? then was.value else 0;
    match op
    case WentBusy(n, remaining) => if k == n then Some(if remaining < 0 then held else remaining) else was
    case WentIdle(n, remaining) => if k == n then Some(if remaining < 0 then held else remaining) else was
    case ConnectionLost(n) =>
      if k != n || was.None? || Get(p.table.status, k) == Some(NeedsRestart) then was else Some(0)
    case DeletionStarted(n) => if k == n then Some(0) else was
    case Connected(n, _, slots) => if k == n then Some(slots) else was
    case AllocationError(Some(n)) => if k == n then None else was
    case BatchRequested(_, Some(nodes)) => if p.cfg.batch && k in nodes then Some(p.cfg.slots) else was
    case _ => was
  }

  /** Workers requested without a name after an operation: a new agent takes the place of one,
      and a failure that names no known worker gives one up. */
  function UnnamedAfter(p: Pool, op: Op): int
  {
    var k := p.table.pendingUnknown;
    match op
    case Connected(n, _, _) => if n !in p.table.status && p.cfg.hasBackend && k > 0 then k - 1 else k
    case AllocationError(worker) =>
      if (worker.None? || worker.value !in p.table.status) && k > 0 then k - 1 else k
    case _ => k
  }

  /** Sessions waiting for a worker after an operation. */
  function SessionsAfter(p: Pool, op: Op): int
  {
    match op
    case Requested => p.pendingSessions + 1
    case RequestDropped => p.pendingSessions - 1
    case WentBusy(_, _) => p.pendingSessions - 1
    case BatchRequested(count, Some(_)) => if p.cfg.batch then p.pendingSessions + count else p.pendingSessions
    case _ => p.pendingSessions
  }

  /** When the next request is allowed after an operation at time `now`. */
  function NextRequestAfter(p: Pool, op: Op, now: int): Option<int>
  {
    match op
    case Connected(_, _, _) => None
    case AllocationError(_) => Some(now + p.cfg.retryDelay)
    case _ => p.errors.nextScaleUp
  }

  /** `q` is what the table above says about worker `k` and the counters. */
  predicate HasEffect(p: Pool, op: Op, now: int, q: Pool, k: Name)
  {
    && Get(q.table.status, k) == StatusAfter(p, op, k) && Get(q.table.available, k) == SlotsAfter(p, op, k)
    && q.table.pendingUnknown == UnnamedAfter(p, op) && q.pendingSessions == SessionsAfter(p, op)
    && q.errors.nextScaleUp == NextRequestAfter(p, op, now)
  }

  lemma BatchEffect(p: Pool, op: Op, now: int, k: Name)
    requires Sound(p) && op.BatchRequested?
    ensures HasEffect(p, op, now, Updated(p, op, now), k)
  {
    if p.cfg.batch && op.nodes.Some? {
      var q := WithBatch(p, op.count, op.nodes, now);
      WithBatchKeeps(p, op.count, op.nodes, now);
      WithBatchRest(p, op.count, op.nodes, now);
      assert AllPending(p.table, op.nodes.value, q.table, p.cfg.slots);
    }
  }

  lemma SetStatusGives(t: Table, n: Name, s: Status, newSlots: int, k: Name)
    requires Indexed(t)
    ensures var t' := SetStatus(t, n, s, newSlots);
      && Get(t'.status, k) == (if k == n then Some(s) else Get(t.status, k))
      && t'.pendingUnknown == t.pendingUnknown
      && (k != n ==> Get(t'.available, k) == Get(t.available, k))
      && (newSlots >= 0 ==> Get(t'.available, n) == Some(newSlots))
      && (newSlots < 0 && n in t.status ==> Get(t'.available, n) == Get(t.available, n))
  {
  }

  lemma LostTable(p: Pool, n: Name, now: int)
    requires Sound(p) && n in p.table.status
    ensures var t := p.table.(lastKnown := p.table.lastKnown[n := now]);
      && Indexed(t)
      && var was := p.table.status[n];
        AgentLost(p, n, now) == p.(table := SetStatus(t, n, LostStatus(was), if was == NeedsRestart then -1 else 0))
  {
    LastKnownKeeps(p.table, p.table.lastKnown[n := now]);
  }

  lemma LostEffect(p: Pool, n: Name, now: int, k: Name)
    requires Sound(p)
    ensures HasEffect(p, ConnectionLost(n), now, Updated(p, ConnectionLost(n), now), k)
  {
    if n in p.table.status {
      LostTable(p, n, now);
      var t, was := p.table.(lastKnown := p.table.lastKnown[n := now]), p.table.status[n];
      SetStatusGives(t, n, LostStatus(was), if was == NeedsRestart then -1 else 0, k);
    }
  }

  lemma StatusEffect(p: Pool, op: Op, now: int, k: Name)
    requires Sound(p) && (op.WentBusy? || op.WentIdle? || op.DeletionStarted?)
    ensures HasEffect(p, op, now, Updated(p, op, now), k)
  {
  }

  lemma ConnectedEffect(p: Pool, op: Op, now: int, k: Name)
    requires Sound(p) && op.Connected?
    ensures HasEffect(p, op, now, Updated(p, op, now), k)
  {
    SetStatusGives(p.table, op.n, if op.busy then Running else Idle, op.slots, k);
  }

  lemma FailureEffect(p: Pool, op: Op, now: int, k: Name)
    requires Sound(p) && op.AllocationError?
    ensures HasEffect(p, op, now, Updated(p, op, now), k)
  {
  }

  /** What an operation does to each worker and to the counters, before its pass. */
  lemma OperationEffect(p: Pool, op: Op, now: int, k: Name)
    requires Sound(p) && IsPlain(op)
    ensures HasEffect(p, op, now, Updated(p, op, now), k)
  {
    if op.BatchRequested? {
      BatchEffect(p, op, now, k);
    } else if op.ConnectionLost? {
      LostEffect(p, op.n, now, k);
    } else if op.WentBusy? || op.WentIdle? || op.DeletionStarted? {
      StatusEffect(p, op, now, k);
    } else if op.Connected? {
      ConnectedEffect(p, op, now, k);
    } else if op.AllocationError? {
      FailureEffect(p, op, now, k);
    } else {
      assert Updated(p, op, now).table.status == p.table.status;
    }
  }

  /** Whether a change of status from `was` to `s` makes the pool forget when it last heard of
      the worker. */
  predicate Forgets(was: Option<Status>, s: Option<Status>)
  {
    (was == Some(Unknown) || was == Some(Pending) || was == Some(Lost)) && s != was
  }

  /** When the pool last heard of `k`, after an operation at time `now`. */
  function ContactAfter(p: Pool, op: Op, now: int, k: Name): Option<int>
  {
    if op.AllocationError? && op.worker == Some(k) && k in p.table.status then None
    else if Forgets(Get(p.table.status, k), StatusAfter(p, op, k)) then None
    else if op == ConnectionLost(k) then Some(now)
    else Get(p.table.lastKnown, k)
  }

  /** The rest of the state after an operation, before its pass. */
  predicate HasRest(p: Pool, op: Op, now: int, q: Pool)
  {
    && q.cancelled == p.cancelled
    && q.cfg == (if op.Configured? then Normalise(op.c) else p.cfg)
    && q.ready == (p.ready || op.Readied?)
    && q.killingIdle == (p.killingIdle && !op.Configured?)
    && q.table.version == p.table.version + (if op.SyncBegun? then 1 else 0)
    && q.errors.lastAttempt == p.errors.lastAttempt
    && q.errors.at == (if op.Connected? then None else if op.AllocationError? then Some(now) else p.errors.at)
  }

  lemma SetStatusContact(t: Table, n: Name, s: Status, newSlots: int, k: Name)
    requires Indexed(t)
    ensures var t' := SetStatus(t, n, s, newSlots);
      && t'.version == t.version
      && Get(t'.lastKnown, k) == (if k == n && Forgets(Get(t.status, n), Some(s)) then None else Get(t.lastKnown, k))
  {
  }

  lemma LostContact(p: Pool, n: Name, now: int, k: Name)
    requires Sound(p)
    ensures var q := Updated(p, ConnectionLost(n), now);
      HasRest(p, ConnectionLost(n), now, q) && Get(q.table.lastKnown, k) == ContactAfter(p, ConnectionLost(n), now, k)
  {
    if n in p.table.status {
      LostTable(p, n, now);
      var t, was := p.table.(lastKnown := p.table.lastKnown[n := now]), p.table.status[n];
      SetStatusContact(t, n, LostStatus(was), if was == NeedsRestart then -1 else 0, k);
    }
  }

  predicate LeavesRest(p: Pool, op: Op, now: int, q: Pool, k: Name)
  {
    HasRest(p, op, now, q) && Get(q.table.lastKnown, k) == ContactAfter(p, op, now, k)
  }

  lemma StatusRest(p: Pool, op: Op, now: int, k: Name)
    requires Sound(p) && (op.WentBusy? || op.WentIdle? || op.DeletionStarted?)
    ensures LeavesRest(p, op, now, Updated(p, op, now), k)
  {
    match op
    case WentBusy(n, remaining) => SetStatusContact(p.table, n, Running, remaining, k);
    case WentIdle(n, remaining) => SetStatusContact(p.table, n, Idle, remaining, k);
    case DeletionStarted(n) => SetStatusContact(p.table, n, Deleting, 0, k);
  }

  lemma ConnectedRest(p: Pool, op: Op, now: int, k: Name)
    requires Sound(p) && op.Connected?
    ensures LeavesRest(p, op, now, Updated(p, op, now), k)
  {
    SetStatusContact(p.table, op.n, if op.busy then Running else Idle, op.slots, k);
  }

  lemma FailureRest(p: Pool, op: Op, now: int, k: Name)
    requires Sound(p) && op.AllocationError?
    ensures LeavesRest(p, op, now, Updated(p, op, now), k)
  {
  }

  /** What an operation does to the rest of the state; a batch is treated apart. */
  lemma OperationRest(p: Pool, op: Op, now: int, k: Name)
    requires Sound(p) && IsPlain(op) && !op.BatchRequested?
    ensures LeavesRest(p, op, now, Updated(p, op, now), k)
  {
    if op.ConnectionLost? {
      LostContact(p, op.n, now, k);
    } else if op.WentBusy? || op.WentIdle? || op.DeletionStarted? {
      StatusRest(p, op, now, k);
    } else if op.Connected? {
      ConnectedRest(p, op, now, k);
    } else if op.AllocationError? {
      FailureRest(p, op, now, k);
    } else {
      assert StatusAfter(p, op, k) == Get(p.table.status, k);
    }
  }

  /** A worker the backend named was last heard of now, unless the pool knew it as unknown or
      lost; a batch names its workers in the same way. */
  lemma NamedContact(t: Table, slots: int, n: Name, now: int, k: Name)
    requires Indexed(t)
    ensures var t' := GrowTable(t, slots, Named(n), now);
      && t'.version == t.version
      && Get(t'.lastKnown, k) ==
         if k != n then Get(t.lastKnown, k)
         else if Get(t.status, n) == Some(Unknown) || Get(t.status, n) == Some(Lost) then None
         else Some(now)
  {
    LastKnownKeeps(t, t.lastKnown[n := now]);
    SetStatusContact(t.(lastKnown := t.lastKnown[n := now]), n, Pending, slots, k);
  }

  /** Worker `n` is pending, or idle with slots that are not needed. */
  ghost predicate CanSpare(p: Pool, n: Name)
    requires Sound(p)
  {
    n in p.table.status &&
    (p.table.status[n] == Pending
     || (p.table.status[n] == Idle && IdleSize(p) - p.table.available[n] >= p.cfg.minIdle))
  }

  /** When the idle timer fires, one worker goes if one can be spared, and a pass follows;
      otherwise nothing changes but the timer. */
  lemma TimerEffect(p: Pool, replies: seq<Reply>, now: int, q: Pool)
    requires Sound(p) && PoolStep(p, IdleTimer, replies, now, q)
    ensures var p1 := p.(killingIdle := false);
      if SizeOf(p.table) - 1 >= p.cfg.minSize && IdleSize(p) - p.cfg.slots >= p.cfg.minIdle
         && exists n :: CanSpare(p, n)
      then exists n, t :: ShrinksBy(p1, n, t) && Maintained(p1.(table := t), q, replies, now)
      else q == p1
  {
    var p1, status := p.(killingIdle := false), p.table.status;
    assert TimerStep(p1, replies, now, q);
    if n :| CanSpare(p, n) {
      assert n in Bucket(status, status[n]);
    }
    if CanKill(p1) && Deletable(p1) {
      if m :| m in Bucket(status, Pending) {
        assert CanSpare(p, m);
      } else {
        var k :| k in Bucket(status, Idle) && IdleSize(p1) - p.table.available[k] >= p.cfg.minIdle;
        assert CanSpare(p, k);
      }
      var t :| OneDeleted(p1, t) && Maintained(p1.(table := t), q, replies, now);
      var n :| ShrinksBy(p1, n, t);
    }
  }

  /** A new agent that takes the place of a worker requested without a name leaves the size of
      the pool as it was; any other worker that turns up adds one. */
  lemma NewAgentCounts(p: Pool, n: Name, busy: bool, slots: int, now: int)
    requires Sound(p) && n !in p.table.status
    ensures var q := Updated(p, Connected(n, busy, slots), now);
      SizeOf(q.table) == SizeOf(p.table) + (if p.cfg.hasBackend && p.table.pendingUnknown > 0 then 0 else 1)
  {
    var s := if busy then Running else Idle;
    SetStatusCounts(p.table, n, s, slots);
    var t, t' := SetStatus(p.table, n, s, slots), Updated(p, Connected(n, busy, slots), now).table;
    assert t'.status == t.status && t.pendingUnknown == p.table.pendingUnknown;
  }

  // ----- Operations and their passes -------------------------------------------------------------

  /** The operations that are followed by a pass. */
  predicate HasPass(p: Pool, op: Op)
  {
    match op
    case WentIdle(n, _) => n in p.table.status && p.table.status[n] == Running
    case Configured(_, sameBackend) => sameBackend
    case Readied => !p.ready
    case BatchRequested(_, _) => false
    case SyncBegun => false
    case _ => true
  }

  lemma UpdatedTidy(p: Pool, op: Op, now: int)
    requires Sound(p) && Tidy(p) && IsPlain(op) && KeepsDefault(p, op)
    ensures Sound(Updated(p, op, now)) && Tidy(Updated(p, op, now))
  {
    match op
    case Connected(n, busy, slots) => AgentAvailableDrifts(p, n, busy, slots);
    case AllocationError(worker) => AllocationFailedDrifts(p, worker, now);
    case Configured(c, _) => ReconfigureDrifts(p, c); ConfiguredTidy(p, c);
    case _ => UpdateKeeps(p, op, now);
  }

  /** An operation with a pass leaves nothing to do for another pass; one without changes no
      more than the operation itself. */
  lemma StepSettles(p: Pool, op: Op, replies: seq<Reply>, now: int, q: Pool)
    requires Sound(p) && IsPlain(op) && PoolStep(p, op, replies, now, q)
    ensures !HasPass(p, op) ==> q == Updated(p, op, now)
    ensures HasPass(p, op) && Tidy(p) && KeepsDefault(p, op) ==> Sound(q) && Settled(q, now)
  {
    if Tidy(p) && KeepsDefault(p, op) {
      UpdatedTidy(p, op, now);
    }
  }

  // ----- Waiting sessions over whole runs -----------------------------------------------------------

  /** By how much an operation changes the number of waiting sessions. */
  function SessionChange(p: Pool, op: Op): int
  {
    SessionsAfter(p, op) - p.pendingSessions
  }

  lemma StepCountsSessions(p: Pool, op: Op, replies: seq<Reply>, now: int, q: Pool)
    requires Sound(p) && PoolStep(p, op, replies, now, q)
    ensures q.pendingSessions == SessionsAfter(p, op)
  {
    if IsPlain(op) {
      OperationEffect(p, op, now, "w");
    }
  }

  function SessionChanges(pools: seq<Pool>, events: seq<Event>, i: nat): int
    requires |pools| == |events| + 1 && i <= |events|
  {
    if i == 0 then 0 else SessionChanges(pools, events, i - 1) + SessionChange(pools[i - 1], events[i - 1].op)
  }

  ghost predicate CountsSessions(pools: seq<Pool>, events: seq<Event>)
  {
    && |pools| == |events| + 1
    && forall i {:trigger events[i]} :: 0 <= i < |events| ==>
         pools[i + 1].pendingSessions == SessionsAfter(pools[i], events[i].op)
  }

  lemma RunCountsSessions(pools: seq<Pool>, events: seq<Event>)
    requires IsPoolRun(pools, events)
    ensures CountsSessions(pools, events)
  {
    forall i {:trigger events[i]} | 0 <= i < |events|
      ensures pools[i + 1].pendingSessions == SessionsAfter(pools[i], events[i].op)
    {
      var e := events[i];
      assert Happens(pools[i], e, pools[i + 1]);
      StepCountsSessions(pools[i], e.op, e.replies, e.now, pools[i + 1]);
    }
  }

  lemma {:induction false} CountsAddUp(pools: seq<Pool>, events: seq<Event>, i: nat)
    requires CountsSessions(pools, events) && i <= |events|
    ensures pools[i].pendingSessions == pools[0].pendingSessions + SessionChanges(pools, events, i)
  {
    if i > 0 {
      CountsAddUp(pools, events, i - 1);
      assert events[i - 1] == events[i - 1];
    }
  }

  /** Over every run, with any backend, the number of waiting sessions is what the requests,
      cancellations, batches and started sessions so far make it. */
  lemma SessionsBalance(pools: seq<Pool>, events: seq<Event>, i: nat)
    requires IsPoolRun(pools, events) && i <= |events|
    ensures pools[i].pendingSessions == pools[0].pendingSessions + SessionChanges(pools, events, i)
  {
    RunCountsSessions(pools, events);
    CountsAddUp(pools, events, i);
  }
}
