/** Size maintenance of the pool: when it grows, when it shrinks, and why the two
    never undo each other. */
module PoolMaintenance {
  import opened Basics
  import opened AutoScaling

  const DEFAULT_RETRY_DELAY := 60
  const RESET_MARGIN := 30

  datatype Config = Config(
    hasBackend: bool,
    batch: bool,
    minIdle: int,
    maxIdle: int,
    minSize: int,
    maxSize: int,
    slots: int,             // default slots per agent
    killUnknownAfter: int,
    retryDelay: int,
    resetAfter: int)

  /** Defaults for missing values, and the clamp that leaves room for one whole agent
      between the idle bounds. */
  function Normalise(c: Config): Config
  {
    var slots := if c.slots <= 0 then 1 else c.slots;
    var retryDelay := if c.retryDelay <= 0 then DEFAULT_RETRY_DELAY else c.retryDelay;
    var resetAfter := if c.resetAfter <= 0 then RESET_MARGIN + retryDelay else c.resetAfter;
    var maxIdle := if c.maxIdle < c.minIdle + slots - 1 then c.minIdle + slots - 1 else c.maxIdle;
    c.(slots := slots, retryDelay := retryDelay, resetAfter := resetAfter, maxIdle := maxIdle)
  }

  /** Times of the last allocation error, of the next allowed and of the last scale-up. */
  datatype Errors = Errors(at: Option<int>, nextScaleUp: Option<int>, lastAttempt: Option<int>)

  datatype Pool = Pool(
    cfg: Config,
    cancelled: bool,
    table: Table,
    pendingSessions: int,
    ready: bool,
    killingIdle: bool,
    errors: Errors)

  /** The configuration went through `Normalise`, and the worker maps agree. */
  ghost predicate Sound(p: Pool)
  {
    && Indexed(p.table)
    && p.cfg.slots >= 1 && p.cfg.retryDelay > 0 && p.cfg.resetAfter > 0
    && p.cfg.maxIdle >= p.cfg.minIdle + p.cfg.slots - 1
  }

  predicate HoldsNothing(s: Status)
  {
    s.Lost? || s.Deleting? || s.Disconnected?
  }

  /** Workers that have not connected hold the default slots, workers that are gone none. */
  ghost predicate Tidy(p: Pool)
    requires Indexed(p.table)
  {
    forall n :: n in p.table.status ==>
      && (p.table.status[n].Pending? || p.table.status[n].NeedsRestart? ==> p.table.available[n] == p.cfg.slots)
      && (HoldsNothing(p.table.status[n]) ==> p.table.available[n] == 0)
  }

  function IdleSize(p: Pool): int
  {
    p.table.idleSlots - p.pendingSessions
  }

  predicate GrowWanted(p: Pool)
  {
    && !p.cfg.batch
    && (IdleSize(p) < p.cfg.minIdle || SizeOf(p.table) < p.cfg.minSize)
    && SizeOf(p.table) < p.cfg.maxSize
  }

  predicate ShrinkWanted(p: Pool)
  {
    SizeOf(p.table) > p.cfg.minSize && IdleSize(p) > p.cfg.maxIdle
  }

  /** The error state after an old error has been forgotten. */
  function AfterReset(e: Errors, cfg: Config, now: int): Errors
  {
    if e.at.Some? && e.lastAttempt.Some? && now - e.lastAttempt.value >= cfg.resetAfter > 0
    then e.(at := None, nextScaleUp := None) else e
  }

  /** Scale-up has to wait because of an earlier error. */
  predicate Blocked(p: Pool, now: int)
  {
    var e := AfterReset(p.errors, p.cfg, now);
    e.nextScaleUp.Some? && now < e.nextScaleUp.value
  }

  /** Some worker may be deleted without breaking a lower bound. */
  predicate Deletable(p: Pool)
    requires p.table.available.Keys == p.table.status.Keys
  {
    SizeOf(p.table) > p.cfg.minSize
    && (Bucket(p.table.status, Pending) != {}
        || exists n :: n in Bucket(p.table.status, Idle) && IdleSize(p) - p.table.available[n] >= p.cfg.minIdle)
  }

  /** The pool manages its size: it has a backend and knows all its workers. */
  predicate Active(p: Pool)
  {
    p.cfg.hasBackend && !p.cancelled && (p.ready || Bucket(p.table.status, Unknown) == {})
  }

  /** Nothing is left to do for a maintenance pass at time `now`. */
  predicate Settled(p: Pool, now: int)
    requires p.table.available.Keys == p.table.status.Keys
  {
    Active(p) ==> (GrowWanted(p) ==> Blocked(p, now)) && (ShrinkWanted(p) ==> !Deletable(p))
  }

  /** An idle worker could go without breaking a lower bound. */
  predicate CanKill(p: Pool)
  {
    && SizeOf(p.table) > p.cfg.minSize
    && IdleSize(p) - p.cfg.slots >= p.cfg.minIdle
    && (Bucket(p.table.status, Idle) != {} || Bucket(p.table.status, Pending) != {})
  }

  /** What every operation keeps: the idle total still differs from the sum by exactly
      what it differed before, and unconnected workers still hold the default slots. */
  ghost predicate Keeps(p: Pool, q: Pool)
  {
    && Sound(p) && Sound(q) && q.cfg == p.cfg && q.cancelled == p.cancelled
    && Drift(q.table, p.cfg.slots) == Drift(p.table, p.cfg.slots)
    && (Tidy(p) ==> Tidy(q))
  }

  /** The total does not depend on how many sessions wait. */
  lemma SessionsKeep(p: Pool, sessions: int)
    requires Sound(p)
    ensures Keeps(p, p.(pendingSessions := sessions))
  {
  }

  lemma KeepsTransitive(p: Pool, q: Pool, r: Pool)
    requires Keeps(p, q) && Keeps(q, r)
    ensures Keeps(p, r)
  {
  }

  function Max(a: int, b: int): int
  {
    if a < b then b else a
  }

  function Min(a: int, b: int): int
  {
    if a < b then a else b
  }

  // ----- Growing -------------------------------------------------------------------

  predicate IsCounted(status: map<Name, Status>, n: Name)
  {
    n in status && Counted(status[n])
  }

  /** The backend never names a worker that is in service, nor the same one twice. */
  ghost predicate Fresh(status: map<Name, Status>, replies: seq<Reply>)
  {
    && (forall i :: 0 <= i < |replies| && replies[i].Named? ==> !IsCounted(status, replies[i].name))
    && (forall i, k :: 0 <= i < k < |replies| && replies[i].Named? && replies[k].Named? ==>
          replies[i].name != replies[k].name)
  }

  ghost function GrowTable(t: Table, slots: int, reply: Reply, now: int): Table
    requires Indexed(t) && !reply.Failed?
  {
    match reply
    case Unnamed => t.(pendingUnknown := t.pendingUnknown + 1, idleSlots := t.idleSlots + slots)
    case Named(n) =>
      assert Indexed(t.(lastKnown := t.lastKnown[n := now])) by { LastKnownKeeps(t, t.lastKnown[n := now]); }
      SetStatus(t.(lastKnown := t.lastKnown[n := now]), n, Pending, slots)
  }

  lemma LastKnownKeeps(t: Table, lastKnown: map<Name, int>)
    requires Indexed(t)
    ensures Indexed(t.(lastKnown := lastKnown))
  {
    forall s ensures BucketOk(t.(lastKnown := lastKnown), s) {
      assert BucketOk(t, s);
    }
  }

  /** Whatever name the backend gives, index and total stay right and the size grows by at
      most one; it grows by one if the name is not that of a worker in service. */
  lemma GrowTableKeeps(t: Table, slots: int, reply: Reply, now: int)
    requires Indexed(t) && slots >= 0 && !reply.Failed?
    ensures var t' := GrowTable(t, slots, reply, now);
      && Indexed(t') && Drift(t', slots) == Drift(t, slots) && t.status.Keys <= t'.status.Keys
      && SizeOf(t) <= SizeOf(t') <= SizeOf(t) + 1
      && (reply.Named? && IsCounted(t.status, reply.name) <==> SizeOf(t') == SizeOf(t))
  {
    match reply
    case Unnamed =>
      var t' := GrowTable(t, slots, reply, now);
      forall s ensures BucketOk(t', s) {
        assert BucketOk(t, s);
      }
      assert (t.pendingUnknown + 1) * slots == t.pendingUnknown * slots + slots;
    case Named(n) =>
      LastKnownKeeps(t, t.lastKnown[n := now]);
      SetStatusKeeps(t.(lastKnown := t.lastKnown[n := now]), n, Pending, slots, slots);
  }

  /** A pass that grew the pool left it with no reason to shrink. */
  lemma GrowthNeverOvershoots(p: Pool, reply: Reply, now: int)
    requires Sound(p) && GrowWanted(p) && !reply.Failed?
    requires reply.Named? ==> !IsCounted(p.table.status, reply.name)
    ensures var p' := p.(table := GrowTable(p.table, p.cfg.slots, reply, now));
      Sound(p') && SizeOf(p'.table) <= p.cfg.maxSize && (Tidy(p) ==> Tidy(p') && !ShrinkWanted(p'))
  {
    GrowTableKeeps(p.table, p.cfg.slots, reply, now);
  }

  /** `t'` differs from `t` only by workers that were put into service. */
  ghost predicate Grew(t: Table, t': Table)
    requires Indexed(t) && Indexed(t')
  {
    && t.status.Keys <= t'.status.Keys && t.pendingUnknown <= t'.pendingUnknown
    && forall n :: n in t'.status ==>
         || (n in t.status && t'.status[n] == t.status[n] && t'.available[n] == t.available[n])
         || (t'.status[n] == Pending && !IsCounted(t.status, n))
  }

  /** One accepted scale-up request. */
  ghost function GrowOnce(p: Pool, reply: Reply, now: int): Pool
    requires Indexed(p.table) && !reply.Failed?
  {
    p.(table := GrowTable(p.table, p.cfg.slots, reply, now),
       errors := AfterReset(p.errors, p.cfg, now).(lastAttempt := Some(now)))
  }

  lemma GrowsByOne(p: Pool, reply: Reply, now: int)
    requires Sound(p) && !reply.Failed?
    ensures var p' := GrowOnce(p, reply, now);
      && Keeps(p, p') && p.table.status.Keys <= p'.table.status.Keys
      && SizeOf(p.table) <= SizeOf(p'.table) <= SizeOf(p.table) + 1
  {
    GrowTableKeeps(p.table, p.cfg.slots, reply, now);
    if Tidy(p) {
      GrowOnceTidy(p, reply, now);
    }
  }

  lemma GrowOnceTidy(p: Pool, reply: Reply, now: int)
    requires Sound(p) && Tidy(p) && !reply.Failed? && Sound(GrowOnce(p, reply, now))
    ensures Tidy(GrowOnce(p, reply, now))
  {
  }

  /** The grow loop: it asks for workers while it wants more and may ask.  A request after
      the last reply fails. */
  ghost function GrowAll(p: Pool, replies: seq<Reply>, now: int): Pool
    requires Sound(p)
    decreases |replies|
  {
    if !GrowWanted(p) then p
    else if Blocked(p, now) then p.(errors := AfterReset(p.errors, p.cfg, now))
    else if replies == [] || replies[0].Failed? then
      p.(errors := Errors(Some(now), Some(now + p.cfg.retryDelay), Some(now)))
    else
      GrowsByOne(p, replies[0], now);
      GrowAll(GrowOnce(p, replies[0], now), replies[1..], now)
  }

  /** What the grow loop may turn `p` into, whatever the backend replies: it stays within
      the limit, forgets no worker, keeps the total right and stops when nothing more is
      wanted or it has to wait. */
  ghost predicate Grown(p: Pool, q: Pool, now: int)
    requires Sound(p)
  {
    && Keeps(p, q) && q == p.(table := q.table, errors := q.errors)
    && SizeOf(p.table) <= SizeOf(q.table) <= Max(SizeOf(p.table), p.cfg.maxSize)
    && p.table.status.Keys <= q.table.status.Keys
    && (GrowWanted(q) ==> Blocked(q, now))
    && ((GrowWanted(p) ==> Blocked(p, now)) ==> q.table == p.table)
  }

  lemma {:induction false} GrowAllGrows(p: Pool, replies: seq<Reply>, now: int)
    requires Sound(p)
    ensures Grown(p, GrowAll(p, replies, now), now)
    decreases |replies|
  {
    if GrowWanted(p) && !Blocked(p, now) && replies != [] && !replies[0].Failed? {
      GrowsByOne(p, replies[0], now);
      var p1 := GrowOnce(p, replies[0], now);
      GrowAllGrows(p1, replies[1..], now);
      KeepsTransitive(p, p1, GrowAll(p1, replies[1..], now));
    }
  }

  // ----- Growing with a backend that names new workers ---------------------------------

  /** No earlier error stands in the way of a request: there was none, it is time to try
      again, or the last attempt is so long ago that the error is forgotten. */
  predicate MayAsk(p: Pool, now: int)
  {
    var e := p.errors;
    || e.nextScaleUp.None? || e.nextScaleUp.value <= now
    || (e.at.Some? && e.lastAttempt.Some? && now - e.lastAttempt.value >= p.cfg.resetAfter)
  }

  /** Both minima hold, as far as the maximum allows. */
  predicate Served(p: Pool)
  {
    && SizeOf(p.table) >= Min(p.cfg.minSize, p.cfg.maxSize)
    && (IdleSize(p) >= p.cfg.minIdle || SizeOf(p.table) >= p.cfg.maxSize)
  }

  /** The backend names new workers, never fails and has as many as there is room for. */
  ghost predicate Plenty(p: Pool, replies: seq<Reply>)
  {
    && Fresh(p.table.status, replies) && (forall i :: 0 <= i < |replies| ==> !replies[i].Failed?)
    && |replies| >= p.cfg.maxSize - SizeOf(p.table)
  }

  lemma BlockedIff(p: Pool, now: int)
    requires Sound(p)
    ensures Blocked(p, now) <==> !MayAsk(p, now)
  {
  }

  /** With such a backend a pool that may ask grows until both minima hold or it is full. */
  lemma {:induction false} GrowthServes(p: Pool, replies: seq<Reply>, now: int)
    requires Sound(p) && !p.cfg.batch && MayAsk(p, now) && Plenty(p, replies)
    ensures Served(GrowAll(p, replies, now))
    decreases |replies|
  {
    BlockedIff(p, now);
    if GrowWanted(p) {
      var p1 := GrowOnce(p, replies[0], now);
      FreshAfterOne(p, replies, now);
      GrowsByOne(p, replies[0], now);
      GrowTableKeeps(p.table, p.cfg.slots, replies[0], now);
      GrowthServes(p1, replies[1..], now);
    }
  }

  /** Nothing is requested when both minima hold already, when the pool is full, or in a pool
      that works in batches. */
  lemma NothingRequested(p: Pool, replies: seq<Reply>, now: int)
    requires Sound(p)
    requires
      || p.cfg.batch || SizeOf(p.table) >= p.cfg.maxSize
      || (SizeOf(p.table) >= p.cfg.minSize && IdleSize(p) >= p.cfg.minIdle)
    ensures GrowAll(p, replies, now) == p
  {
  }

  /** After a failed request the loop asks again exactly when the retry delay or the time
      after which errors are forgotten has passed. */
  lemma RetryAfterFailure(p: Pool, now: int, later: int)
    requires Sound(p) && !p.cfg.batch && MayAsk(p, now) && SizeOf(p.table) < p.cfg.maxSize
    requires IdleSize(p) < p.cfg.minIdle || SizeOf(p.table) < p.cfg.minSize
    ensures var q := GrowAll(p, [Failed], now);
      && q.table == p.table
      && (MayAsk(q, later) <==> later >= now + Min(p.cfg.retryDelay, p.cfg.resetAfter))
  {
    BlockedIff(p, now);
  }

  /** The pool only put workers into service, and has no reason to shrink if it did. */
  ghost predicate OnlyGrew(p: Pool, q: Pool)
    requires Sound(p) && Sound(q)
  {
    Grew(p.table, q.table) && (Tidy(p) ==> q.table == p.table || !ShrinkWanted(q))
  }

  lemma GrewTransitive(t: Table, t1: Table, t2: Table)
    requires Indexed(t) && Indexed(t1) && Indexed(t2) && Grew(t, t1) && Grew(t1, t2)
    ensures Grew(t, t2)
  {
  }

  lemma GrowOnceGrew(p: Pool, reply: Reply, now: int)
    requires Sound(p) && !reply.Failed? && Sound(GrowOnce(p, reply, now))
    requires reply.Named? ==> !IsCounted(p.table.status, reply.name)
    ensures Grew(p.table, GrowOnce(p, reply, now).table)
  {
  }

  lemma FreshAfterOne(p: Pool, replies: seq<Reply>, now: int)
    requires Sound(p) && Fresh(p.table.status, replies) && replies != [] && !replies[0].Failed?
    ensures Fresh(GrowOnce(p, replies[0], now).table.status, replies[1..])
    ensures replies[0].Named? ==> !IsCounted(p.table.status, replies[0].name)
  {
  }

  lemma OnlyGrewTransitive(p: Pool, p1: Pool, q: Pool)
    requires Keeps(p, p1) && Sound(q) && Grew(p.table, p1.table) && OnlyGrew(p1, q)
    requires q.cfg == p.cfg && q.pendingSessions == p.pendingSessions
    requires Tidy(p) ==> !ShrinkWanted(p.(table := p1.table))
    ensures OnlyGrew(p, q)
  {
    GrewTransitive(p.table, p1.table, q.table);
  }

  lemma {:induction false} FreshOnlyGrows(p: Pool, replies: seq<Reply>, now: int)
    requires Sound(p) && Fresh(p.table.status, replies)
    ensures Sound(GrowAll(p, replies, now)) && OnlyGrew(p, GrowAll(p, replies, now))
    decreases |replies|
  {
    if GrowWanted(p) && !Blocked(p, now) && replies != [] && !replies[0].Failed? {
      var p1 := GrowOnce(p, replies[0], now);
      GrowsByOne(p, replies[0], now);
      FreshAfterOne(p, replies, now);
      FreshOnlyGrows(p1, replies[1..], now);
      GrowOnceGrew(p, replies[0], now);
      GrowAllGrows(p1, replies[1..], now);
      GrowthNeverOvershoots(p, replies[0], now);
      OnlyGrewTransitive(p, p1, GrowAll(p1, replies[1..], now));
    }
  }

  // ----- Shrinking -----------------------------------------------------------------

  /** One worker is taken out of service: a pending one if there is any, otherwise an
      idle one whose slots can be spared. */
  ghost predicate ShrinksBy(p: Pool, n: Name, t': Table)
    requires Indexed(p.table)
  {
    && SizeOf(p.table) > p.cfg.minSize
    && if Bucket(p.table.status, Pending) != {} then
         n in Bucket(p.table.status, Pending) && t' == SetStatus(p.table, n, Disconnected, 0)
       else
         && n in Bucket(p.table.status, Idle) && IdleSize(p) - p.table.available[n] >= p.cfg.minIdle
         && t' == SetStatus(p.table, n, NotifyDeleting, -1)
  }

  ghost predicate OneDeleted(p: Pool, t': Table)
    requires Indexed(p.table)
  {
    exists n :: ShrinksBy(p, n, t')
  }

  lemma PendingDeletion(p: Pool, n: Name)
    requires Sound(p) && Tidy(p) && n in p.table.status && p.table.status[n] == Pending
    requires SizeOf(p.table) > p.cfg.minSize && IdleSize(p) - p.cfg.slots >= p.cfg.minIdle
    ensures var p' := p.(table := SetStatus(p.table, n, Disconnected, 0));
      && Sound(p') && Tidy(p') && IdleSize(p') >= p.cfg.minIdle && SizeOf(p'.table) == SizeOf(p.table) - 1
  {
    SetStatusKeeps(p.table, n, Disconnected, 0, p.cfg.slots);
  }

  lemma IdleDeletion(p: Pool, n: Name)
    requires Sound(p) && Tidy(p) && n in p.table.status && p.table.status[n] == Idle
    requires SizeOf(p.table) > p.cfg.minSize && IdleSize(p) - p.table.available[n] >= p.cfg.minIdle
    ensures var p' := p.(table := SetStatus(p.table, n, NotifyDeleting, -1));
      && Sound(p') && Tidy(p') && IdleSize(p') >= p.cfg.minIdle && SizeOf(p'.table) == SizeOf(p.table) - 1
  {
    SetStatusKeeps(p.table, n, NotifyDeleting, -1, p.cfg.slots);
  }

  /** A deletion keeps both lower bounds, which needs the clamp on `maxIdle` and that
      pending workers hold exactly the default slots. */
  lemma ShrinkKeepsLowerBounds(p: Pool, n: Name, t': Table)
    requires Sound(p) && Tidy(p) && ShrinksBy(p, n, t')
    requires IdleSize(p) > p.cfg.maxIdle || CanKill(p)
    ensures var p' := p.(table := t');
      && Sound(p') && Tidy(p')
      && IdleSize(p') >= p.cfg.minIdle && SizeOf(t') >= p.cfg.minSize && SizeOf(t') == SizeOf(p.table) - 1
  {
    if Bucket(p.table.status, Pending) != {} {
      PendingDeletion(p, n);
    } else {
      IdleDeletion(p, n);
    }
  }

  /** `t'` differs from `t` only by workers that were taken out of service. */
  ghost predicate Shrank(t: Table, t': Table)
    requires Indexed(t) && Indexed(t')
  {
    && t'.status.Keys == t.status.Keys && t'.pendingUnknown == t.pendingUnknown
    && forall n :: n in t.status ==> SameOrStopped(t, t', n)
  }

  ghost predicate SameOrStopped(t: Table, t': Table, n: Name)
    requires Indexed(t) && Indexed(t') && n in t.status && n in t'.status
  {
    || (t'.status[n] == t.status[n] && t'.available[n] == t.available[n])
    || (t.status[n] == Pending && t'.status[n] == Disconnected)
    || (t.status[n] == Idle && t'.status[n] == NotifyDeleting)
  }

  ghost predicate NoIdleStopped(t: Table, t': Table)
  {
    forall n :: n in t.status && t.status[n] == Idle ==> Get(t'.status, n) != Some(NotifyDeleting)
  }

  /** An idle worker is only told to stop when no pending one is left. */
  ghost predicate PendingFirst(t: Table, t': Table)
  {
    NoIdleStopped(t, t') || Bucket(t'.status, Pending) == {}
  }

  lemma ShrankTransitive(t: Table, t1: Table, t2: Table)
    requires Indexed(t) && Indexed(t1) && Indexed(t2) && Shrank(t, t1) && Shrank(t1, t2)
    ensures Shrank(t, t2)
  {
    forall n | n in t.status ensures SameOrStopped(t, t2, n) {
      assert SameOrStopped(t, t1, n) && SameOrStopped(t1, t2, n);
    }
  }

  lemma ShrinksByShrinks(p: Pool, n: Name, t': Table)
    requires Indexed(p.table) && Indexed(t') && ShrinksBy(p, n, t')
    ensures Shrank(p.table, t')
  {
    assert n in p.table.status && t'.status.Keys == p.table.status.Keys;
  }

  /** How many workers could still be deleted. */
  function Candidates(status: map<Name, Status>): nat
  {
    |Bucket(status, Pending)| + |Bucket(status, Idle)|
  }

  lemma ShrinkTerminates(p: Pool, n: Name, t': Table)
    requires Indexed(p.table) && ShrinksBy(p, n, t')
    ensures Candidates(t'.status) < Candidates(p.table.status)
  {
    var s := if Bucket(p.table.status, Pending) != {} then Disconnected else NotifyDeleting;
    BucketAfterSet(p.table.status, n, s, Pending);
    BucketAfterSet(p.table.status, n, s, Idle);
    assert t'.status == p.table.status[n := s];
  }

  // ----- A maintenance pass -----------------------------------------------------------

  /** It only takes workers out of service, pending ones first, and only if there were too
      many. */
  ghost predicate Trimmed(p: Pool, q: Pool)
    requires Sound(p)
  {
    && Sound(q) && q == p.(table := q.table, killingIdle := q.killingIdle)
    && Drift(q.table, p.cfg.slots) == Drift(p.table, p.cfg.slots)
    && SizeOf(q.table) <= SizeOf(p.table)
    && Shrank(p.table, q.table) && PendingFirst(p.table, q.table)
    && (q.table == p.table || (ShrinkWanted(p) && Deletable(p)))
  }

  /** It never goes below a lower bound. */
  ghost predicate Bounded(p: Pool, q: Pool)
    requires Indexed(p.table) && Indexed(q.table)
  {
    Tidy(p) ==>
      Tidy(q) && (q.table != p.table ==> IdleSize(q) >= p.cfg.minIdle && SizeOf(q.table) >= p.cfg.minSize)
  }

  /** What the shrink loop may turn `p` into. */
  ghost predicate Shrunk(p: Pool, q: Pool)
    requires Sound(p)
  {
    Trimmed(p, q) && Bounded(p, q)
  }

  lemma ShrinksByIsSound(p: Pool, n: Name, t': Table)
    requires Sound(p) && ShrinksBy(p, n, t')
    ensures Indexed(t') && Drift(t', p.cfg.slots) == Drift(p.table, p.cfg.slots)
    ensures SizeOf(t') == SizeOf(p.table) - 1 && Deletable(p)
  {
    var s := if Bucket(p.table.status, Pending) != {} then Disconnected else NotifyDeleting;
    SetStatusKeeps(p.table, n, s, if s == Disconnected then 0 else -1, p.cfg.slots);
  }

  lemma PendingGoFirst(t: Table, q: Pool, n: Name, t': Table)
    requires Indexed(q.table) && PendingFirst(t, q.table) && ShrinksBy(q, n, t')
    ensures PendingFirst(t, t')
  {
    if Bucket(q.table.status, Pending) != {} {
      assert t'.status == q.table.status[n := Disconnected];
      assert NoIdleStopped(t, t');
    } else {
      assert t'.status == q.table.status[n := NotifyDeleting];
      assert forall m :: m in Bucket(t'.status, Pending) ==> m in Bucket(q.table.status, Pending);
    }
  }

  lemma TrimmedStep(p: Pool, q: Pool, n: Name, t': Table)
    requires Sound(p) && Trimmed(p, q) && ShrinkWanted(q) && ShrinksBy(q, n, t')
    ensures Trimmed(p, q.(table := t', killingIdle := false))
  {
    ShrinksByIsSound(q, n, t');
    ShrinksByShrinks(q, n, t');
    ShrankTransitive(p.table, q.table, t');
    PendingGoFirst(p.table, q, n, t');
  }

  lemma BoundedStep(p: Pool, q: Pool, n: Name, t': Table)
    requires Sound(p) && Sound(q) && q.cfg == p.cfg && Bounded(p, q) && ShrinkWanted(q) && ShrinksBy(q, n, t')
    ensures Sound(q.(table := t')) && Bounded(p, q.(table := t', killingIdle := false))
  {
    ShrinksByIsSound(q, n, t');
    if Tidy(q) {
      ShrinkKeepsLowerBounds(q, n, t');
      var q', q'' := q.(table := t'), q.(table := t', killingIdle := false);
      assert Tidy(q') ==> Tidy(q'');
    }
  }

  lemma ShrunkStep(p: Pool, q: Pool, n: Name, t': Table)
    requires Sound(p) && Shrunk(p, q) && ShrinkWanted(q) && ShrinksBy(q, n, t')
    ensures Shrunk(p, q.(table := t', killingIdle := false))
  {
    TrimmedStep(p, q, n, t');
    BoundedStep(p, q, n, t');
  }

  /** One iteration of the shrink loop. */
  ghost predicate ShrinkStep(p: Pool, q: Pool, deleted: bool)
    requires Sound(p)
  {
    if deleted then OneDeleted(p, q.table) && q == p.(table := q.table, killingIdle := false)
    else q == p && !Deletable(p)
  }

  lemma ShrunkAfterStep(p: Pool, q: Pool, q': Pool, deleted: bool)
    requires Sound(p) && Shrunk(p, q) && ShrinkWanted(q) && ShrinkStep(q, q', deleted)
    ensures Shrunk(p, q') && (deleted ==> Candidates(q'.table.status) < Candidates(q.table.status))
  {
    if deleted {
      var n :| ShrinksBy(q, n, q'.table);
      ShrunkStep(p, q, n, q'.table);
      ShrinkTerminates(q, n, q'.table);
    }
  }

  /** Nothing changed; or the pool was below a minimum and grew; or it had too many idle slots
      and shrank, which left both lower bounds in place. */
  ghost predicate OneWay(p: Pool, p': Pool)
    requires Sound(p) && Sound(p')
  {
    || p'.table == p.table
    || (!p.cfg.batch && SizeOf(p.table) < p.cfg.maxSize
        && (IdleSize(p) < p.cfg.minIdle || SizeOf(p.table) < p.cfg.minSize)
        && Grew(p.table, p'.table))
    || (SizeOf(p.table) > p.cfg.minSize && IdleSize(p) > p.cfg.maxIdle
        && Shrank(p.table, p'.table) && PendingFirst(p.table, p'.table)
        && IdleSize(p') >= p.cfg.minIdle && SizeOf(p'.table) >= p.cfg.minSize)
  }

  /** What any pass over `p` keeps, whatever the backend replies. */
  ghost predicate Preserved(p: Pool, p': Pool, now: int)
  {
    && Keeps(p, p') && p'.pendingSessions == p.pendingSessions
    // The pool never grows past its limit, and no worker is forgotten.
    && SizeOf(p'.table) <= Max(SizeOf(p.table), p.cfg.maxSize)
    && p.table.status.Keys <= p'.table.status.Keys
    // Nothing happens to an inactive or a settled pool.
    && (!Active(p) || Settled(p, now) ==> p'.table == p.table)
    && (if Active(p) then p'.ready else p' == p.(ready := p'.ready))
    // The idle timer runs exactly while an idle worker could go.
    && (Active(p) ==> p'.killingIdle == CanKill(p'))
  }

  /** What a pass over `p` achieves if unconnected workers hold the default slots. */
  ghost predicate Achieved(p: Pool, p': Pool, replies: seq<Reply>, now: int)
    requires Sound(p) && Sound(p')
  {
    // A second pass would change nothing.
    && Settled(p', now)
    // With a backend that names new workers the pool grows or it shrinks, never both.
    && (Fresh(p.table.status, replies) ==> OneWay(p, p'))
    // With a backend that can deliver, both minima hold afterwards.
    && (Active(p) && !p.cfg.batch && MayAsk(p, now) && Plenty(p, replies) ==> Served(p'))
  }

  /** What one maintenance pass at time `now` may turn `p` into. */
  ghost predicate Maintained(p: Pool, p': Pool, replies: seq<Reply>, now: int)
  {
    Preserved(p, p', now) && (Tidy(p) ==> Achieved(p, p', replies, now))
  }

  /** The loops of a pass over an active pool: the backend is asked for exactly the workers
      the grow loop wants, then surplus workers are taken out of service. */
  ghost predicate Looped(p: Pool, replies: seq<Reply>, now: int, q: Pool)
    requires Sound(p)
  {
    var grown := GrowAll(p.(ready := true), replies, now);
    Sound(grown) && Shrunk(grown, q) && (ShrinkWanted(q) ==> !Deletable(q))
  }

  /** A pass is a grow loop, then a shrink loop, then the timer. */
  lemma PassDone(p: Pool, replies: seq<Reply>, now: int, r: Pool)
    requires Sound(p) && Active(p) && Looped(p, replies, now, r)
    ensures Maintained(p, r.(killingIdle := CanKill(r)), replies, now)
    ensures Looped(p, replies, now, r.(killingIdle := CanKill(r)))
  {
    var p1 := p.(ready := true);
    GrowAllGrows(p1, replies, now);
    if Fresh(p.table.status, replies) {
      FreshOnlyGrows(p1, replies, now);
    }
    if !p.cfg.batch && MayAsk(p, now) && Plenty(p, replies) {
      GrowthServes(p1, replies, now);
    }
    PassMaintains(p, GrowAll(p1, replies, now), r, replies, now);
    TimerLoops(p, replies, now, r, CanKill(r));
  }

  lemma TimerLoops(p: Pool, replies: seq<Reply>, now: int, r: Pool, killing: bool)
    requires Sound(p) && Looped(p, replies, now, r)
    ensures Looped(p, replies, now, r.(killingIdle := killing))
  {
    var r' := r.(killingIdle := killing);
    assert Tidy(r) ==> Tidy(r');
    assert Deletable(r') == Deletable(r);
  }

  /** The states `q` and `r` after the two loops of a pass over `p`. */
  ghost predicate Loops(p: Pool, q: Pool, r: Pool, now: int)
    requires Sound(p)
  {
    Active(p) && Grown(p.(ready := true), q, now) && Shrunk(q, r) && (ShrinkWanted(r) ==> !Deletable(r))
  }

  /** A grow loop and a shrink loop that lead from `p` over `q` to `r` make a pass. */
  lemma PassMaintains(p: Pool, q: Pool, r: Pool, replies: seq<Reply>, now: int)
    requires Sound(p) && Loops(p, q, r, now)
    requires Fresh(p.table.status, replies) ==> OnlyGrew(p.(ready := true), q)
    requires !p.cfg.batch && MayAsk(p, now) && Plenty(p, replies) ==> Served(q)
    ensures Maintained(p, r.(killingIdle := CanKill(r)), replies, now)
  {
    PassPreserves(p, q, r, now);
    if Tidy(p) {
      PassAchieves(p, q, r, replies, now);
      TimerAchieves(p, r, replies, now, CanKill(r));
    }
  }

  lemma TimerAchieves(p: Pool, r: Pool, replies: seq<Reply>, now: int, killing: bool)
    requires Sound(p) && Sound(r) && Achieved(p, r, replies, now)
    ensures Achieved(p, r.(killingIdle := killing), replies, now)
  {
    assert Deletable(r.(killingIdle := killing)) == Deletable(r);
  }

  lemma PassPreserves(p: Pool, q: Pool, r: Pool, now: int)
    requires Sound(p) && Loops(p, q, r, now)
    ensures Preserved(p, r.(killingIdle := CanKill(r)), now)
  {
    PassSettles(p, q, r, now);
    PassLeavesSettled(p, q, r, now);
    var r' := r.(killingIdle := CanKill(r));
    assert Tidy(r) ==> Tidy(r');
  }

  lemma PassAchieves(p: Pool, q: Pool, r: Pool, replies: seq<Reply>, now: int)
    requires Sound(p) && Tidy(p) && Loops(p, q, r, now)
    requires Fresh(p.table.status, replies) ==> OnlyGrew(p.(ready := true), q)
    requires !p.cfg.batch && MayAsk(p, now) && Plenty(p, replies) ==> Served(q)
    ensures Sound(r) && Achieved(p, r, replies, now)
  {
    PassSettles(p, q, r, now);
    PassServes(p, q, r, now);
    if Fresh(p.table.status, replies) {
      PassIsOneWay(p, q, r, now);
    }
  }

  /** Shrinking does not undo what growing achieved. */
  lemma PassServes(p: Pool, q: Pool, r: Pool, now: int)
    requires Sound(p) && Loops(p, q, r, now)
    ensures Tidy(p) && Served(q) ==> Served(r)
  {
    if Tidy(p) {
      assert Tidy(p.(ready := true));
      if r.table == q.table {
        assert IdleSize(r) == IdleSize(q);
      }
    }
  }

  lemma PassLeavesSettled(p: Pool, q: Pool, r: Pool, now: int)
    requires Sound(p) && Loops(p, q, r, now)
    ensures Settled(p, now) ==> r.table == p.table
  {
    if Settled(p, now) {
      assert q.table == p.table;
      assert Deletable(q) == Deletable(p) && ShrinkWanted(q) == ShrinkWanted(p);
    }
  }

  lemma PassSettles(p: Pool, q: Pool, r: Pool, now: int)
    requires Sound(p) && Loops(p, q, r, now)
    ensures Tidy(p) ==> Tidy(r) && Settled(r, now)
  {
    if Tidy(p) {
      assert Tidy(p.(ready := true));
      if r.table == q.table {
        assert GrowWanted(r) == GrowWanted(q) && Blocked(r, now) == Blocked(q, now);
      }
    }
  }

  lemma PassIsOneWay(p: Pool, q: Pool, r: Pool, now: int)
    requires Sound(p) && Tidy(p) && Loops(p, q, r, now) && OnlyGrew(p.(ready := true), q)
    ensures OneWay(p, r)
  {
    assert Tidy(p.(ready := true));
    if r.table != q.table {
      assert q.table == p.table;
    }
  }

  /** A pass over an inactive pool only notes that all workers are known. */
  lemma InactiveMaintains(p: Pool, ready: bool, replies: seq<Reply>, now: int)
    requires Sound(p) && !Active(p) && (ready ==> p.ready || Bucket(p.table.status, Unknown) == {})
    ensures Maintained(p, p.(ready := ready), replies, now)
  {
    var q := p.(ready := ready);
    assert Tidy(p) ==> Tidy(q);
    assert !Active(q);
  }

  // ----- Operations on values ------------------------------------------------------------

  ghost function WithStatus(p: Pool, n: Name, s: Status, newSlots: int): Pool
    requires Sound(p)
  {
    p.(table := SetStatus(p.table, n, s, newSlots))
  }

  lemma WithStatusKeeps(p: Pool, n: Name, s: Status, newSlots: int)
    requires Sound(p)
    requires s.Pending? || s.NeedsRestart? ==>
               newSlots == p.cfg.slots || (newSlots < 0 && Get(p.table.status, n) == Some(NeedsRestart))
    requires HoldsNothing(s) ==> newSlots == 0
    ensures Keeps(p, WithStatus(p, n, s, newSlots))
  {
    SetStatusKeeps(p.table, n, s, newSlots, p.cfg.slots);
  }

  /** The operation `p` to `q` and then a pass to `r`, taken together. */
  lemma KeepsThenMaintained(p: Pool, q: Pool, r: Pool, replies: seq<Reply>, now: int)
    requires Keeps(p, q) && Maintained(q, r, replies, now)
    ensures Keeps(p, r) && (Tidy(p) ==> Settled(r, now))
  {
  }

  /** The deletion made by the idle timer. */
  lemma ShrinkKeeps(p: Pool, t': Table)
    requires Sound(p) && CanKill(p) && OneDeleted(p, t')
    ensures Keeps(p, p.(table := t'))
  {
    var n :| ShrinksBy(p, n, t');
    ShrinksByIsSound(p, n, t');
    if Tidy(p) {
      ShrinkKeepsLowerBounds(p, n, t');
    }
  }

  /** Workers a batch request put into service. */
  ghost function AddPending(p: Pool, names: seq<Name>, now: int): (q: Pool)
    requires Sound(p)
    ensures Keeps(p, q) && q == p.(table := q.table) && q.table.pendingUnknown == p.table.pendingUnknown
    decreases |names|
  {
    if names == [] then p
    else
      AddPendingKeeps(p, names[0], now);
      AddPending(p.(table := GrowTable(p.table, p.cfg.slots, Named(names[0]), now)), names[1..], now)
  }

  lemma AddPendingKeeps(p: Pool, n: Name, now: int)
    requires Sound(p)
    ensures Keeps(p, p.(table := GrowTable(p.table, p.cfg.slots, Named(n), now)))
  {
    LastKnownKeeps(p.table, p.table.lastKnown[n := now]);
    var q := p.(table := p.table.(lastKnown := p.table.lastKnown[n := now]));
    assert Keeps(p, q);
    WithStatusKeeps(q, n, Pending, p.cfg.slots);
  }

  /** The named workers are pending with the default slots, and nothing else changed about
      any worker. */
  ghost predicate AllPending(t: Table, names: seq<Name>, t': Table, slots: int)
  {
    forall n ::
      if n in names then Get(t'.status, n) == Some(Pending) && Get(t'.available, n) == Some(slots)
      else Get(t'.status, n) == Get(t.status, n) && Get(t'.available, n) == Get(t.available, n)
  }

  lemma GrowTableNodes(t: Table, slots: int, n: Name, now: int)
    requires Indexed(t) && slots >= 0
    ensures AllPending(t, [n], GrowTable(t, slots, Named(n), now), slots)
  {
  }

  lemma AllPendingThen(t: Table, n: Name, t1: Table, names: seq<Name>, t2: Table, slots: int)
    requires AllPending(t, [n], t1, slots) && AllPending(t1, names, t2, slots)
    ensures AllPending(t, [n] + names, t2, slots)
  {
  }

  lemma AddPendingFirst(p: Pool, names: seq<Name>, now: int)
    requires Sound(p) && names != []
    ensures var p1 := p.(table := GrowTable(p.table, p.cfg.slots, Named(names[0]), now));
      Sound(p1) && AddPending(p, names, now) == AddPending(p1, names[1..], now)
  {
    AddPendingKeeps(p, names[0], now);
  }

  lemma {:induction false} AddPendingNodes(p: Pool, names: seq<Name>, now: int)
    requires Sound(p)
    ensures AllPending(p.table, names, AddPending(p, names, now).table, p.cfg.slots)
    decreases |names|
  {
    if names != [] {
      AddPendingFirst(p, names, now);
      var t1 := GrowTable(p.table, p.cfg.slots, Named(names[0]), now);
      GrowTableNodes(p.table, p.cfg.slots, names[0], now);
      var p1 := p.(table := t1);
      AddPendingNodes(p1, names[1..], now);
      AllPendingThen(p.table, names[0], t1, names[1..], AddPending(p1, names[1..], now).table, p.cfg.slots);
      assert [names[0]] + names[1..] == names;
    }
  }

  /** A worker requested without a name turned up (or failed): it is no longer counted apart. */
  function Adopt(t: Table, slots: int): Table
    requires t.pendingUnknown > 0
  {
    t.(pendingUnknown := t.pendingUnknown - 1, idleSlots := t.idleSlots - slots)
  }

  lemma AdoptKeeps(t: Table, slots: int)
    requires Indexed(t) && t.pendingUnknown > 0
    ensures Indexed(Adopt(t, slots)) && Drift(Adopt(t, slots), slots) == Drift(t, slots)
    ensures SizeOf(Adopt(t, slots)) == SizeOf(t) - 1
  {
    forall s ensures BucketOk(Adopt(t, slots), s) {
      assert BucketOk(t, s);
    }
    assert (t.pendingUnknown - 1) * slots == t.pendingUnknown * slots - slots;
  }

  /** An agent connected and reported its free slots. */
  ghost function AgentAvailable(p: Pool, n: Name, busy: bool, slots: int): Pool
    requires Sound(p)
  {
    var t := SetStatus(p.table, n, if busy then Running else Idle, slots);
    var t1 := if n !in p.table.status && p.cfg.hasBackend && t.pendingUnknown > 0 then Adopt(t, p.cfg.slots) else t;
    p.(table := t1.(available := t1.available[n := slots]), errors := p.errors.(at := None, nextScaleUp := None))
  }

  /** The total stays right exactly when the reported slots are not negative, or are
      what the record already held. */
  lemma AgentAvailableDrifts(p: Pool, n: Name, busy: bool, slots: int)
    requires Sound(p)
    ensures var held := if n in p.table.status then p.table.available[n] else 0;
      && Sound(AgentAvailable(p, n, busy, slots))
      && Drift(AgentAvailable(p, n, busy, slots).table, p.cfg.slots) ==
         Drift(p.table, p.cfg.slots) + (if slots < 0 then held - slots else 0)
      && (Tidy(p) ==> Tidy(AgentAvailable(p, n, busy, slots)))
  {
    AgentAvailableIndexed(p, n, busy, slots);
    if Tidy(p) {
      AgentAvailableTidy(p, n, busy, slots);
    }
    var s := if busy then Running else Idle;
    var t := SetStatus(p.table, n, s, slots);
    SetStatusKeeps(p.table, n, s, slots, p.cfg.slots);
    var t1 := t;
    if n !in p.table.status && p.cfg.hasBackend && t.pendingUnknown > 0 {
      AdoptKeeps(t, p.cfg.slots);
      t1 := Adopt(t, p.cfg.slots);
    }
    OverwriteDrifts(t1, n, slots, p.cfg.slots);
  }

  lemma AgentAvailableIndexed(p: Pool, n: Name, busy: bool, slots: int)
    requires Sound(p)
    ensures Sound(AgentAvailable(p, n, busy, slots))
  {
    SetStatusIndexes(p.table, n, if busy then Running else Idle, slots);
    var t, t' := SetStatus(p.table, n, if busy then Running else Idle, slots), AgentAvailable(p, n, busy, slots).table;
    forall s ensures BucketOk(t', s) {
      assert BucketOk(t, s);
    }
  }

  lemma AgentAvailableTidy(p: Pool, n: Name, busy: bool, slots: int)
    requires Sound(p) && Tidy(p) && Sound(AgentAvailable(p, n, busy, slots))
    ensures Tidy(AgentAvailable(p, n, busy, slots))
  {
    var t' := AgentAvailable(p, n, busy, slots).table;
    assert t'.status == p.table.status[n := if busy then Running else Idle];
    assert forall k :: k in p.table.status && k != n ==> t'.available[k] == p.table.available[k];
  }

  lemma OverwriteDrifts(t: Table, n: Name, x: int, slots: int)
    requires Indexed(t) && n in t.status && t.status[n] != NotifyDeleting
    ensures var t' := t.(available := t.available[n := x]);
      Indexed(t') && Drift(t', slots) == Drift(t, slots) + t.available[n] - x
  {
    var t' := t.(available := t.available[n := x]);
    forall s ensures BucketOk(t', s) {
      assert BucketOk(t, s);
    }
    var shares := Shares(t.status, t.available);
    assert Shares(t'.status, t'.available) == shares[n := x];
    TotalUpdate(shares, n, x);
    TotalWithout(shares, n);
  }

  /** An agent's connection ended. */
  ghost function AgentLost(p: Pool, n: Name, now: int): Pool
    requires Sound(p)
  {
    LastKnownKeeps(p.table, p.table.lastKnown[n := now]);
    var q := p.(table := p.table.(lastKnown := p.table.lastKnown[n := now]));
    if n !in q.table.status then q
    else match q.table.status[n]
      case NeedsRestart => WithStatus(q, n, Pending, -1)
      case Deleting => WithStatus(q, n, Disconnected, 0)
      case _ => WithStatus(q, n, Lost, 0)
  }

  lemma AgentLostKeeps(p: Pool, n: Name, now: int)
    requires Sound(p)
    ensures Keeps(p, AgentLost(p, n, now))
  {
    LastKnownKeeps(p.table, p.table.lastKnown[n := now]);
    var q := p.(table := p.table.(lastKnown := p.table.lastKnown[n := now]));
    assert Keeps(p, q);
    if n in q.table.status {
      match q.table.status[n]
      case NeedsRestart => WithStatusKeeps(q, n, Pending, -1);
      case Deleting => WithStatusKeeps(q, n, Disconnected, 0);
      case _ => WithStatusKeeps(q, n, Lost, 0);
    }
  }

  /** The backend reported that a worker could not be allocated or started. */
  ghost function AllocationFailed(p: Pool, n: Option<Name>, now: int): Pool
    requires Sound(p)
  {
    var q := p.(errors := p.errors.(at := Some(now), nextScaleUp := Some(now + p.cfg.retryDelay)));
    if n.Some? && n.value in p.table.status then q.(table := RemoveWorker(p.table, n.value))
    else if p.table.pendingUnknown > 0 then q.(table := Adopt(p.table, p.cfg.slots))
    else q
  }

  /** The total stays right exactly when the failed worker had not been told to stop
      while holding slots. */
  lemma AllocationFailedDrifts(p: Pool, n: Option<Name>, now: int)
    requires Sound(p)
    ensures var told := n.Some? && Get(p.table.status, n.value) == Some(NotifyDeleting);
      && Sound(AllocationFailed(p, n, now))
      && Drift(AllocationFailed(p, n, now).table, p.cfg.slots) ==
         Drift(p.table, p.cfg.slots) - (if told then p.table.available[n.value] else 0)
      && (Tidy(p) ==> Tidy(AllocationFailed(p, n, now)))
  {
    if n.Some? && n.value in p.table.status {
      RemoveWorkerDrifts(p.table, n.value, p.cfg.slots);
    } else if p.table.pendingUnknown > 0 {
      AdoptKeeps(p.table, p.cfg.slots);
    }
  }

  /** A new configuration moves the total away from the sum by what the unnamed workers
      are now worth more or less, and by nothing else. */
  lemma ReconfigureDrifts(p: Pool, c: Config)
    requires Sound(p)
    ensures var q := p.(cfg := Normalise(c));
      && Sound(q)
      && Drift(q.table, q.cfg.slots) ==
         Drift(p.table, p.cfg.slots) + p.table.pendingUnknown * (p.cfg.slots - q.cfg.slots)
      && (Drift(q.table, q.cfg.slots) == Drift(p.table, p.cfg.slots) <==>
            q.cfg.slots == p.cfg.slots || p.table.pendingUnknown == 0)
      && (Tidy(p) && q.cfg.slots == p.cfg.slots ==> Tidy(q))
  {
    var k, a, b := p.table.pendingUnknown, p.cfg.slots, Normalise(c).slots;
    assert k * (a - b) == k * a - k * b;
    if k != 0 && a != b {
      assert k * (a - b) != 0;
    }
  }
}
