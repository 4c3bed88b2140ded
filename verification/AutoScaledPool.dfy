/** The pool object: every operation updates the worker table and then runs one
    maintenance pass. */
module AutoScaledPools {
  import opened Basics
  import opened AutoScaling
  import opened PoolMaintenance
  import opened PoolSync
  import opened PoolRuns

  class AutoScaledPool {
    var cfg: Config
    var cancelled: bool
    var table: Table
    var pendingSessions: int
    var ready: bool
    var killingIdle: bool
    var errors: Errors

    ghost function View(): Pool
      reads this
    {
      Pool(cfg, cancelled, table, pendingSessions, ready, killingIdle, errors)
    }

    method SetWorkerStatus(n: Name, s: Status, newSlots: int) returns (was: Option<Status>)
      requires Indexed(table)
      modifies `table
      ensures table == SetStatus(old(table), n, s, newSlots)
      ensures was == Get(old(table.status), n) && Indexed(table)
    {
      SetStatusIndexes(table, n, s, newSlots);
      assert BucketOk(table, s) && (n in table.status ==> BucketOk(table, table.status[n]));
      was := Get(table.status, n);
      if was.Some? && was.value != s {
        table := table.(byStatus := Drop(table.byStatus, was.value, n));
        if was.value.Unknown? || was.value.Pending? || was.value.Lost? {
          table := table.(lastKnown := table.lastKnown - {n});
        }
      }
      var held := if was.Some? then table.available[n] else 0;
      var slots := if newSlots < 0 then held else newSlots;
      table := table.(available := table.available[n := slots]);
      // Slots of a worker that was told to stop are not part of the total.
      table := table.(idleSlots := table.idleSlots + Share(Some(s), slots) - Share(was, held));
      table := table.(byStatus := Put(table.byStatus, s, n, table.version));
      table := table.(status := table.status[n := s]);
    }

    method RemoveWorkerLocked(n: Name)
      requires Indexed(table)
      modifies `table
      ensures table == RemoveWorker(old(table), n) && Indexed(table)
    {
      RemoveWorkerIndexes(table, n);
      if n in table.status {
        var s := table.status[n];
        assert BucketOk(table, s);
        table := table.(byStatus := Drop(table.byStatus, s, n), idleSlots := table.idleSlots - table.available[n]);
      }
      table := table.(status := table.status - {n}, available := table.available - {n},
        lastKnown := table.lastKnown - {n});
    }

    function SizeLocked(): (r: nat)
      requires Indexed(table)
      reads this
      ensures r == SizeOf(table)
    {
      assert BucketOk(table, Idle) && BucketOk(table, Running) && BucketOk(table, Pending) && BucketOk(table, Unknown);
      |table.byStatus[Idle]| + |table.byStatus[Running]| + |table.byStatus[Pending]| + |table.byStatus[Unknown]|
      + table.pendingUnknown
    }

    function IdleSizeLocked(): (r: int)
      reads this
      ensures r == IdleSize(View())
    {
      table.idleSlots - pendingSessions
    }

    function Members(s: Status): (r: set<Name>)
      requires Indexed(table)
      reads this
      ensures r == Bucket(table.status, s)
    {
      assert BucketOk(table, s);
      table.byStatus[s].Keys
    }

    function CanKillIdleWorkerLocked(): (r: bool)
      requires Indexed(table)
      reads this
      ensures r == CanKill(View())
    {
      && SizeLocked() > cfg.minSize && IdleSizeLocked() - cfg.slots >= cfg.minIdle
      && (|Members(Idle)| > 0 || |Members(Pending)| > 0)
    }

    method DeleteOneWorker() returns (deleted: bool)
      requires Indexed(table)
      modifies `table
      ensures deleted ==> OneDeleted(old(View()), table)
      ensures !deleted ==> table == old(table) && !Deletable(View())
      ensures Indexed(table)
    {
      var idle, pending := Members(Idle), Members(Pending);
      if |idle| == 0 && |pending| == 0 {
        return false;
      }
      if SizeLocked() <= cfg.minSize {
        return false;
      }
      ghost var p := View();
      if |pending| > 0 {
        var n :| n in pending;
        var _ := SetWorkerStatus(n, Disconnected, 0);
        assert ShrinksBy(p, n, table);
      } else {
        var spare := set n | n in idle && IdleSizeLocked() - table.available[n] >= cfg.minIdle;
        if spare == {} {
          assert forall n :: n in Bucket(table.status, Idle) && n !in spare ==>
            IdleSize(View()) - table.available[n] < cfg.minIdle;
          return false;
        }
        var n :| n in spare;
        var _ := SetWorkerStatus(n, NotifyDeleting, -1);
        assert ShrinksBy(p, n, table);
      }
      return true;
    }

    /** Forgets an old error and tells whether scale-up still has to wait. */
    method MustWait(now: int) returns (wait: bool)
      modifies `errors
      ensures errors == AfterReset(old(errors), cfg, now) && wait == old(Blocked(View(), now))
    {
      errors := AfterReset(errors, cfg, now);
      wait := errors.nextScaleUp.Some? && now < errors.nextScaleUp.value;
    }

    /** Records a worker the backend agreed to start. */
    method RecordScaleUp(reply: Reply, now: int)
      requires Indexed(table) && !reply.Failed?
      modifies `table
      ensures table == GrowTable(old(table), cfg.slots, reply, now)
    {
      match reply
      case Unnamed =>
        table := table.(pendingUnknown := table.pendingUnknown + 1, idleSlots := table.idleSlots + cfg.slots);
      case Named(n) =>
        LastKnownKeeps(table, table.lastKnown[n := now]);
        table := table.(lastKnown := table.lastKnown[n := now]);
        var _ := SetWorkerStatus(n, Pending, cfg.slots);
    }

    /** The grow loop: one backend request per iteration. */
    method Grow(now: int, replies: seq<Reply>)
      requires Sound(View())
      modifies `table, `errors
      ensures View() == GrowAll(old(View()), replies, now)
    {
      var k := 0;
      ghost var start := View();
      assert replies[0..] == replies;
      while !cfg.batch && (IdleSizeLocked() < cfg.minIdle || SizeLocked() < cfg.minSize) && SizeLocked() < cfg.maxSize
        invariant 0 <= k <= |replies| && Sound(View())
        invariant GrowAll(start, replies, now) == GrowAll(View(), replies[k..], now)
        decreases |replies| - k
      {
        ghost var p := View();
        var wait := MustWait(now);
        if wait {
          break;
        }
        errors := errors.(lastAttempt := Some(now));
        if k == |replies| || replies[k].Failed? {
          errors := errors.(at := Some(now), nextScaleUp := Some(now + cfg.retryDelay));
          break;
        }
        GrowsByOne(p, replies[k], now);
        assert replies[k..][1..] == replies[k + 1..];
        RecordScaleUp(replies[k], now);
        k := k + 1;
      }
    }

    /** One iteration of the shrink loop. */
    method ShrinkOnce() returns (deleted: bool)
      requires Sound(View()) && ShrinkWanted(View())
      modifies `table, `killingIdle
      ensures ShrinkStep(old(View()), View(), deleted)
    {
      deleted := DeleteOneWorker();
      if deleted {
        killingIdle := false;
      }
    }

    /** The shrink loop: one deletion per iteration, until enough are gone. */
    method Shrink()
      requires Sound(View())
      modifies `table, `killingIdle
      ensures Shrunk(old(View()), View()) && (ShrinkWanted(View()) ==> !Deletable(View()))
    {
      ghost var start := View();
      while SizeLocked() > cfg.minSize && IdleSizeLocked() > cfg.maxIdle
        invariant Shrunk(start, View())
        decreases Candidates(table.status)
      {
        ghost var p := View();
        var deleted := ShrinkOnce();
        ShrunkAfterStep(start, p, View(), deleted);
        if !deleted {
          break;
        }
      }
    }

    /** The two loops of a pass over an active pool. */
    method RunLoops(now: int, replies: seq<Reply>, ghost p: Pool)
      requires Sound(p) && View() == p.(ready := true)
      modifies `table, `errors, `killingIdle
      ensures Looped(p, replies, now, View())
    {
      GrowAllGrows(View(), replies, now);
      Grow(now, replies);
      Shrink();
    }

    /** The loops and the timer of a pass over an active pool. */
    method Resize(now: int, replies: seq<Reply>, ghost p: Pool)
      requires Sound(p) && Active(p) && View() == p.(ready := true)
      modifies `table, `errors, `killingIdle
      ensures Maintained(p, View(), replies, now) && Looped(p, replies, now, View())
    {
      RunLoops(now, replies, p);
      ghost var r := View();
      PassDone(p, replies, now, r);
      killingIdle := CanKillIdleWorkerLocked();
      assert View() == r.(killingIdle := CanKill(r));
    }

    method MaintainIdleWorkers(now: int, replies: seq<Reply>)
      requires Sound(View())
      modifies `table, `errors, `ready, `killingIdle
      ensures Maintained(old(View()), View(), replies, now)
      ensures old(Active(View())) ==> Looped(old(View()), replies, now, View())
      ensures !old(Active(View())) ==> View() == old(View()).(ready := ready)
    {
      ghost var p := View();
      if cfg.hasBackend && |Members(Unknown)| == 0 && !ready {
        ready := true;
      }
      if !ready || !cfg.hasBackend || cancelled {
        InactiveMaintains(p, ready, replies, now);
        assert View() == p.(ready := ready);
        return;
      }
      Resize(now, replies, p);
    }

    /** The pass that ends an operation which turned `p` into the present state. */
    method MaintainAfter(ghost p: Pool, now: int, replies: seq<Reply>)
      requires Keeps(p, View())
      modifies `table, `errors, `ready, `killingIdle
      ensures Maintained(old(View()), View(), replies, now)
      ensures Keeps(p, View()) && (Tidy(p) ==> Settled(View(), now))
    {
      ghost var q := View();
      MaintainIdleWorkers(now, replies);
      KeepsThenMaintained(p, q, View(), replies, now);
    }

    // ----- Operations ------------------------------------------------------------------

    constructor (c: Config)
      ensures IsNew(View()) && cfg == Normalise(c)
    {
      cfg := Normalise(c);
      cancelled := false;
      table := Table(EmptyIndex, map[], map[], map[], 0, 0, 0);
      pendingSessions := 0;
      ready, killingIdle := false, false;
      errors := Errors(None, None, None);
      new;
      EmptyIndexed();
      assert Shares(table.status, table.available) == map[];
    }

    method RequestWorker(now: int, replies: seq<Reply>)
      requires Sound(View())
      modifies this
      ensures PoolStep(old(View()), Requested, replies, now, View())
      ensures Keeps(old(View()), View()) && (old(Tidy(View())) ==> Settled(View(), now))
    {
      ghost var p := View();
      SessionsKeep(p, pendingSessions + 1);
      pendingSessions := pendingSessions + 1;
      assert View() == p.(pendingSessions := p.pendingSessions + 1);
      MaintainAfter(p, now, replies);
    }

    method RequestCancelled(now: int, replies: seq<Reply>)
      requires Sound(View())
      modifies this
      ensures PoolStep(old(View()), RequestDropped, replies, now, View())
      ensures Keeps(old(View()), View()) && (old(Tidy(View())) ==> Settled(View(), now))
    {
      ghost var p := View();
      SessionsKeep(p, pendingSessions - 1);
      pendingSessions := pendingSessions - 1;
      assert View() == p.(pendingSessions := p.pendingSessions - 1);
      MaintainAfter(p, now, replies);
    }

    method MarkBusy(n: Name, remaining: int, now: int, replies: seq<Reply>)
      requires Sound(View())
      modifies this
      ensures PoolStep(old(View()), WentBusy(n, remaining), replies, now, View())
      ensures Keeps(old(View()), View()) && (old(Tidy(View())) ==> Settled(View(), now))
    {
      ghost var p := View();
      pendingSessions := pendingSessions - 1;
      ghost var p1 := View();
      SessionsKeep(p, p.pendingSessions - 1);
      assert p1 == p.(pendingSessions := p.pendingSessions - 1);
      WithStatusKeeps(p1, n, Running, remaining);
      var _ := SetWorkerStatus(n, Running, remaining);
      ghost var q := View();
      assert q == WithStatus(p1, n, Running, remaining) == Updated(p, WentBusy(n, remaining), now);
      MaintainAfter(p1, now, replies);
      KeepsTransitive(p, p1, View());
    }

    /** Only a worker that was running makes the pool look at its size again. */
    method MarkIdle(n: Name, remaining: int, now: int, replies: seq<Reply>)
      requires Sound(View())
      modifies this
      ensures PoolStep(old(View()), WentIdle(n, remaining), replies, now, View())
      ensures Keeps(old(View()), View())
    {
      ghost var p := View();
      WithStatusKeeps(p, n, Idle, remaining);
      var was := SetWorkerStatus(n, Idle, remaining);
      assert View() == WithStatus(p, n, Idle, remaining);
      if was == Some(Running) {
        MaintainAfter(p, now, replies);
      }
    }

    method Disconnect(n: Name, now: int)
      requires Sound(View())
      modifies `table
      ensures View() == AgentLost(old(View()), n, now)
    {
      LastKnownKeeps(table, table.lastKnown[n := now]);
      table := table.(lastKnown := table.lastKnown[n := now]);
      if n in table.status {
        if table.status[n] == NeedsRestart {
          var _ := SetWorkerStatus(n, Pending, -1);
        } else if table.status[n] == Deleting {
          var _ := SetWorkerStatus(n, Disconnected, 0);
        } else {
          var _ := SetWorkerStatus(n, Lost, 0);
        }
      }
    }

    method MarkLost(n: Name, now: int, replies: seq<Reply>)
      requires Sound(View())
      modifies this
      ensures PoolStep(old(View()), ConnectionLost(n), replies, now, View())
      ensures Keeps(old(View()), View()) && (old(Tidy(View())) ==> Settled(View(), now))
    {
      ghost var p := View();
      AgentLostKeeps(p, n, now);
      Disconnect(n, now);
      MaintainAfter(p, now, replies);
    }

    method MarkDeleting(n: Name, now: int, replies: seq<Reply>)
      requires Sound(View()) && cfg.hasBackend
      modifies this
      ensures PoolStep(old(View()), DeletionStarted(n), replies, now, View())
      ensures Keeps(old(View()), View()) && (old(Tidy(View())) ==> Settled(View(), now))
    {
      ghost var p := View();
      WithStatusKeeps(p, n, Deleting, 0);
      var _ := SetWorkerStatus(n, Deleting, 0);
      assert View() == WithStatus(p, n, Deleting, 0);
      MaintainAfter(p, now, replies);
    }

    method Connect(n: Name, busy: bool, slots: int)
      requires Sound(View())
      modifies `table, `errors
      ensures View() == AgentAvailable(old(View()), n, busy, slots)
    {
      errors := errors.(at := None, nextScaleUp := None);
      var was := SetWorkerStatus(n, if busy then Running else Idle, slots);
      if was.None? && cfg.hasBackend && table.pendingUnknown > 0 {
        table := Adopt(table, cfg.slots);
      }
      table := table.(available := table.available[n := slots]);
    }

    method NotifyAgentAvailable(n: Name, busy: bool, slots: int, now: int, replies: seq<Reply>)
      requires Sound(View())
      modifies this
      ensures PoolStep(old(View()), Connected(n, busy, slots), replies, now, View())
      ensures slots >= 0 ==> Keeps(old(View()), View()) && (old(Tidy(View())) ==> Settled(View(), now))
    {
      ghost var p := View();
      AgentAvailableDrifts(p, n, busy, slots);
      Connect(n, busy, slots);
      ghost var q := View();
      MaintainIdleWorkers(now, replies);
      if slots >= 0 {
        KeepsThenMaintained(p, q, View(), replies, now);
      }
    }

    method NoteFailure(n: Option<Name>, now: int)
      requires Sound(View())
      modifies `table, `errors
      ensures View() == AllocationFailed(old(View()), n, now)
    {
      errors := errors.(at := Some(now), nextScaleUp := Some(now + cfg.retryDelay));
      if n.Some? && n.value in table.status {
        RemoveWorkerLocked(n.value);
      } else if table.pendingUnknown > 0 {
        table := Adopt(table, cfg.slots);
      }
    }

    method HandleResourcePoolEvent(n: Option<Name>, now: int, replies: seq<Reply>)
      requires Sound(View())
      modifies this
      ensures PoolStep(old(View()), AllocationError(n), replies, now, View())
      ensures !(n.Some? && Get(old(table.status), n.value) == Some(NotifyDeleting)) ==> Keeps(old(View()), View())
    {
      ghost var p := View();
      AllocationFailedDrifts(p, n, now);
      NoteFailure(n, now);
      ghost var q := View();
      MaintainIdleWorkers(now, replies);
      if !(n.Some? && Get(p.table.status, n.value) == Some(NotifyDeleting)) {
        KeepsThenMaintained(p, q, View(), replies, now);
      }
    }

    /** Deletes one worker that can be spared. */
    method DeleteSpareWorker() returns (deleted: bool)
      requires Sound(View()) && CanKill(View())
      modifies `table
      ensures deleted ==> OneDeleted(old(View()), table)
      ensures !deleted ==> table == old(table) && !Deletable(View())
      ensures Keeps(old(View()), View())
    {
      ghost var p := View();
      deleted := DeleteOneWorker();
      if deleted {
        ShrinkKeeps(p, table);
        assert View() == p.(table := table);
      } else {
        assert View() == p;
      }
    }

    /** The idle timer fired: at most one worker goes, and only if it can be spared. */
    method DeleteOneIdleWorker(now: int, replies: seq<Reply>)
      requires Sound(View())
      modifies this
      ensures Keeps(old(View()), View())
      ensures PoolStep(old(View()), IdleTimer, replies, now, View())
    {
      ghost var start := View();
      killingIdle := false;
      ghost var p := View();
      assert p == start.(killingIdle := false) && Keeps(start, p);
      if CanKillIdleWorkerLocked() {
        var deleted := DeleteSpareWorker();
        ghost var t := table;
        assert View() == p.(table := t);
        if deleted {
          MaintainAfter(p, now, replies);
          KeepsTransitive(start, p, View());
          assert OneDeleted(p, t) && Maintained(p.(table := t), View(), replies, now);
        }
      }
      assert TimerStep(p, replies, now, View());
    }

    method UpdateConfig(c: Config, sameBackend: bool, now: int, replies: seq<Reply>)
      requires Sound(View())
      modifies this
      ensures PoolStep(old(View()), Configured(c, sameBackend), replies, now, View())
      ensures Normalise(c).slots == old(cfg.slots) || old(table.pendingUnknown) == 0 <==>
        Drift(table, cfg.slots) == old(Drift(table, cfg.slots))
    {
      ghost var p := View();
      ReconfigureDrifts(p, c);
      cfg := Normalise(c);
      killingIdle := false;
      if sameBackend {
        MaintainIdleWorkers(now, replies);
      }
    }

    method ReadyForIdleMaintenance(now: int, replies: seq<Reply>)
      requires Sound(View())
      modifies this
      ensures PoolStep(old(View()), Readied, replies, now, View())
      ensures Keeps(old(View()), View())
    {
      ghost var p := View();
      if !ready {
        ready := true;
        MaintainAfter(p, now, replies);
      }
    }

    method RecordBatch(names: seq<Name>, now: int)
      requires Sound(View())
      modifies `table
      ensures View() == AddPending(old(View()), names, now)
    {
      ghost var p := View();
      assert names[0..] == names;
      for i := 0 to |names|
        invariant Sound(View()) && AddPending(p, names, now) == AddPending(View(), names[i..], now)
      {
        ghost var q := View();
        AddPendingKeeps(q, names[i], now);
        RecordScaleUp(Named(names[i]), now);
        assert View() == q.(table := GrowTable(q.table, q.cfg.slots, Named(names[i]), now));
        assert names[i..][1..] == names[i + 1..];
      }
    }

    method TakeBatch(count: int, nodes: Option<seq<Name>>, now: int) returns (ok: bool)
      requires Sound(View())
      modifies `table, `pendingSessions
      ensures ok == (cfg.batch && nodes.Some?) && View() == WithBatch(old(View()), count, nodes, now)
    {
      if !cfg.batch || nodes.None? {
        return false;
      }
      pendingSessions := pendingSessions + count;
      RecordBatch(nodes.value, now);
      return true;
    }

    /** `nodes` is what a backend that supports batches answered, if it did. */
    method RequestBatch(count: int, nodes: Option<seq<Name>>, now: int) returns (ok: bool)
      requires Sound(View())
      modifies `table, `pendingSessions
      ensures ok == (cfg.batch && nodes.Some?)
      ensures PoolStep(old(View()), BatchRequested(count, nodes), [], now, View()) && Keeps(old(View()), View())
      ensures ok ==> AllPending(old(table), nodes.value, table, cfg.slots)
    {
      WithBatchKeeps(View(), count, nodes, now);
      ok := TakeBatch(count, nodes, now);
    }

    // ----- Synchronisation with the backend ----------------------------------------------

    /** Taken before the backend is asked for its listing; other operations may run until
        the listing arrives. */
    method BeginSync()
      requires Sound(View())
      modifies `table
      ensures PoolStep(old(View()), SyncBegun, [], 0, View()) && Keeps(old(View()), View())
    {
      NewVersionKeeps(View());
      table := table.(version := table.version + 1);
    }

    method NoteWorker(n: Name, now: int)
      requires Sound(View())
      modifies `table
      ensures View() == NoteListed(old(View()), n, now)
    {
      if n in table.status {
        assert BucketOk(table, table.status[n]);
        table := table.(byStatus := Put(table.byStatus, table.status[n], n, table.version));
      } else if table.pendingUnknown > 0 {
        var _ := SetWorkerStatus(n, Pending, cfg.slots);
        table := Adopt(table, cfg.slots);
      } else {
        var _ := SetWorkerStatus(n, Unknown, 0);
        table := table.(lastKnown := table.lastKnown[n := now]);
      }
    }

    method NoteWorkers(names: seq<Name>, now: int)
      requires Sound(View())
      modifies `table
      ensures View() == NoteAll(old(View()), names, now)
    {
      ghost var p := View();
      assert names[0..] == names;
      for i := 0 to |names|
        invariant Sound(View()) && NoteAll(p, names, now) == NoteAll(View(), names[i..], now)
      {
        NoteWorker(names[i], now);
        assert names[i..][1..] == names[i + 1..];
      }
    }

    /** Removes the workers in `all`, except those in `refused`. */
    method RemoveAll(all: set<Name>, refused: set<Name>, ghost t: Table, ghost gone: set<Name>)
      requires Indexed(t) && Dropped(t, gone, table, cfg.slots)
      requires forall n :: n in all ==> Get(table.status, n) != Some(NotifyDeleting)
      modifies `table
      ensures Dropped(t, gone + (all - refused), table, cfg.slots)
    {
      var todo := all;
      assert gone + (all - refused - todo) == gone;
      while todo != {}
        invariant todo <= all && Dropped(t, gone + (all - refused - todo), table, cfg.slots)
        invariant forall n :: n in todo ==> Get(table.status, n) != Some(NotifyDeleting)
        decreases todo
      {
        ghost var done := gone + (all - refused - todo);
        var n :| n in todo;
        todo := todo - {n};
        if n in refused {
          assert gone + (all - refused - todo) == done;
        } else {
          DropOne(t, done, table, n, cfg.slots);
          RemoveWorkerLocked(n);
          assert gone + (all - refused - todo) == done + {n};
        }
      }
      assert all - refused - todo == all - refused;
    }

    method DropStale(s: Status, ghost t: Table, ghost gone: set<Name>)
      requires Indexed(t) && Dropped(t, gone, table, cfg.slots) && NonActive(s)
      requires forall n :: n in gone ==> n in t.status && t.status[n] != s
      modifies `table
      ensures Dropped(t, gone + Stale(t, s), table, cfg.slots)
    {
      assert BucketOk(table, s);
      var all := set n | n in table.byStatus[s]
                         && table.byStatus[s][n] != table.version && table.byStatus[s][n] != table.version - 1;
      StaleAfterDrop(t, gone, table, s, cfg.slots);
      assert all == Stale(table, s);
      RemoveAll(all, {}, t, gone);
      assert all - {} == all;
    }

    method DropGone(ghost t: Table)
      requires Indexed(t) && table == t
      modifies `table
      ensures Dropped(t, Gone(t), table, cfg.slots)
    {
      DroppedNothing(t, cfg.slots);
      DropStale(Pending, t, {});
      DropStale(Unknown, t, {} + Stale(t, Pending));
      DropStale(Lost, t, {} + Stale(t, Pending) + Stale(t, Unknown));
      DropStale(Disconnected, t, {} + Stale(t, Pending) + Stale(t, Unknown) + Stale(t, Lost));
      GoneByStatus(t);
    }

    method KillExpired(refused: set<Name>, now: int, ghost t: Table, ghost gone: set<Name>)
      requires Indexed(t) && Dropped(t, gone, table, cfg.slots)
      modifies `table
      ensures Dropped(t, gone + Expired(t, cfg.killUnknownAfter, now, refused), table, cfg.slots)
    {
      ExpiredAfterDrop(t, gone, table, cfg.killUnknownAfter, now, refused, cfg.slots);
      if cfg.killUnknownAfter > 0 {
        var all := set n |
          && n in table.lastKnown && n in table.status && (table.status[n].Unknown? || table.status[n].Lost?)
          && now - table.lastKnown[n] > cfg.killUnknownAfter;
        assert all - refused == Expired(table, cfg.killUnknownAfter, now, refused);
        RemoveAll(all, refused, t, gone);
      }
    }

    method Sync(names: seq<Name>, refused: set<Name>, now: int)
      requires Sound(View())
      modifies `table
      ensures Synced(old(View()), names, refused, now, table)
    {
      ghost var p := View();
      NoteWorkers(names, now);
      ghost var t := table;
      DropGone(t);
      KillExpired(refused, now, t, Gone(t));
      SyncedBy(p, names, refused, now, t, table);
    }

    /** The backend's listing arrived; `refused` are the workers it will not delete. */
    method FinishSync(names: seq<Name>, refused: set<Name>, now: int, replies: seq<Reply>)
      requires Sound(View()) && cfg.hasBackend
      modifies this
      ensures PoolStep(old(View()), SyncFinished(names, refused), replies, now, View())
      ensures Keeps(old(View()), View()) && (old(Tidy(View())) ==> Settled(View(), now))
    {
      ghost var p := View();
      Sync(names, refused, now);
      ghost var t := table;
      SyncKeeps(p, names, refused, now, t);
      assert View() == p.(table := t);
      MaintainAfter(p, now, replies);
    }
  }
}
