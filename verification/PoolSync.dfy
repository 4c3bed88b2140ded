/** Synchronisation of the pool with the backend's listing of workers.

    Every entry of the status index carries the number of the last sync in which its
    worker was listed or its status set.  A worker without a connection that has missed
    two listings is gone. */
module PoolSync {
  import opened Basics
  import opened AutoScaling
  import opened PoolMaintenance

  /** The sync in which `n` was last listed or had its status set. */
  ghost function StampOf(t: Table, n: Name): int
    requires Indexed(t) && n in t.status
  {
    assert BucketOk(t, t.status[n]) && n in Bucket(t.status, t.status[n]);
    t.byStatus[t.status[n]][n]
  }

  /** A listed worker that takes the place of one requested without a name. */
  ghost function Place(t: Table, n: Name, slots: int): Table
    requires Indexed(t) && t.pendingUnknown > 0
  {
    Adopt(SetStatus(t, n, Pending, slots), slots)
  }

  lemma PlaceKeeps(p: Pool, n: Name)
    requires Sound(p) && p.table.pendingUnknown > 0
    ensures Keeps(p, p.(table := Place(p.table, n, p.cfg.slots)))
  {
    WithStatusKeeps(p, n, Pending, p.cfg.slots);
    AdoptKeeps(SetStatus(p.table, n, Pending, p.cfg.slots), p.cfg.slots);
    assert Tidy(p) ==> Tidy(WithStatus(p, n, Pending, p.cfg.slots));
  }

  /** A listed worker nobody asked for. */
  ghost function Discover(t: Table, n: Name, now: int): Table
    requires Indexed(t)
  {
    var t' := SetStatus(t, n, Unknown, 0);
    t'.(lastKnown := t'.lastKnown[n := now])
  }

  lemma DiscoverKeeps(p: Pool, n: Name, now: int)
    requires Sound(p)
    ensures Keeps(p, p.(table := Discover(p.table, n, now)))
  {
    WithStatusKeeps(p, n, Unknown, 0);
    var t := SetStatus(p.table, n, Unknown, 0);
    LastKnownKeeps(t, t.lastKnown[n := now]);
    assert Tidy(p) ==> Tidy(WithStatus(p, n, Unknown, 0));
  }

  lemma StampingKeeps(p: Pool, n: Name)
    requires Sound(p) && n in p.table.status
    ensures Keeps(p, p.(table := Stamp(p.table, n)))
  {
    StampKeeps(p.table, n, p.cfg.slots);
  }

  /** A listed worker: a new one takes the place of a worker requested without a name, if
      there is any, and is otherwise unknown; a known one is stamped. */
  ghost function NoteListed(p: Pool, n: Name, now: int): (q: Pool)
    requires Sound(p)
    ensures Keeps(p, q)
  {
    if n in p.table.status then StampingKeeps(p, n); p.(table := Stamp(p.table, n))
    else if p.table.pendingUnknown > 0 then PlaceKeeps(p, n); p.(table := Place(p.table, n, p.cfg.slots))
    else DiscoverKeeps(p, n, now); p.(table := Discover(p.table, n, now))
  }

  ghost function NoteAll(p: Pool, names: seq<Name>, now: int): (q: Pool)
    requires Sound(p)
    ensures Keeps(p, q)
    decreases |names|
  {
    if names == [] then p else NoteAll(NoteListed(p, names[0], now), names[1..], now)
  }

  /** Worker `n` looks the same in both tables. */
  ghost predicate SameWorker(t: Table, t': Table, n: Name)
    requires Indexed(t) && Indexed(t')
  {
    && n in t.status && n in t'.status
    && t'.status[n] == t.status[n] && t'.available[n] == t.available[n] && StampOf(t', n) == StampOf(t, n)
    && Get(t'.lastKnown, n) == Get(t.lastKnown, n)
  }

  lemma SetStatusStamps(t: Table, n: Name, s: Status, newSlots: int, k: Name)
    requires Indexed(t) && Indexed(SetStatus(t, n, s, newSlots)) && (k in t.status || k == n)
    ensures StampOf(SetStatus(t, n, s, newSlots), k) == if k == n then t.version else StampOf(t, k)
  {
    var t' := SetStatus(t, n, s, newSlots);
    assert BucketOk(t', t'.status[k]) && BucketOk(t, s);
    if k != n {
      assert BucketOk(t, t.status[k]);
    }
  }

  lemma StampStamps(t: Table, n: Name, k: Name)
    requires Indexed(t) && n in t.status && Indexed(Stamp(t, n)) && k in t.status
    ensures StampOf(Stamp(t, n), k) == if k == n then t.version else StampOf(t, k)
  {
    assert BucketOk(t, t.status[k]) && BucketOk(t, t.status[n]) && k in Bucket(t.status, t.status[k]);
  }

  lemma NoteListedLocal(p: Pool, n: Name, now: int, k: Name)
    requires Sound(p)
    ensures var t, t' := p.table, NoteListed(p, n, now).table;
      && t'.version == t.version && t'.status.Keys == t.status.Keys + {n}
      && (k in t.status ==> t'.status[k] == t.status[k] && t'.available[k] == t.available[k])
      && (k in t.status && k != n ==> SameWorker(t, t', k))
      && (k in t.status ==> Get(t'.lastKnown, k) == Get(t.lastKnown, k))
      && StampOf(t', n) == t.version
  {
    var t := p.table;
    if n in t.status {
      StampKeeps(t, n, p.cfg.slots);
      StampStamps(t, n, n);
      if k in t.status {
        StampStamps(t, n, k);
      }
    } else {
      var s, x := if t.pendingUnknown > 0 then Pending else Unknown, if t.pendingUnknown > 0 then p.cfg.slots else 0;
      SetStatusIndexes(t, n, s, x);
      SetStatusStamps(t, n, s, x, n);
      if k in t.status {
        SetStatusStamps(t, n, s, x, k);
      }
    }
  }

  /** After a listing, every listed worker is known and carries the current stamp; a worker that
      was known keeps its status, slots and last contact, and its stamp if it was not listed. */
  lemma {:induction false} NoteAllLocal(p: Pool, names: seq<Name>, now: int, k: Name)
    requires Sound(p)
    ensures var t, t' := p.table, NoteAll(p, names, now).table;
      && t'.version == t.version && (k in t'.status <==> k in t.status || k in names)
      && (k in names ==> StampOf(t', k) == t.version)
      && (k in t.status ==> t'.status[k] == t.status[k] && t'.available[k] == t.available[k])
      && (k in t.status ==> Get(t'.lastKnown, k) == Get(t.lastKnown, k))
      && (k in t.status && k !in names ==> SameWorker(t, t', k))
    decreases |names|
  {
    if names != [] {
      var q := NoteListed(p, names[0], now);
      NoteListedLocal(p, names[0], now, k);
      NoteAllLocal(q, names[1..], now, k);
    }
  }

  /** A worker that a listing made known: it stands for one requested without a name, or it
      is unknown, holds nothing and was last heard of now. */
  ghost predicate NewlyListed(t: Table, k: Name, slots: int, now: int)
  {
    || (Get(t.status, k) == Some(Pending) && Get(t.available, k) == Some(slots))
    || (Get(t.status, k) == Some(Unknown) && Get(t.available, k) == Some(0) && Get(t.lastKnown, k) == Some(now))
  }

  /** The listed names that are not known yet. */
  function NewNames(status: map<Name, Status>, names: seq<Name>): set<Name>
  {
    set n | n in names && n !in status
  }

  lemma NoteListedNew(p: Pool, n: Name, now: int)
    requires Sound(p) && n !in p.table.status
    ensures var t, t' := p.table, NoteListed(p, n, now).table;
      && NewlyListed(t', n, p.cfg.slots, now)
      && t'.pendingUnknown == Max(0, t.pendingUnknown - 1)
      && SizeOf(t') == SizeOf(t) + (if t.pendingUnknown > 0 then 0 else 1)
  {
    var t := p.table;
    if t.pendingUnknown > 0 {
      SetStatusKeeps(t, n, Pending, p.cfg.slots, p.cfg.slots);
      AdoptKeeps(SetStatus(t, n, Pending, p.cfg.slots), p.cfg.slots);
    } else {
      SetStatusKeeps(t, n, Unknown, 0, p.cfg.slots);
    }
  }

  lemma NoteListedKnown(p: Pool, n: Name, now: int)
    requires Sound(p) && n in p.table.status
    ensures var t, t' := p.table, NoteListed(p, n, now).table;
      t'.pendingUnknown == t.pendingUnknown && SizeOf(t') == SizeOf(t) && t'.status == t.status
  {
    StampKeeps(p.table, n, p.cfg.slots);
  }

  lemma NewNamesStep(status: map<Name, Status>, status': map<Name, Status>, names: seq<Name>)
    requires names != [] && status'.Keys == status.Keys + {names[0]}
    ensures |NewNames(status, names)| == |NewNames(status', names[1..])| + (if names[0] in status then 0 else 1)
  {
    assert names == [names[0]] + names[1..];
    var rest := NewNames(status', names[1..]);
    if names[0] in status {
      assert NewNames(status, names) == rest;
    } else {
      assert NewNames(status, names) == rest + {names[0]} && names[0] !in rest;
    }
  }

  /** `t'` has `found` more known workers than `t`. */
  predicate Found(t: Table, t': Table, found: nat)
  {
    && t'.pendingUnknown == Max(0, t.pendingUnknown - found)
    && SizeOf(t') == SizeOf(t) + Max(0, found - t.pendingUnknown)
  }

  lemma FoundThen(t: Table, t1: Table, t2: Table, a: nat, b: nat)
    requires Found(t, t1, a) && Found(t1, t2, b)
    ensures Found(t, t2, a + b)
  {
  }

  lemma NoteListedCounts(p: Pool, n: Name, now: int)
    requires Sound(p)
    ensures var t, t' := p.table, NoteListed(p, n, now).table;
      t'.status.Keys == t.status.Keys + {n} && Found(t, t', if n in t.status then 0 else 1)
  {
    NoteListedLocal(p, n, now, n);
    if n in p.table.status {
      NoteListedKnown(p, n, now);
    } else {
      NoteListedNew(p, n, now);
    }
  }

  /** A listing makes each new name known, first in place of the workers requested without a
      name, of which as many are no longer waited for, and then as unknown workers. */
  lemma {:induction false} ListingCounts(p: Pool, names: seq<Name>, now: int)
    requires Sound(p)
    ensures Found(p.table, NoteAll(p, names, now).table, |NewNames(p.table.status, names)|)
    decreases |names|
  {
    if names == [] {
      assert NewNames(p.table.status, names) == {};
    } else {
      var q := NoteListed(p, names[0], now);
      NoteListedCounts(p, names[0], now);
      NewNamesStep(p.table.status, q.table.status, names);
      ListingCounts(q, names[1..], now);
      FoundThen(p.table, q.table, NoteAll(q, names[1..], now).table, if names[0] in p.table.status then 0 else 1,
        |NewNames(q.table.status, names[1..])|);
    }
  }

  lemma {:induction false} ListedIsNew(p: Pool, names: seq<Name>, now: int, k: Name)
    requires Sound(p) && k in names && k !in p.table.status
    ensures NewlyListed(NoteAll(p, names, now).table, k, p.cfg.slots, now)
    decreases |names|
  {
    var q := NoteListed(p, names[0], now);
    NoteListedLocal(p, names[0], now, k);
    if names[0] == k {
      NoteListedNew(p, k, now);
      NoteAllLocal(q, names[1..], now, k);
    } else {
      ListedIsNew(q, names[1..], now, k);
    }
  }

  // ----- Workers that are dropped -----------------------------------------------------

  /** Not connected, and not seen in this sync or the one before. */
  ghost predicate IsGone(t: Table, n: Name)
    requires Indexed(t)
  {
    n in t.status && NonActive(t.status[n]) && StampOf(t, n) != t.version && StampOf(t, n) != t.version - 1
  }

  /** Out of contact for too long, and the backend agreed to delete it. */
  predicate IsExpired(t: Table, n: Name, after: int, now: int, refused: set<Name>)
  {
    && after > 0 && n in t.status && (t.status[n].Unknown? || t.status[n].Lost?)
    && n in t.lastKnown && now - t.lastKnown[n] > after && n !in refused
  }

  ghost predicate SameStamps(t: Table, t': Table)
    requires Indexed(t) && Indexed(t') && t'.status.Keys <= t.status.Keys
  {
    forall n :: n in t'.status ==> StampOf(t', n) == StampOf(t, n)
  }

  /** `t'` is `t` without the workers in `gone`. */
  ghost predicate Dropped(t: Table, gone: set<Name>, t': Table, slots: int)
    requires Indexed(t)
  {
    && Indexed(t') && t'.version == t.version && t'.pendingUnknown == t.pendingUnknown
    && t'.status == t.status - gone && t'.available == t.available - gone && t'.lastKnown == t.lastKnown - gone
    && SameStamps(t, t') && Drift(t', slots) == Drift(t, slots)
  }

  lemma DroppedNothing(t: Table, slots: int)
    requires Indexed(t)
    ensures Dropped(t, {}, t, slots)
  {
  }

  lemma RemoveStamp(t: Table, n: Name, k: Name)
    requires Indexed(t) && Indexed(RemoveWorker(t, n)) && k in t.status && k != n
    ensures k in RemoveWorker(t, n).status && StampOf(RemoveWorker(t, n), k) == StampOf(t, k)
  {
    assert BucketOk(t, t.status[k]) && BucketOk(RemoveWorker(t, n), t.status[k]);
  }

  lemma RemoveKeepsStamps(t: Table, t1: Table, n: Name)
    requires Indexed(t) && Indexed(t1) && t1.status.Keys <= t.status.Keys && SameStamps(t, t1)
    ensures Indexed(RemoveWorker(t1, n)) && SameStamps(t, RemoveWorker(t1, n))
  {
    RemoveWorkerIndexes(t1, n);
    forall k | k in RemoveWorker(t1, n).status ensures StampOf(RemoveWorker(t1, n), k) == StampOf(t, k) {
      RemoveStamp(t1, n, k);
    }
  }

  lemma Without<V>(m: map<Name, V>, gone: set<Name>, n: Name)
    ensures m - gone - {n} == m - (gone + {n})
  {
  }

  lemma DropOne(t: Table, gone: set<Name>, t1: Table, n: Name, slots: int)
    requires Indexed(t) && Dropped(t, gone, t1, slots) && Get(t1.status, n) != Some(NotifyDeleting)
    ensures Dropped(t, gone + {n}, RemoveWorker(t1, n), slots)
  {
    RemoveWorkerDrifts(t1, n, slots);
    RemoveKeepsStamps(t, t1, n);
    Without(t.status, gone, n);
    Without(t.available, gone, n);
    Without(t.lastKnown, gone, n);
  }

  /** The workers in status `s` that missed this listing and the one before. */
  ghost function Stale(t: Table, s: Status): set<Name>
    requires Indexed(t)
  {
    set n | n in Bucket(t.status, s) && StampOf(t, n) != t.version && StampOf(t, n) != t.version - 1
  }

  ghost function Gone(t: Table): set<Name>
    requires Indexed(t)
  {
    set n | n in t.status && IsGone(t, n)
  }

  lemma GoneByStatus(t: Table)
    requires Indexed(t)
    ensures Gone(t) == {} + Stale(t, Pending) + Stale(t, Unknown) + Stale(t, Lost) + Stale(t, Disconnected)
  {
  }

  lemma StaleAfterDrop(t: Table, gone: set<Name>, t': Table, s: Status, slots: int)
    requires Indexed(t) && Dropped(t, gone, t', slots) && forall n :: n in gone ==> n in t.status && t.status[n] != s
    ensures Stale(t', s) == Stale(t, s)
  {
    forall n ensures n in Stale(t', s) <==> n in Stale(t, s) {
      if n in t'.status {
        assert StampOf(t', n) == StampOf(t, n);
      }
    }
  }

  function Expired(t: Table, after: int, now: int, refused: set<Name>): set<Name>
  {
    set n | n in t.status && IsExpired(t, n, after, now, refused)
  }

  lemma ExpiredAfterDrop(t: Table, gone: set<Name>, t': Table, after: int, now: int, refused: set<Name>, slots: int)
    requires Indexed(t) && Dropped(t, gone, t', slots)
    ensures gone + Expired(t', after, now, refused) == gone + Expired(t, after, now, refused)
    ensures after <= 0 ==> gone + Expired(t, after, now, refused) == gone
  {
  }

  lemma NewVersionKeeps(p: Pool)
    requires Sound(p)
    ensures Keeps(p, p.(table := p.table.(version := p.table.version + 1)))
  {
    var t := p.table.(version := p.table.version + 1);
    forall s ensures BucketOk(t, s) {
      assert BucketOk(p.table, s);
    }
  }

  /** The workers a sync drops, in terms of the pool before it: gone ones, and expired
      ones the backend agreed to delete. */
  ghost predicate Lapsed(p: Pool, names: seq<Name>, n: Name)
    requires Sound(p)
  {
    && n in p.table.status && p.table.status[n] in {Pending, Unknown, Lost, Disconnected}
    && n !in names && StampOf(p.table, n) < p.table.version - 1
  }

  lemma StampIsOld(t: Table, n: Name)
    requires Indexed(t) && n in t.status
    ensures StampOf(t, n) <= t.version
  {
    assert BucketOk(t, t.status[n]) && n in Bucket(t.status, t.status[n]);
  }

  /** A worker is dropped as gone exactly when it has no connection, is absent from this
      listing, and was last listed or had its status set before the previous sync. */
  lemma GoneIffLapsed(p: Pool, names: seq<Name>, now: int, n: Name)
    requires Sound(p)
    ensures IsGone(NoteAll(p, names, now).table, n) <==> Lapsed(p, names, n)
  {
    NoteAllLocal(p, names, now, n);
    if n in p.table.status {
      StampIsOld(p.table, n);
    }
  }

  /** What a sync may turn the worker table into: the listing is noted, then exactly the
      gone and the expired workers are dropped. */
  ghost predicate Synced(p: Pool, names: seq<Name>, refused: set<Name>, now: int, t': Table)
    requires Sound(p)
  {
    var t := NoteAll(p, names, now).table;
    exists gone :: Dropped(t, gone, t', p.cfg.slots) &&
      forall n :: n in gone <==> IsGone(t, n) || IsExpired(t, n, p.cfg.killUnknownAfter, now, refused)
  }

  lemma SyncedBy(p: Pool, names: seq<Name>, refused: set<Name>, now: int, t: Table, t': Table)
    requires Sound(p) && t == NoteAll(p, names, now).table
    requires Dropped(t, Gone(t) + Expired(t, p.cfg.killUnknownAfter, now, refused), t', p.cfg.slots)
    ensures Synced(p, names, refused, now, t')
  {
  }

  lemma SyncKeeps(p: Pool, names: seq<Name>, refused: set<Name>, now: int, t': Table)
    requires Sound(p) && Synced(p, names, refused, now, t')
    ensures Keeps(p, p.(table := t'))
  {
  }

  /** Unknown or lost, last heard of longer ago than the limit allows, and the backend agreed
      to delete it. */
  predicate OutOfContact(p: Pool, n: Name, now: int, refused: set<Name>)
  {
    && p.cfg.killUnknownAfter > 0 && n !in refused
    && (Get(p.table.status, n) == Some(Unknown) || Get(p.table.status, n) == Some(Lost))
    && n in p.table.lastKnown && p.table.lastKnown[n] + p.cfg.killUnknownAfter < now
  }

  /** A known worker is dropped exactly when it lapsed, or was out of contact for too long
      and the backend agreed to delete it, both judged before the sync. */
  lemma SyncDropsExactly(p: Pool, names: seq<Name>, refused: set<Name>, now: int, t': Table, n: Name)
    requires Sound(p) && n in p.table.status && Synced(p, names, refused, now, t')
    ensures n !in t'.status <==>
      Lapsed(p, names, n) || OutOfContact(p, n, now, refused)
    ensures n in t'.status ==> t'.status[n] == p.table.status[n] && t'.available[n] == p.table.available[n]
  {
    NoteAllLocal(p, names, now, n);
    GoneIffLapsed(p, names, now, n);
  }

  /** A sync never forgets a worker that runs, is idle, was told to stop or is being
      deleted, and never changes what it knows about one. */
  lemma SyncSparesActive(p: Pool, names: seq<Name>, refused: set<Name>, now: int, t': Table, n: Name)
    requires Sound(p) && n in p.table.status && Synced(p, names, refused, now, t')
    requires p.table.status[n] in {Running, Idle, NotifyDeleting, Deleting}
    ensures n in t'.status && t'.status[n] == p.table.status[n] && t'.available[n] == p.table.available[n]
  {
    NoteAllLocal(p, names, now, n);
    SyncDropsExactly(p, names, refused, now, t', n);
  }
}
