/** The pool that grows and shrinks the set of workers behind one scheduler.

    Times are integers and calls to the backend are parameters: a listing of worker
    names, and the replies of successive scale-up requests. */
module AutoScaling {
  import opened Basics

  /** Worker names; the empty string stands for "no name" in the backend's replies. */
  type Name = s: string | s != "" witness "w"

  /** The status of a worker the pool knows about. */
  datatype Status =
    | Pending | Running | Idle | Lost | NotifyDeleting | Deleting | Disconnected | NeedsRestart | Unknown

  /** What the backend answers to a scale-up request. */
  datatype Reply = Failed | Unnamed | Named(name: Name)

  /** Workers the pool size counts. */
  predicate Counted(s: Status)
  {
    s.Idle? || s.Running? || s.Pending? || s.Unknown?
  }

  /** Workers without a live connection, which a listing can declare gone. */
  predicate NonActive(s: Status)
  {
    s.Pending? || s.Unknown? || s.Lost? || s.Disconnected?
  }

  function Weight(s: Option<Status>): nat
  {
    if s.Some? && Counted(s.value) then 1 else 0
  }

  // ----- Sums over workers ---------------------------------------------------------

  ghost function Total(m: map<Name, int>): int
    decreases |m.Keys|
  {
    if m.Keys == {} then 0
    else
      var n :| n in m.Keys;
      assert (m - {n}).Keys == m.Keys - {n};
      m[n] + Total(m - {n})
  }

  lemma {:induction false} TotalWithout(m: map<Name, int>, n: Name)
    requires n in m
    ensures Total(m) == m[n] + Total(m - {n})
    decreases |m.Keys|
  {
    var k :| k in m.Keys && Total(m) == m[k] + Total(m - {k});
    if k != n {
      assert (m - {k}).Keys == m.Keys - {k} && (m - {n}).Keys == m.Keys - {n};
      TotalWithout(m - {k}, n);
      TotalWithout(m - {n}, k);
      assert m - {k} - {n} == m - {n} - {k};
    }
  }

  lemma TotalUpdate(m: map<Name, int>, n: Name, x: int)
    ensures Total(m[n := x]) == Total(m - {n}) + x
  {
    TotalWithout(m[n := x], n);
    assert m[n := x] - {n} == m - {n};
  }

  /** What each worker contributes to the idle total: nothing once it was told to stop. */
  function Shares(status: map<Name, Status>, available: map<Name, int>): map<Name, int>
    requires status.Keys == available.Keys
  {
    map n | n in status :: if status[n] == NotifyDeleting then 0 else available[n]
  }

  // ----- The index by status ---------------------------------------------------------

  type Index = map<Status, map<Name, int>>

  /** The workers in status `s`. */
  function Bucket(status: map<Name, Status>, s: Status): set<Name>
  {
    set n | n in status && status[n] == s
  }

  /** An empty bucket for every status. */
  const EmptyIndex: Index := map[
    Pending := map[], Running := map[], Idle := map[], Lost := map[], NotifyDeleting := map[],
    Deleting := map[], Disconnected := map[], NeedsRestart := map[], Unknown := map[]]

  /** Takes `n` out of the bucket of `s`. */
  function Drop(byStatus: Index, s: Status, n: Name): Index
    requires s in byStatus
  {
    byStatus[s := byStatus[s] - {n}]
  }

  /** Puts `n` into the bucket of `s`, stamped with `version`. */
  function Put(byStatus: Index, s: Status, n: Name, version: int): Index
    requires s in byStatus
  {
    var bucket: map<Name, int> := byStatus[s][n := version];
    byStatus[s := bucket]
  }

  /** Moves `n` to the bucket of `s`. */
  function Move(byStatus: Index, was: Option<Status>, n: Name, s: Status, version: int): Index
    requires s in byStatus && (was.Some? ==> was.value in byStatus)
  {
    Put(if was.Some? && was.value != s then Drop(byStatus, was.value, n) else byStatus, s, n, version)
  }

  lemma BucketAfterSet(status: map<Name, Status>, n: Name, s: Status, t: Status)
    ensures Bucket(status[n := s], t) == if t == s then Bucket(status, t) + {n} else Bucket(status, t) - {n}
    ensures |Bucket(status[n := s], t)| ==
            |Bucket(status, t)| + (if t == s then 1 else 0) - (if Get(status, n) == Some(t) then 1 else 0)
  {
    assert Bucket(status[n := s], t) == if t == s then Bucket(status, t) + {n} else Bucket(status, t) - {n};
    assert n in Bucket(status, t) <==> Get(status, n) == Some(t);
  }

  lemma BucketAfterRemove(status: map<Name, Status>, n: Name, t: Status)
    ensures Bucket(status - {n}, t) == Bucket(status, t) - {n}
    ensures |Bucket(status - {n}, t)| == |Bucket(status, t)| - (if Get(status, n) == Some(t) then 1 else 0)
  {
    assert Bucket(status - {n}, t) == Bucket(status, t) - {n};
    assert n in Bucket(status, t) <==> Get(status, n) == Some(t);
  }

  // ----- The worker table --------------------------------------------------------------

  /** The maps and counters the pool keeps about workers. */
  datatype Table = Table(
    byStatus: Index,
    status: map<Name, Status>,
    available: map<Name, int>,
    lastKnown: map<Name, int>,
    idleSlots: int,
    pendingUnknown: nat,
    version: int)

  /** The bucket of `s` holds exactly the workers in that status, and no stamp is newer
      than the current sync version. */
  ghost predicate BucketOk(t: Table, s: Status)
  {
    && s in t.byStatus
    && t.byStatus[s].Keys == Bucket(t.status, s)
    && forall n :: n in t.byStatus[s] ==> t.byStatus[s][n] <= t.version
  }

  /** Every worker is in the bucket its status names, in no other, and has a record. */
  ghost predicate Indexed(t: Table)
  {
    t.available.Keys == t.status.Keys && forall s :: BucketOk(t, s)
  }

  lemma EmptyIndexed()
    ensures Indexed(Table(EmptyIndex, map[], map[], map[], 0, 0, 0))
  {
    var t := Table(EmptyIndex, map[], map[], map[], 0, 0, 0);
    forall s: Status ensures BucketOk(t, s) {
      match s {
        case Pending => case Running => case Idle => case Lost => case NotifyDeleting =>
        case Deleting => case Disconnected => case NeedsRestart => case Unknown =>
      }
      assert s in EmptyIndex && EmptyIndex[s] == map[];
    }
  }

  lemma EmptyTable() returns (t: Table)
    ensures Indexed(t) && t.status == map[] && t.available == map[] && t.lastKnown == map[]
    ensures t.idleSlots == 0 && t.pendingUnknown == 0
    ensures Total(Shares(t.status, t.available)) == 0
  {
    t := Table(EmptyIndex, map[], map[], map[], 0, 0, 0);
    EmptyIndexed();
    assert Shares(t.status, t.available) == map[];
  }

  /** Pool size: the counted workers and those requested without a name. */
  function SizeOf(t: Table): nat
  {
    |Bucket(t.status, Idle)| + |Bucket(t.status, Running)| + |Bucket(t.status, Pending)| + |Bucket(t.status, Unknown)|
    + t.pendingUnknown
  }

  /** How far the incrementally kept total is from the sum over all workers. */
  ghost function Drift(t: Table, slots: int): int
    requires Indexed(t)
  {
    t.idleSlots - Total(Shares(t.status, t.available)) - t.pendingUnknown * slots
  }

  function Share(s: Option<Status>, available: int): int
  {
    if s.None? || s.value == NotifyDeleting then 0 else available
  }

  ghost function SetStatus(t: Table, n: Name, s: Status, newSlots: int): Table
    requires Indexed(t)
  {
    assert forall u :: BucketOk(t, u) ==> u in t.byStatus;
    var was := Get(t.status, n);
    var held := if was.Some? then t.available[n] else 0;
    var slots := if newSlots < 0 then held else newSlots;
    t.(byStatus := Move(t.byStatus, was, n, s, t.version),
       status := t.status[n := s],
       available := t.available[n := slots],
       lastKnown := if was.Some? && was.value != s && (was.value.Unknown? || was.value.Pending? || was.value.Lost?)
                    then t.lastKnown - {n} else t.lastKnown,
       idleSlots := t.idleSlots + Share(Some(s), slots) - Share(was, held))
  }

  lemma MoveAt(byStatus: Index, was: Option<Status>, n: Name, s: Status, version: int, u: Status)
    requires s in byStatus && u in byStatus && (was.Some? ==> was.value in byStatus)
    ensures var after := Move(byStatus, was, n, s, version);
      && u in after
      && after[u] == if u == s then byStatus[u][n := version] else if was == Some(u) then byStatus[u] - {n}
          else byStatus[u]
  {
  }

  /** Moving a worker keeps one bucket equal to the workers in its status. */
  lemma MoveKeeps(byStatus: Index, status: map<Name, Status>, n: Name, s: Status, version: int, u: Status)
    requires s in byStatus && u in byStatus && (n in status ==> status[n] in byStatus)
    requires byStatus[u].Keys == Bucket(status, u) && forall k :: k in byStatus[u] ==> byStatus[u][k] <= version
    ensures var after := Move(byStatus, Get(status, n), n, s, version);
      && u in after && after[u].Keys == Bucket(status[n := s], u)
      && forall k :: k in after[u] ==> after[u][k] <= version
  {
    MoveAt(byStatus, Get(status, n), n, s, version, u);
    BucketAfterSet(status, n, s, u);
    if u != s && Get(status, n) != Some(u) {
      assert n !in Bucket(status, u);
    }
  }

  lemma SetStatusIndexes(t: Table, n: Name, s: Status, newSlots: int)
    requires Indexed(t)
    ensures Indexed(SetStatus(t, n, s, newSlots))
  {
    var t' := SetStatus(t, n, s, newSlots);
    forall u ensures BucketOk(t', u) {
      assert BucketOk(t, u) && BucketOk(t, s) && (n in t.status ==> BucketOk(t, t.status[n]));
      MoveKeeps(t.byStatus, t.status, n, s, t.version, u);
    }
  }

  lemma SetStatusCounts(t: Table, n: Name, s: Status, newSlots: int)
    requires Indexed(t)
    ensures SizeOf(SetStatus(t, n, s, newSlots)) == SizeOf(t) + Weight(Some(s)) - Weight(Get(t.status, n))
  {
    BucketAfterSet(t.status, n, s, Idle);
    BucketAfterSet(t.status, n, s, Running);
    BucketAfterSet(t.status, n, s, Pending);
    BucketAfterSet(t.status, n, s, Unknown);
  }

  lemma SetStatusDrift(t: Table, n: Name, s: Status, newSlots: int, slots: int)
    requires Indexed(t) && Indexed(SetStatus(t, n, s, newSlots))
    ensures Drift(SetStatus(t, n, s, newSlots), slots) == Drift(t, slots)
  {
    var t' := SetStatus(t, n, s, newSlots);
    var shares, shares' := Shares(t.status, t.available), Shares(t'.status, t'.available);
    var share := Share(Some(s), t'.available[n]);
    assert shares' == shares[n := share];
    TotalUpdate(shares, n, share);
    if n in t.status {
      TotalWithout(shares, n);
    } else {
      assert shares - {n} == shares;
    }
  }

  /** A status change keeps the index and moves the total exactly as the sum moves. */
  lemma SetStatusKeeps(t: Table, n: Name, s: Status, newSlots: int, slots: int)
    requires Indexed(t)
    ensures Indexed(SetStatus(t, n, s, newSlots))
    ensures Drift(SetStatus(t, n, s, newSlots), slots) == Drift(t, slots)
    ensures SizeOf(SetStatus(t, n, s, newSlots)) == SizeOf(t) + Weight(Some(s)) - Weight(Get(t.status, n))
  {
    SetStatusIndexes(t, n, s, newSlots);
    SetStatusCounts(t, n, s, newSlots);
    SetStatusDrift(t, n, s, newSlots, slots);
  }

  ghost function RemoveWorker(t: Table, n: Name): Table
    requires Indexed(t)
  {
    var was := Get(t.status, n);
    assert was.Some? ==> BucketOk(t, was.value);
    t.(byStatus := if was.Some? then Drop(t.byStatus, was.value, n) else t.byStatus,
       status := t.status - {n},
       available := t.available - {n},
       lastKnown := t.lastKnown - {n},
       idleSlots := t.idleSlots - (if was.Some? then t.available[n] else 0))
  }

  lemma RemoveWorkerIndexes(t: Table, n: Name)
    requires Indexed(t)
    ensures Indexed(RemoveWorker(t, n))
  {
    var t' := RemoveWorker(t, n);
    assert t'.available.Keys == t'.status.Keys;
    forall u ensures BucketOk(t', u) {
      assert BucketOk(t, u);
      BucketAfterRemove(t.status, n, u);
    }
  }

  lemma RemoveWorkerCounts(t: Table, n: Name)
    requires Indexed(t)
    ensures SizeOf(RemoveWorker(t, n)) == SizeOf(t) - Weight(Get(t.status, n))
  {
    BucketAfterRemove(t.status, n, Idle);
    BucketAfterRemove(t.status, n, Running);
    BucketAfterRemove(t.status, n, Pending);
    BucketAfterRemove(t.status, n, Unknown);
  }

  /** Removing a worker keeps the total right unless the worker was told to stop while
      it still held slots: those were already taken off the total. */
  lemma RemoveWorkerDrifts(t: Table, n: Name, slots: int)
    requires Indexed(t)
    ensures Indexed(RemoveWorker(t, n))
    ensures Drift(RemoveWorker(t, n), slots) ==
            Drift(t, slots) - (if Get(t.status, n) == Some(NotifyDeleting) then t.available[n] else 0)
    ensures SizeOf(RemoveWorker(t, n)) == SizeOf(t) - Weight(Get(t.status, n))
  {
    RemoveWorkerIndexes(t, n);
    RemoveWorkerCounts(t, n);
    var t' := RemoveWorker(t, n);
    var shares := Shares(t.status, t.available);
    assert Shares(t'.status, t'.available) == shares - {n};
    if n in t.status {
      TotalWithout(shares, n);
    } else {
      assert shares - {n} == shares;
    }
  }

  /** An idle worker is told to stop and is then removed: its slots go off the total twice. */
  lemma StoppedThenRemoved(t: Table, n: Name, slots: int)
    requires Indexed(t) && n in t.status && t.status[n] == Idle
    ensures var t1 := SetStatus(t, n, NotifyDeleting, -1);
      Indexed(t1) && Indexed(RemoveWorker(t1, n)) && Drift(RemoveWorker(t1, n), slots) ==
        Drift(t, slots) - t.available[n]
  {
    SetStatusKeeps(t, n, NotifyDeleting, -1, slots);
    RemoveWorkerDrifts(SetStatus(t, n, NotifyDeleting, -1), n, slots);
  }

  /** A listed worker gets the current version as its stamp. */
  ghost function Stamp(t: Table, n: Name): Table
    requires Indexed(t) && n in t.status
  {
    assert BucketOk(t, t.status[n]);
    t.(byStatus := Put(t.byStatus, t.status[n], n, t.version))
  }

  lemma StampKeeps(t: Table, n: Name, slots: int)
    requires Indexed(t) && n in t.status
    ensures Indexed(Stamp(t, n)) && Drift(Stamp(t, n), slots) == Drift(t, slots) && SizeOf(Stamp(t, n)) == SizeOf(t)
  {
    var t' := Stamp(t, n);
    forall u ensures BucketOk(t', u) {
      assert BucketOk(t, u) && n in Bucket(t.status, t.status[n]);
    }
  }
}
