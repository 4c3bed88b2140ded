/** When the grow loop of a pass ends. The backend is an arbitrary endless stream of replies;
    a request may fail, which ends the loop. */
module GrowLoop {
  import opened Basics
  import opened AutoScaling
  import opened PoolMaintenance

  /** The loop is about to ask the backend for a worker. */
  predicate Asks(p: Pool, now: int)
  {
    GrowWanted(p) && !Blocked(p, now)
  }

  /** The loop uses up `replies` and is about to ask again. */
  ghost predicate AsksAfter(p: Pool, replies: seq<Reply>, now: int)
    requires Sound(p)
    decreases |replies|
  {
    && Asks(p, now)
    && (replies != [] ==>
          && !replies[0].Failed? && Sound(GrowOnce(p, replies[0], now))
          && AsksAfter(GrowOnce(p, replies[0], now), replies[1..], now))
  }

  /** The pool after `replies`. */
  ghost function After(p: Pool, replies: seq<Reply>, now: int): (q: Pool)
    requires Sound(p) && AsksAfter(p, replies, now)
    ensures Sound(q) && Asks(q, now)
    decreases |replies|
  {
    if replies == [] then p else After(GrowOnce(p, replies[0], now), replies[1..], now)
  }

  // ----- What the loop looks at -----------------------------------------------------------

  lemma LoopStep(p: Pool, replies: seq<Reply>, now: int)
    requires Sound(p) && Asks(p, now) && replies != [] && !replies[0].Failed?
    ensures Sound(GrowOnce(p, replies[0], now))
    ensures GrowAll(p, replies, now) == GrowAll(GrowOnce(p, replies[0], now), replies[1..], now)
  {
    GrowsByOne(p, replies[0], now);
  }

  lemma {:induction false} LoopContinues(p: Pool, replies: seq<Reply>, more: seq<Reply>, now: int)
    requires Sound(p) && AsksAfter(p, replies, now)
    ensures GrowAll(p, replies + more, now) == GrowAll(After(p, replies, now), more, now)
    decreases |replies|
  {
    if replies == [] {
      assert replies + more == more;
    } else {
      LoopStep(p, replies + more, now);
      assert (replies + more)[1..] == replies[1..] + more;
      LoopContinues(GrowOnce(p, replies[0], now), replies[1..], more, now);
    }
  }

  lemma {:induction false} LoopEnded(p: Pool, replies: seq<Reply>, more: seq<Reply>, now: int)
    requires Sound(p) && !AsksAfter(p, replies, now)
    ensures GrowAll(p, replies + more, now) == GrowAll(p, replies, now)
    decreases |replies|
  {
    if Asks(p, now) && !replies[0].Failed? {
      LoopStep(p, replies, now);
      LoopStep(p, replies + more, now);
      assert (replies + more)[1..] == replies[1..] + more;
      LoopEnded(GrowOnce(p, replies[0], now), replies[1..], more, now);
    }
  }

  lemma AnswerMatters(q: Pool, now: int)
    requires Sound(q) && Asks(q, now)
    ensures GrowAll(q, [Unnamed], now) != GrowAll(q, [], now)
  {
    GrowsByOne(q, Unnamed, now);
    var q1 := GrowOnce(q, Unnamed, now);
    assert GrowAll(q, [Unnamed], now) == GrowAll(q1, [], now);
    assert GrowAll(q1, [], now).table == q1.table && q1.table.pendingUnknown == q.table.pendingUnknown + 1;
  }

  /** The loop has ended after `replies` if and only if no further reply makes a difference. */
  lemma EndedIff(p: Pool, replies: seq<Reply>, now: int)
    requires Sound(p)
    ensures !AsksAfter(p, replies, now) <==>
            forall more :: GrowAll(p, replies + more, now) == GrowAll(p, replies, now)
  {
    if AsksAfter(p, replies, now) {
      LoopContinues(p, replies, [Unnamed], now);
      LoopContinues(p, replies, [], now);
      assert replies + [] == replies;
      AnswerMatters(After(p, replies, now), now);
    } else {
      forall more ensures GrowAll(p, replies + more, now) == GrowAll(p, replies, now) {
        LoopEnded(p, replies, more, now);
      }
    }
  }

  // ----- Replies that change nothing --------------------------------------------------------

  /** The reply names a worker that is already pending with the default slots. */
  predicate Repeats(t: Table, slots: int, reply: Reply)
  {
    reply.Named? && Get(t.status, reply.name) == Some(Pending) && Get(t.available, reply.name) == Some(slots)
  }

  /** The two tables agree on everything the loop looks at. */
  predicate Alike(t: Table, t': Table)
  {
    && t'.status == t.status && t'.available == t.available
    && t'.idleSlots == t.idleSlots && t'.pendingUnknown == t.pendingUnknown
  }

  /** Such a reply leaves the loop where it was. */
  lemma RepeatChangesNothing(p: Pool, reply: Reply, now: int)
    requires Sound(p) && Repeats(p.table, p.cfg.slots, reply)
    ensures var p1 := GrowOnce(p, reply, now);
      Sound(p1) && Alike(p.table, p1.table) && p1.cfg == p.cfg && Asks(p1, now) == Asks(p, now)
  {
    GrowsByOne(p, reply, now);
  }

  // ----- Replies that make progress -----------------------------------------------------------

  /** Workers in service that a further reply could still turn into pending ones with the
      default slots. */
  function Others(t: Table, slots: int): set<Name>
  {
    set n | n in t.status && Counted(t.status[n]) && !Repeats(t, slots, Named(n))
  }

  /** How many replies can still make progress. */
  function Room(p: Pool): nat
  {
    Max(0, p.cfg.maxSize - SizeOf(p.table)) + |Others(p.table, p.cfg.slots)|
  }

  lemma RepeatLeavesRoom(p: Pool, reply: Reply, now: int)
    requires Sound(p) && Repeats(p.table, p.cfg.slots, reply)
    ensures Sound(GrowOnce(p, reply, now)) && Room(GrowOnce(p, reply, now)) == Room(p)
  {
    RepeatChangesNothing(p, reply, now);
    assert Others(GrowOnce(p, reply, now).table, p.cfg.slots) == Others(p.table, p.cfg.slots);
  }

  lemma OthersAfterName(t: Table, slots: int, n: Name, now: int)
    requires Indexed(t) && slots >= 0
    ensures Others(GrowTable(t, slots, Named(n), now), slots) == Others(t, slots) - {n}
  {
  }

  /** A reply that names a worker takes up room in the pool or turns a worker in service into
      a pending one, unless it repeats. */
  lemma NameTakesRoom(t: Table, slots: int, n: Name, now: int)
    requires Indexed(t) && slots >= 0 && !Repeats(t, slots, Named(n))
    ensures var t' := GrowTable(t, slots, Named(n), now);
      SizeOf(t') - |Others(t', slots)| == SizeOf(t) - |Others(t, slots)| + 1 && SizeOf(t') >= SizeOf(t)
  {
    OthersAfterName(t, slots, n, now);
    assert n in Others(t, slots) <==> IsCounted(t.status, n);
    GrowTableKeeps(t, slots, Named(n), now);
  }

  /** Every other reply leaves less room. */
  lemma MakesProgress(p: Pool, reply: Reply, now: int)
    requires Sound(p) && Asks(p, now) && !reply.Failed? && !Repeats(p.table, p.cfg.slots, reply)
    ensures Sound(GrowOnce(p, reply, now)) && Room(GrowOnce(p, reply, now)) < Room(p)
  {
    GrowsByOne(p, reply, now);
    match reply
    case Unnamed =>
      GrowTableKeeps(p.table, p.cfg.slots, Unnamed, now);
      assert Others(GrowOnce(p, reply, now).table, p.cfg.slots) == Others(p.table, p.cfg.slots);
    case Named(n) => NameTakesRoom(p.table, p.cfg.slots, n, now);
  }

  /** How many of `replies` did more than repeat a pending worker. */
  ghost function Progress(p: Pool, replies: seq<Reply>, now: int): nat
    requires Sound(p) && AsksAfter(p, replies, now)
    decreases |replies|
  {
    if replies == [] then 0
    else
      (if Repeats(p.table, p.cfg.slots, replies[0]) then 0 else 1)
      + Progress(GrowOnce(p, replies[0], now), replies[1..], now)
  }

  /** However long the loop runs, only as many replies as there was room for do more than
      repeat a pending worker. */
  lemma {:induction false} ProgressIsBounded(p: Pool, replies: seq<Reply>, now: int)
    requires Sound(p) && AsksAfter(p, replies, now)
    ensures Progress(p, replies, now) + Room(After(p, replies, now)) <= Room(p)
    decreases |replies|
  {
    if replies != [] {
      if Repeats(p.table, p.cfg.slots, replies[0]) {
        RepeatLeavesRoom(p, replies[0], now);
      } else {
        MakesProgress(p, replies[0], now);
      }
      ProgressIsBounded(GrowOnce(p, replies[0], now), replies[1..], now);
    }
  }

  // ----- Endless backends -----------------------------------------------------------------------

  type Backend = nat -> Reply

  function Rest(s: Backend, n: nat): Backend
  {
    (i: nat) => s(n + i)
  }

  function First(s: Backend, n: nat): seq<Reply>
  {
    seq(n, i requires 0 <= i < n => s(i))
  }

  /** The loop never stops asking. */
  ghost predicate NeverEnds(p: Pool, s: Backend, now: int)
    requires Sound(p)
  {
    forall n: nat :: AsksAfter(p, First(s, n), now)
  }

  /** All replies name workers that are pending with the default slots now. */
  ghost predicate OnlyRepeats(t: Table, slots: int, s: Backend)
  {
    forall i: nat :: Repeats(t, slots, s(i))
  }

  /** After `n` replies the loop still asks and from then on only hears of workers that are
      pending with the default slots. */
  ghost predicate CaughtAfter(p: Pool, s: Backend, n: nat, now: int)
    requires Sound(p)
  {
    AsksAfter(p, First(s, n), now) && OnlyRepeats(After(p, First(s, n), now).table, p.cfg.slots, Rest(s, n))
  }

  lemma FirstSplits(s: Backend, n: nat)
    ensures First(s, n + 1) == [s(0)] + First(Rest(s, 1), n) && First(s, n + 1)[1..] == First(Rest(s, 1), n)
  {
  }

  /** One step of the loop. */
  lemma AsksOnce(p: Pool, s: Backend, n: nat, now: int)
    requires Sound(p) && Asks(p, now) && !s(0).Failed? && Sound(GrowOnce(p, s(0), now))
    ensures var p1 := GrowOnce(p, s(0), now);
      && AsksAfter(p, First(s, n + 1), now) == AsksAfter(p1, First(Rest(s, 1), n), now)
      && (AsksAfter(p, First(s, n + 1), now) ==>
            After(p, First(s, n + 1), now) == After(p1, First(Rest(s, 1), n), now))
  {
    FirstSplits(s, n);
  }

  lemma RestOfRest(s: Backend, n: nat, t: Table, slots: int)
    ensures OnlyRepeats(t, slots, Rest(s, n + 1)) == OnlyRepeats(t, slots, Rest(Rest(s, 1), n))
  {
    var s1, s2 := Rest(s, n + 1), Rest(Rest(s, 1), n);
    forall i: nat ensures Repeats(t, slots, s1(i)) == Repeats(t, slots, s2(i)) {
      assert s1(i) == s2(i);
    }
  }

  lemma NeverEndsStep(p: Pool, s: Backend, now: int)
    requires Sound(p) && NeverEnds(p, s, now)
    ensures Asks(p, now) && !s(0).Failed? && Sound(GrowOnce(p, s(0), now))
    ensures NeverEnds(GrowOnce(p, s(0), now), Rest(s, 1), now)
  {
    assert AsksAfter(p, First(s, 1), now);
    forall n: nat ensures AsksAfter(GrowOnce(p, s(0), now), First(Rest(s, 1), n), now) {
      AsksOnce(p, s, n, now);
    }
  }

  lemma CaughtStep(p: Pool, s: Backend, n: nat, now: int)
    requires Sound(p) && Asks(p, now) && !s(0).Failed? && Sound(GrowOnce(p, s(0), now))
    ensures CaughtAfter(p, s, n + 1, now) == CaughtAfter(GrowOnce(p, s(0), now), Rest(s, 1), n, now)
  {
    AsksOnce(p, s, n, now);
    if AsksAfter(p, First(s, n + 1), now) {
      RestOfRest(s, n, After(p, First(s, n + 1), now).table, p.cfg.slots);
    }
  }

  /** The loop does not end, so after some reply the backend only repeats pending workers. */
  lemma {:induction false} NeverEndingIsCaught(p: Pool, s: Backend, now: int) returns (n: nat)
    requires Sound(p) && NeverEnds(p, s, now)
    ensures CaughtAfter(p, s, n, now)
    decreases Room(p)
  {
    if i: nat :| !Repeats(p.table, p.cfg.slots, s(i)) {
      n := CaughtFrom(p, s, i, now);
    } else {
      assert AsksAfter(p, First(s, 0), now) && First(s, 0) == [];
      assert OnlyRepeats(p.table, p.cfg.slots, Rest(s, 0));
      n := 0;
    }
  }

  /** The same, if reply `i` makes progress. */
  lemma {:induction false} CaughtFrom(p: Pool, s: Backend, i: nat, now: int) returns (n: nat)
    requires Sound(p) && NeverEnds(p, s, now) && !Repeats(p.table, p.cfg.slots, s(i))
    ensures CaughtAfter(p, s, n, now)
    decreases Room(p), i
  {
    NeverEndsStep(p, s, now);
    var p1 := GrowOnce(p, s(0), now);
    if Repeats(p.table, p.cfg.slots, s(0)) {
      RepeatLeavesRoom(p, s(0), now);
      RepeatChangesNothing(p, s(0), now);
      n := CaughtFrom(p1, Rest(s, 1), i - 1, now);
    } else {
      MakesProgress(p, s(0), now);
      n := NeverEndingIsCaught(p1, Rest(s, 1), now);
    }
    CaughtStep(p, s, n, now);
    n := n + 1;
  }

  lemma {:induction false} RepeatsKeepAsking(p: Pool, s: Backend, k: nat, now: int)
    requires Sound(p) && Asks(p, now) && OnlyRepeats(p.table, p.cfg.slots, s)
    ensures AsksAfter(p, First(s, k), now)
    decreases k
  {
    if k > 0 {
      RepeatChangesNothing(p, s(0), now);
      var p1 := GrowOnce(p, s(0), now);
      assert OnlyRepeats(p1.table, p1.cfg.slots, Rest(s, 1));
      RepeatsKeepAsking(p1, Rest(s, 1), k - 1, now);
      AsksOnce(p, s, k - 1, now);
    }
  }

  lemma {:induction false} CaughtNeverEnds(p: Pool, s: Backend, n: nat, k: nat, now: int)
    requires Sound(p) && CaughtAfter(p, s, n, now)
    ensures AsksAfter(p, First(s, k), now)
    decreases n
  {
    if n == 0 {
      assert First(s, 0) == [];
      assert OnlyRepeats(p.table, p.cfg.slots, s) by {
        forall i: nat ensures Repeats(p.table, p.cfg.slots, s(i)) {
          assert Rest(s, 0)(i) == s(i);
        }
      }
      RepeatsKeepAsking(p, s, k, now);
    } else if k > 0 {
      FirstSplits(s, n - 1);
      CaughtStep(p, s, n - 1, now);
      CaughtNeverEnds(GrowOnce(p, s(0), now), Rest(s, 1), n - 1, k - 1, now);
      AsksOnce(p, s, k - 1, now);
    }
  }

  /** Exactly when the loop does not end: for every backend, it asks for ever if and only if
      after some number of replies it still asks and every later reply names a worker that
      is by then pending with the default slots. */
  lemma NeverEndsIff(p: Pool, s: Backend, now: int)
    requires Sound(p)
    ensures NeverEnds(p, s, now) <==> exists n: nat :: CaughtAfter(p, s, n, now)
  {
    if NeverEnds(p, s, now) {
      var n := NeverEndingIsCaught(p, s, now);
    }
    if n: nat :| CaughtAfter(p, s, n, now) {
      forall k: nat ensures AsksAfter(p, First(s, k), now) {
        CaughtNeverEnds(p, s, n, k, now);
      }
    }
  }

  // ----- Two cases ------------------------------------------------------------------------------

  /** The grow loop ends: with a backend that names new workers it makes at most as many
      requests as the limit leaves room for, and looks at no further reply. */
  lemma {:induction false} GrowIsBounded(p: Pool, replies: seq<Reply>, more: seq<Reply>, now: int)
    requires Sound(p) && Fresh(p.table.status, replies) && |replies| >= p.cfg.maxSize - SizeOf(p.table)
    ensures GrowAll(p, replies + more, now) == GrowAll(p, replies, now)
    decreases |replies|
  {
    if GrowWanted(p) && !Blocked(p, now) && !replies[0].Failed? {
      var p1 := GrowOnce(p, replies[0], now);
      FreshAfterOne(p, replies, now);
      GrowsByOne(p, replies[0], now);
      GrowTableKeeps(p.table, p.cfg.slots, replies[0], now);
      assert (replies + more)[1..] == replies[1..] + more;
      GrowIsBounded(p1, replies[1..], more, now);
    }
  }

  /** With a backend that keeps naming one pending worker it never ends: after any number of
      such replies it still wants to ask. */
  lemma {:induction false} NamesakeNeverEnds(p: Pool, w: Name, k: nat, rest: seq<Reply>, now: int) returns (q: Pool)
    requires Sound(p) && Asks(p, now)
    requires Repeats(p.table, p.cfg.slots, Named(w))
    ensures Sound(q) && Asks(q, now)
    ensures GrowAll(p, seq(k, i => Named(w)) + rest, now) == GrowAll(q, rest, now)
    decreases k
  {
    var replies := seq(k, i => Named(w));
    if k == 0 {
      assert replies + rest == rest;
      return p;
    }
    var p1 := GrowOnce(p, Named(w), now);
    RepeatChangesNothing(p, Named(w), now);
    assert (replies + rest)[1..] == seq(k - 1, i => Named(w)) + rest;
    q := NamesakeNeverEnds(p1, w, k - 1, rest, now);
  }
}
