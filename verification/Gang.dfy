/** A gang of sessions that are started together, once all of them are ready.

    Callbacks are numbers; what is called is the map from members to callbacks. */
module Gang {
  import opened Basics

  datatype Member = Member(id: int)

  /** The member the tracker adds to clean up after the gang has fired. */
  const TRACKER := Member(-1)

  datatype Op = Notify(id: Member, callback: nat) | Unnotify(id: Member)

  type Calls = map<Member, nat>

  datatype State = State(notif: Calls, triggered: bool)

  const Fresh := State(map[], false)

  function Step(desired: int, st: State, op: Op): State
  {
    match op
    case Notify(id, f) =>
      var notif := st.notif[id := f];
      State(notif, st.triggered || |notif| == desired)
    case Unnotify(id) => if st.triggered then st.(notif := st.notif - {id}) else st
  }

  /** The callbacks an operation runs; none if it does not trigger the gang. */
  function Called(desired: int, st: State, op: Op): Calls
  {
    if op.Notify? && |st.notif[op.id := op.callback]| == desired && !st.triggered
    then st.notif[op.id := op.callback] else map[]
  }

  /** Runs the callbacks of all members, in any order. */
  method CallAll(notif: Calls) returns (called: Calls)
    ensures called == notif
  {
    called := map[];
    var todo := notif.Keys;
    while todo != {}
      invariant todo <= notif.Keys && called.Keys == notif.Keys - todo
      invariant forall k :: k in called ==> called[k] == notif[k]
      decreases todo
    {
      var k :| k in todo;
      called := called[k := notif[k]];
      todo := todo - {k};
    }
  }

  class GangCoordinator {
    const desired: int
    var notif: Calls
    var triggered: bool

    ghost function View(): State
      reads this
    {
      State(notif, triggered)
    }

    constructor (n: int)
      ensures desired == n && View() == Fresh
    {
      desired, notif, triggered := n, map[], false;
    }

    method Notify(id: Member, callback: nat) returns (called: Calls)
      modifies this
      ensures View() == Step(desired, old(View()), Op.Notify(id, callback))
      ensures called == Called(desired, old(View()), Op.Notify(id, callback))
    {
      called := map[];
      notif := notif[id := callback];
      if |notif| == desired && !triggered {
        called := CallAll(notif);
        triggered := true;
      }
    }

    method Unnotify(id: Member) returns (was: bool)
      modifies this
      ensures View() == Step(desired, old(View()), Op.Unnotify(id)) && was == old(triggered)
    {
      if !triggered {
        return false;
      }
      notif := notif - {id};
      return true;
    }
  }

  // ----- Runs ------------------------------------------------------------------------------

  function Exec(desired: int, ops: seq<Op>): State
  {
    if ops == [] then Fresh else Step(desired, Exec(desired, ops[..|ops| - 1]), ops[|ops| - 1])
  }

  /** The latest callback of every member that ever registered. */
  function Latest(ops: seq<Op>): Calls
  {
    if ops == [] then map[]
    else
      var m, op := Latest(ops[..|ops| - 1]), ops[|ops| - 1];
      if op.Notify? then m[op.id := op.callback] else m
  }

  /** An untriggered gang has registered exactly its members so far, fewer than it wants; so
      testing for equality is enough. */
  lemma {:induction false} RunState(desired: int, ops: seq<Op>)
    requires desired >= 1
    ensures var st := Exec(desired, ops);
      && (st.triggered <==> |Latest(ops)| >= desired)
      && (!st.triggered ==> st.notif == Latest(ops))
    decreases |ops|
  {
    if ops != [] {
      var n := |ops| - 1;
      RunState(desired, ops[..n]);
      if ops[n].Notify? {
        GrowsByAtMostOne(Latest(ops[..n]), ops[n].id, ops[n].callback);
      }
    }
  }

  lemma GrowsByAtMostOne(m: Calls, id: Member, f: nat)
    ensures |m| <= |m[id := f]| <= |m| + 1 && (|m[id := f]| == |m| + 1 <==> id !in m)
  {
    if id in m {
      assert m[id := f].Keys == m.Keys;
    } else {
      assert m[id := f].Keys == m.Keys + {id};
    }
  }

  /** An operation triggers the gang exactly when it registers the member that completes
      it, and then runs every member's latest callback. */
  lemma FiresWhenComplete(desired: int, ops: seq<Op>, op: Op)
    requires desired >= 1
    ensures Called(desired, Exec(desired, ops), op) ==
      if |Latest(ops)| < desired <= |Latest(ops + [op])| then Latest(ops + [op]) else map[]
    ensures |Latest(ops)| < desired <= |Latest(ops + [op])| ==>
      op.Notify? && op.id !in Latest(ops) && |Latest(ops + [op])| == desired
  {
    RunState(desired, ops);
    assert (ops + [op])[..|ops|] == ops;
    if op.Notify? {
      GrowsByAtMostOne(Latest(ops), op.id, op.callback);
    }
  }

  /** The callback held for `id` after `ops`: the one last registered, unless the member
      withdrew after the gang was complete. */
  function HeldFor(desired: int, ops: seq<Op>, id: Member): Option<nat>
  {
    if ops == [] then None
    else
      var front, op := ops[..|ops| - 1], ops[|ops| - 1];
      if op.id != id then HeldFor(desired, front, id)
      else if op.Notify? then Some(op.callback)
      else if |Latest(front)| >= desired then None
      else HeldFor(desired, front, id)
  }

  /** A withdrawal is ignored until the gang has fired, and then forgets exactly its member. */
  lemma {:induction false} HoldsLatest(desired: int, ops: seq<Op>, id: Member)
    requires desired >= 1
    ensures Get(Exec(desired, ops).notif, id) == HeldFor(desired, ops, id)
    decreases |ops|
  {
    if ops != [] {
      HoldsLatest(desired, ops[..|ops| - 1], id);
      RunState(desired, ops[..|ops| - 1]);
    }
  }

  lemma {:induction false} MembersGrow(a: seq<Op>, b: seq<Op>)
    ensures |Latest(a)| <= |Latest(a + b)|
    decreases |b|
  {
    if b == [] {
      assert a + b == a;
    } else {
      var n := |b| - 1;
      MembersGrow(a, b[..n]);
      assert (a + b)[..|a + b| - 1] == a + b[..n];
      if b[n].Notify? {
        GrowsByAtMostOne(Latest(a + b[..n]), b[n].id, b[n].callback);
      }
    }
  }

  /** A gang fires at most once. */
  lemma FiresOnce(desired: int, a: seq<Op>, op: Op, b: seq<Op>, op': Op)
    requires desired >= 1 && Called(desired, Exec(desired, a), op) != map[]
    ensures Called(desired, Exec(desired, a + [op] + b), op') == map[]
  {
    FiresWhenComplete(desired, a, op);
    MembersGrow(a + [op], b);
    FiresWhenComplete(desired, a + [op] + b, op');
  }

  /** A gang that wants no member at all never fires. */
  lemma EmptyGangNeverFires(desired: int, st: State, op: Op)
    requires desired <= 0
    ensures Called(desired, st, op) == map[]
  {
    if op.Notify? {
      assert op.id in st.notif[op.id := op.callback];
    }
  }

  /** The tracker adds a member of its own first: its gang of `size` sessions fires exactly
      when the `size`-th session registers, and then also runs the tracker's clean-up. */
  lemma TrackedGangFires(size: nat, cleanup: nat, ops: seq<Op>, op: Op)
    requires forall i :: 0 <= i < |ops| ==> ops[i].id != TRACKER
    requires op.id != TRACKER
    ensures var first := [Notify(TRACKER, cleanup)];
      var fired := Called(size + 1, Exec(size + 1, first + ops), op);
      && (fired != map[] <==> |Latest(ops)| < size == |Latest(ops + [op])|)
      && (fired != map[] ==> fired == Latest(ops + [op])[TRACKER := cleanup])
  {
    var first := [Notify(TRACKER, cleanup)];
    FiresWhenComplete(size + 1, first + ops, op);
    Associate(first, ops, [op]);
    WithCleanup(cleanup, ops);
    WithCleanup(cleanup, ops + [op]);
    LatestGrows(ops, op);
    var all := Latest(first + (ops + [op]));
    assert TRACKER in all && all != map[];
  }

  lemma LatestGrows(ops: seq<Op>, op: Op)
    ensures |Latest(ops)| <= |Latest(ops + [op])| <= |Latest(ops)| + 1
  {
    assert (ops + [op])[..|ops|] == ops;
    if op.Notify? {
      GrowsByAtMostOne(Latest(ops), op.id, op.callback);
    }
  }

  lemma {:induction false} WithCleanup(cleanup: nat, ops: seq<Op>)
    requires forall i :: 0 <= i < |ops| ==> ops[i].id != TRACKER
    ensures Latest([Notify(TRACKER, cleanup)] + ops) == Latest(ops)[TRACKER := cleanup] && TRACKER !in Latest(ops)
    ensures |Latest([Notify(TRACKER, cleanup)] + ops)| == |Latest(ops)| + 1
    decreases |ops|
  {
    var first := [Notify(TRACKER, cleanup)];
    if ops == [] {
      assert first + ops == first && first[..0] == [];
    } else {
      var n := |ops| - 1;
      WithCleanup(cleanup, ops[..n]);
      assert (first + ops)[..|first + ops| - 1] == first + ops[..n];
    }
    GrowsByAtMostOne(Latest(ops), TRACKER, cleanup);
  }
}
