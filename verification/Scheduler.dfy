/** The scheduler's loop taken by itself, for every order in which messages reach it.

    The handler of one select branch and the match at the top of the loop are methods
    of the class; a run of the loop is related to the trace of the messages it sends. */
module Scheduling {
  import opened Basics
  import opened Jobs

  type AgentId = string

  /** The message a select branch received. */
  datatype Event =
    | AgentAdded(a: AgentId)
    | AgentRemoved(a: AgentId)
    | SessionAdded(j: Job)
    | SessionRemoved(j: Job)
    | ContextDone

  /** A message the scheduler sends. */
  datatype Message =
    | Assigned(j: Job, a: AgentId)
    | AgentConfirmed(a: AgentId)
    | SessionConfirmed(j: Job)

  /** The loop's variables; the ordered session set is kept in ascending order. */
  datatype Loop = Loop(agents: set<AgentId>, sessions: seq<Job>, shuttingDown: bool)

  // ----- The ordered set of sessions ---------------------------------------------

  predicate Ascending(s: seq<Job>)
  {
    forall i, k :: 0 <= i < k < |s| ==> Compare(s[i], s[k]) < 0
  }

  function Elements(s: seq<Job>): set<Job>
  {
    set j | j in s
  }

  function Insert(s: seq<Job>, j: Job): (r: seq<Job>)
    requires Ascending(s)
    ensures Ascending(r) && Elements(r) == Elements(s) + {j}
  {
    if s == [] then [j]
    else if Compare(j, s[0]) == 0 then
      CompareIsTotalOrder(j, s[0], j);
      s
    else if Compare(j, s[0]) < 0 then
      BeforeAll(s, j);
      [j] + s
    else
      var rest := Insert(s[1..], j);
      AfterFirst(s, j, rest);
      [s[0]] + rest
  }

  function Remove(s: seq<Job>, j: Job): (r: seq<Job>)
    requires Ascending(s)
    ensures Ascending(r) && Elements(r) == Elements(s) - {j}
  {
    if s == [] then []
    else if s[0] == j then
      FirstOccursOnce(s);
      s[1..]
    else
      var rest := Remove(s[1..], j);
      FirstIsBelow(s, rest);
      [s[0]] + rest
  }

  lemma BeforeAll(s: seq<Job>, j: Job)
    requires Ascending(s) && s != [] && Compare(j, s[0]) < 0
    ensures Ascending([j] + s) && Elements([j] + s) == Elements(s) + {j}
  {
    forall k | 0 <= k < |s| ensures Compare(j, s[k]) < 0 {
      CompareIsTotalOrder(j, s[0], s[k]);
      CompareIsTotalOrder(j, s[k], s[0]);
      CompareIsTotalOrder(s[0], s[k], j);
    }
  }

  lemma AfterFirst(s: seq<Job>, j: Job, rest: seq<Job>)
    requires s != [] && Ascending(s) && Compare(j, s[0]) > 0
    requires Ascending(rest) && Elements(rest) == Elements(s[1..]) + {j}
    ensures Ascending([s[0]] + rest) && Elements([s[0]] + rest) == Elements(s) + {j}
  {
    assert s == [s[0]] + s[1..];
    CompareIsTotalOrder(s[0], j, s[0]);
    forall k | 0 <= k < |rest| ensures Compare(s[0], rest[k]) < 0 {
      assert rest[k] in Elements(rest);
    }
    forall x ensures x in Elements([s[0]] + rest) <==> x in Elements(s) + {j} {
      assert x in rest <==> x in Elements(rest);
      assert x in s[1..] <==> x in Elements(s[1..]);
    }
  }

  lemma FirstIsBelow(s: seq<Job>, rest: seq<Job>)
    requires s != [] && Ascending(s)
    requires Ascending(rest) && Elements(rest) <= Elements(s[1..])
    ensures Ascending([s[0]] + rest)
    ensures Elements([s[0]] + rest) == Elements(rest) + {s[0]} && Elements(s) == Elements(s[1..]) + {s[0]}
    ensures s[0] !in s[1..]
  {
    assert s == [s[0]] + s[1..];
    FirstOccursOnce(s);
    forall k | 0 <= k < |rest| ensures Compare(s[0], rest[k]) < 0 {
      assert rest[k] in Elements(rest);
    }
  }

  lemma FirstOccursOnce(s: seq<Job>)
    requires s != [] && Ascending(s)
    ensures s[0] !in s[1..] && Elements(s[1..]) == Elements(s) - {s[0]}
  {
    CompareIsTotalOrder(s[0], s[0], s[0]);
    assert s == [s[0]] + s[1..];
  }

  /** The first element is the least one under (priority, id). */
  lemma FirstIsLeast(s: seq<Job>)
    requires s != [] && Ascending(s)
    ensures IsLeast(s[0], Elements(s))
  {
    CompareIsTotalOrder(s[0], s[0], s[0]);
  }

  // ----- One iteration -------------------------------------------------------------

  /** The match at the top of the loop; any agent of the map may be taken. */
  ghost predicate Matches(l: Loop, out: seq<Message>, l': Loop)
  {
    if !l.shuttingDown && l.agents != {} && l.sessions != [] then
      exists a ::
        && a in l.agents
        && out == [Assigned(l.sessions[0], a)]
        && l' == l.(agents := l.agents - {a}, sessions := l.sessions[1..])
    else
      out == [] && l' == l
  }

  /** The select branch for `e`. */
  function Handle(l: Loop, e: Event): (r: (Loop, seq<Message>))
    requires Ascending(l.sessions)
  {
    match e
    case AgentAdded(a) => (l.(agents := l.agents + {a}), [])
    case AgentRemoved(a) =>
      if a in l.agents then (l.(agents := l.agents - {a}), [AgentConfirmed(a)]) else (l, [])
    case SessionAdded(j) => (l.(sessions := Insert(l.sessions, j)), [])
    case SessionRemoved(j) =>
      if j in l.sessions then (l.(sessions := Remove(l.sessions, j)), [SessionConfirmed(j)]) else (l, [])
    case ContextDone => (l.(shuttingDown := true), [])
  }

  /** At the top of the loop at most one match is possible. */
  ghost predicate AtTop(l: Loop)
  {
    && Ascending(l.sessions)
    && (l.shuttingDown || |l.agents| <= 1 || |l.sessions| <= 1)
  }

  /** When the loop waits in its select there is nothing to match. */
  ghost predicate Waits(l: Loop)
  {
    && Ascending(l.sessions)
    && (l.shuttingDown || l.agents == {} || l.sessions == [])
  }

  /** One match per iteration is enough: none is left when the loop waits. */
  lemma MatchLeavesNothing(l: Loop, out: seq<Message>, l': Loop)
    requires AtTop(l) && Matches(l, out, l')
    ensures Waits(l')
    ensures out != [] ==> IsLeast(out[0].j, Elements(l.sessions)) && out[0].a in l.agents && !l.shuttingDown
    ensures forall j :: Answers(out, j) + Count(l', j) == Count(l, j)
    ensures forall a :: Released(out, a) + HasAgent(l', a) == HasAgent(l, a)
  {
    if out != [] {
      assert out[1..] == [];
      FirstIsLeast(l.sessions);
      FirstOccursOnce(l.sessions);
      if |l.agents| == 1 {
        assert |l'.agents| == 0;
      }
      forall j ensures Answers(out, j) + Count(l', j) == Count(l, j) {
        assert j in l'.sessions <==> j in Elements(l'.sessions);
      }
    }
  }

  /** Every branch leaves at most one match; a session only leaves the set and an agent the
      map when its confirmation is sent. */
  lemma HandleAddsAtMostOne(l: Loop, e: Event)
    requires Waits(l)
    ensures AtTop(Handle(l, e).0)
    ensures forall j :: Answers(Handle(l, e).1, j) + Count(Handle(l, e).0, j) == Count(l, j) + NewAdds(l, e, j)
    ensures forall a ::
      Released(Handle(l, e).1, a) + HasAgent(Handle(l, e).0, a) == HasAgent(l, a) + NewAgent(l, e, a)
    ensures Handle(l, e).0.shuttingDown <==> l.shuttingDown || e == ContextDone
  {
    var l' := Handle(l, e).0;
    assert Handle(l, e).1 != [] ==> Handle(l, e).1[1..] == [];
    if e.SessionAdded? && l.sessions == [] {
      assert |l'.sessions| == 1;
    }
    forall j ensures Answers(Handle(l, e).1, j) + Count(l', j) == Count(l, j) + NewAdds(l, e, j) {
      assert j in l.sessions <==> j in Elements(l.sessions);
      assert j in l'.sessions <==> j in Elements(l'.sessions);
    }
  }

  // ----- Runs ----------------------------------------------------------------------

  /** How many messages for `j` are in `out`, over both of the session's channels. */
  function Answers(out: seq<Message>, j: Job): nat
  {
    if out == [] then 0
    else (if (out[0].Assigned? || out[0].SessionConfirmed?) && out[0].j == j then 1 else 0) + Answers(out[1..], j)
  }

  function Count(l: Loop, j: Job): nat
  {
    if j in l.sessions then 1 else 0
  }

  /** One if `e` puts `j` into the set. */
  function NewAdds(l: Loop, e: Event, j: Job): nat
  {
    if e == SessionAdded(j) && j !in l.sessions then 1 else 0
  }

  /** How often `a` leaves the map in `out`: assigned to a session, or confirmed as removed. */
  function Released(out: seq<Message>, a: AgentId): nat
  {
    if out == [] then 0
    else (if (out[0].Assigned? || out[0].AgentConfirmed?) && out[0].a == a then 1 else 0) + Released(out[1..], a)
  }

  function HasAgent(l: Loop, a: AgentId): nat
  {
    if a in l.agents then 1 else 0
  }

  /** One if `e` puts `a` into the map. */
  function NewAgent(l: Loop, e: Event, a: AgentId): nat
  {
    if e == AgentAdded(a) && a !in l.agents then 1 else 0
  }

  function Adds(events: seq<Event>, j: Job): nat
  {
    if events == [] then 0 else (if events[0] == SessionAdded(j) then 1 else 0) + Adds(events[1..], j)
  }

  /** The loop receives `events` in order and sends `out`, up to the match it makes before it
      waits for another event; it returns once it is shutting down and the last agent has
      left. */
  ghost predicate IsTrace(l: Loop, events: seq<Event>, out: seq<Message>, l': Loop)
    requires Ascending(l.sessions)
    decreases |events|
  {
    if l.shuttingDown && l.agents == {} then
      out == [] && l' == l
    else if events == [] then
      Matches(l, out, l')
    else
      exists m, mid, rest :: TraceStep(l, events[0], m, mid) && out == m + Handle(mid, events[0]).1 + rest
        && IsTrace(Handle(mid, events[0]).0, events[1..], rest, l')
  }

  ghost predicate TraceStep(l: Loop, e: Event, m: seq<Message>, mid: Loop)
    ensures TraceStep(l, e, m, mid) ==> Ascending(mid.sessions) && Ascending(Handle(mid, e).0.sessions)
  {
    Matches(l, m, mid) && Ascending(mid.sessions) && Ascending(Handle(mid, e).0.sessions)
  }

  lemma {:induction false} AnswersAppend(xs: seq<Message>, ys: seq<Message>, j: Job)
    ensures Answers(xs + ys, j) == Answers(xs, j) + Answers(ys, j)
  {
    if xs == [] {
      assert xs + ys == ys;
    } else {
      assert (xs + ys)[1..] == xs[1..] + ys;
      AnswersAppend(xs[1..], ys, j);
    }
  }

  /** One iteration: a match, then an event. */
  lemma IterationBalances(l: Loop, e: Event, m: seq<Message>, mid: Loop, rest: seq<Message>, j: Job)
    requires AtTop(l) && TraceStep(l, e, m, mid)
    ensures var (next, sent) := Handle(mid, e);
      && AtTop(next)
      && Answers(m + sent + rest, j) + Count(next, j) == Count(l, j) + NewAdds(mid, e, j) + Answers(rest, j)
  {
    MatchLeavesNothing(l, m, mid);
    HandleAddsAtMostOne(mid, e);
    AnswersAppend(m + Handle(mid, e).1, rest, j);
    AnswersAppend(m, Handle(mid, e).1, j);
    assert Answers(m, j) + Count(mid, j) == Count(l, j);
  }

  lemma TraceHead(l: Loop, events: seq<Event>, out: seq<Message>, l': Loop)
    returns (m: seq<Message>, mid: Loop, rest: seq<Message>)
    requires Ascending(l.sessions) && IsTrace(l, events, out, l')
    requires events != [] && !(l.shuttingDown && l.agents == {})
    ensures TraceStep(l, events[0], m, mid) && out == m + Handle(mid, events[0]).1 + rest
    ensures IsTrace(Handle(mid, events[0]).0, events[1..], rest, l')
  {
    m, mid, rest :| TraceStep(l, events[0], m, mid) && out == m + Handle(mid, events[0]).1 + rest
      && IsTrace(Handle(mid, events[0]).0, events[1..], rest, l');
  }

  /** Over any run, every add of a session is answered at most once across its two
      channels. */
  lemma {:induction false} EachAddAnsweredAtMostOnce(l: Loop, events: seq<Event>, out: seq<Message>, l': Loop, j: Job)
    requires AtTop(l) && IsTrace(l, events, out, l')
    ensures Answers(out, j) + Count(l', j) <= Count(l, j) + Adds(events, j)
    decreases |events|
  {
    if events == [] && !(l.shuttingDown && l.agents == {}) {
      MatchLeavesNothing(l, out, l');
      assert Answers(out, j) + Count(l', j) == Count(l, j);
    } else if events != [] && !(l.shuttingDown && l.agents == {}) {
      var m, mid, rest := TraceHead(l, events, out, l');
      IterationBalances(l, events[0], m, mid, rest, j);
      EachAddAnsweredAtMostOnce(Handle(mid, events[0]).0, events[1..], rest, l', j);
    }
  }

  lemma {:induction false} NoAdds(events: seq<Event>, j: Job)
    requires SessionAdded(j) !in events
    ensures Adds(events, j) == 0
    decreases |events|
  {
    if events != [] {
      assert events[0] in events;
      NoAdds(events[1..], j);
    }
  }

  /** A session that is neither queued nor added gets nothing: one whose removal was
      confirmed hears nothing until it is added again. */
  lemma UnaddedHearsNothing(l: Loop, events: seq<Event>, out: seq<Message>, l': Loop, j: Job)
    requires AtTop(l) && IsTrace(l, events, out, l') && j !in l.sessions && SessionAdded(j) !in events
    ensures Answers(out, j) == 0 && j !in l'.sessions
  {
    NoAdds(events, j);
    EachAddAnsweredAtMostOnce(l, events, out, l', j);
  }

  // ----- Agents over whole runs ----------------------------------------------------

  lemma {:induction false} ReleasedAppend(xs: seq<Message>, ys: seq<Message>, a: AgentId)
    ensures Released(xs + ys, a) == Released(xs, a) + Released(ys, a)
  {
    if xs == [] {
      assert xs + ys == ys;
    } else {
      assert (xs + ys)[1..] == xs[1..] + ys;
      ReleasedAppend(xs[1..], ys, a);
    }
  }

  /** The loop after its next match, if `out` is what it sends; the agent is read off `out`. */
  function AfterMatch(l: Loop, out: seq<Message>): Loop
  {
    if !l.shuttingDown && l.agents != {} && l.sessions != [] && out != [] && out[0].Assigned?
    then l.(agents := l.agents - {out[0].a}, sessions := l.sessions[1..]) else l
  }

  /** How many of `events` add `a` while it is not in the map, in the run that sends `out`. */
  function NewAgents(l: Loop, events: seq<Event>, out: seq<Message>, a: AgentId): nat
    decreases |events|
  {
    var mid := AfterMatch(l, out);
    if events == [] || (l.shuttingDown && l.agents == {}) || !Ascending(mid.sessions) then 0
    else
      var (next, sent) := Handle(mid, events[0]);
      var used := (if mid == l then 0 else 1) + |sent|;
      NewAgent(mid, events[0], a) + (if used <= |out| then NewAgents(next, events[1..], out[used..], a) else 0)
  }

  lemma MatchReadOff(l: Loop, m: seq<Message>, mid: Loop, rest: seq<Message>)
    requires Ascending(l.sessions) && Matches(l, m, mid)
    requires m == [] ==> l.shuttingDown || l.agents == {} || l.sessions == []
    ensures AfterMatch(l, m + rest) == mid && |m| == if mid == l then 0 else 1
  {
    if m != [] {
      assert (m + rest)[0] == m[0];
      assert |mid.sessions| < |l.sessions|;
    }
  }

  lemma NewAgentsStep(l: Loop, events: seq<Event>, m: seq<Message>, mid: Loop, rest: seq<Message>, a: AgentId)
    requires events != [] && Ascending(l.sessions) && !(l.shuttingDown && l.agents == {})
    requires TraceStep(l, events[0], m, mid)
    ensures var (next, sent) := Handle(mid, events[0]);
      NewAgents(l, events, m + sent + rest, a) == NewAgent(mid, events[0], a) + NewAgents(next, events[1..], rest, a)
  {
    var (next, sent) := Handle(mid, events[0]);
    var out := m + sent + rest;
    Associate(m, sent, rest);
    MatchReadOff(l, m, mid, sent + rest);
    assert out[|m| + |sent|..] == rest;
  }

  /** Over any run no agent is lost or made up: those in the map at the start and those added
      while absent are exactly those assigned, confirmed as removed, or still in the map. */
  lemma {:induction false} AgentsBalance(l: Loop, events: seq<Event>, out: seq<Message>, l': Loop, a: AgentId)
    requires AtTop(l) && IsTrace(l, events, out, l')
    ensures Released(out, a) + HasAgent(l', a) == HasAgent(l, a) + NewAgents(l, events, out, a)
    decreases |events|
  {
    if l.shuttingDown && l.agents == {} {
    } else if events == [] {
      MatchLeavesNothing(l, out, l');
      assert Released(out, a) + HasAgent(l', a) == HasAgent(l, a);
    } else {
      var m, mid, rest := TraceHead(l, events, out, l');
      var (next, sent) := Handle(mid, events[0]);
      MatchLeavesNothing(l, m, mid);
      HandleAddsAtMostOne(mid, events[0]);
      AgentsBalance(next, events[1..], rest, l', a);
      NewAgentsStep(l, events, m, mid, rest, a);
      ReleasedAppend(m + sent, rest, a);
      ReleasedAppend(m, sent, a);
      assert Released(m, a) + HasAgent(mid, a) == HasAgent(l, a);
    }
  }

  /** An agent that joins a waiting loop and is neither assigned nor confirmed as removed is
      still in the map, whatever happens in between. */
  lemma AddedAgentStays(l: Loop, a: AgentId, events: seq<Event>, out: seq<Message>, l': Loop)
    requires Waits(l) && IsTrace(l, [AgentAdded(a)] + events, out, l') && !(l.shuttingDown && l.agents == {})
    requires Released(out, a) == 0
    ensures a in l'.agents
  {
    AgentsBalance(l, [AgentAdded(a)] + events, out, l', a);
    var m, mid, rest := TraceHead(l, [AgentAdded(a)] + events, out, l');
    NewAgentsStep(l, [AgentAdded(a)] + events, m, mid, rest, a);
    assert mid == l;
  }

  predicate NoneAssigned(out: seq<Message>)
  {
    forall i :: 0 <= i < |out| ==> !out[i].Assigned?
  }

  /** A loop that is shutting down assigns no agent any more. */
  lemma {:induction false} ShutdownAssignsNothing(l: Loop, events: seq<Event>, out: seq<Message>, l': Loop)
    requires AtTop(l) && l.shuttingDown && IsTrace(l, events, out, l')
    ensures NoneAssigned(out) && l'.shuttingDown
    decreases |events|
  {
    if l.agents != {} && events != [] {
      var m, mid, rest := TraceHead(l, events, out, l');
      MatchLeavesNothing(l, m, mid);
      HandleAddsAtMostOne(mid, events[0]);
      ShutdownAssignsNothing(Handle(mid, events[0]).0, events[1..], rest, l');
    }
  }

  /** In particular after the context is done. */
  lemma DoneAssignsNothing(l: Loop, events: seq<Event>, out: seq<Message>, l': Loop)
    requires Waits(l) && IsTrace(l, [ContextDone] + events, out, l')
    ensures NoneAssigned(out) && l'.shuttingDown
  {
    if !(l.shuttingDown && l.agents == {}) {
      var m, mid, rest := TraceHead(l, [ContextDone] + events, out, l');
      HandleAddsAtMostOne(l, ContextDone);
      assert m == [] && mid == l;
      ShutdownAssignsNothing(Handle(l, ContextDone).0, events, rest, l');
    }
  }

  /** A removal that finds its agent in the map is confirmed at once, also during shutdown. */
  lemma AgentRemovalIsConfirmed(l: Loop, a: AgentId, events: seq<Event>, out: seq<Message>, l': Loop)
    requires Waits(l) && a in l.agents && IsTrace(l, [AgentRemoved(a)] + events, out, l')
    ensures out != [] && out[0] == AgentConfirmed(a)
  {
    var m, mid, rest := TraceHead(l, [AgentRemoved(a)] + events, out, l');
    assert m == [] && mid == l;
  }

  /** So is the removal of a queued session, unless the loop has returned. */
  lemma SessionRemovalIsConfirmed(l: Loop, j: Job, events: seq<Event>, out: seq<Message>, l': Loop)
    requires Waits(l) && j in l.sessions && IsTrace(l, [SessionRemoved(j)] + events, out, l')
    ensures if l.shuttingDown && l.agents == {} then out == [] && l' == l
            else out != [] && out[0] == SessionConfirmed(j)
  {
    if !(l.shuttingDown && l.agents == {}) {
      var m, mid, rest := TraceHead(l, [SessionRemoved(j)] + events, out, l');
      assert m == [] && mid == l;
    }
  }

  /** `out` is what the loop sent on the way from `l0` to `l`, with the events from `i` on to come. */
  ghost predicate Sofar(l0: Loop, events: seq<Event>, out: seq<Message>, l: Loop, i: nat)
    requires i <= |events| && Ascending(l0.sessions) && Ascending(l.sessions)
  {
    forall rest, l' :: IsTrace(l, events[i..], rest, l') ==> IsTrace(l0, events, out + rest, l')
  }

  lemma TraceCons(l: Loop, events: seq<Event>, m: seq<Message>, mid: Loop, rest: seq<Message>, l': Loop)
    requires events != [] && Ascending(l.sessions) && !(l.shuttingDown && l.agents == {})
    requires TraceStep(l, events[0], m, mid) && IsTrace(Handle(mid, events[0]).0, events[1..], rest, l')
    ensures IsTrace(l, events, m + Handle(mid, events[0]).1 + rest, l')
  {
  }

  lemma SofarStep(l0: Loop, events: seq<Event>, out: seq<Message>, l: Loop, i: nat, m: seq<Message>, mid: Loop)
    requires i < |events| && Ascending(l0.sessions) && Ascending(l.sessions) && Sofar(l0, events, out, l, i)
    requires !(l.shuttingDown && l.agents == {}) && TraceStep(l, events[i], m, mid)
    ensures var (next, sent) := Handle(mid, events[i]); Sofar(l0, events, out + m + sent, next, i + 1)
  {
    var (next, sent) := Handle(mid, events[i]);
    forall rest, l' | IsTrace(next, events[i + 1..], rest, l')
      ensures IsTrace(l0, events, out + m + sent + rest, l')
    {
      assert IsTrace(l, events[i..], m + sent + rest, l') by {
        assert events[i..][1..] == events[i + 1..];
        TraceCons(l, events[i..], m, mid, rest, l');
      }
      Associate(out, m, sent);
      Associate(out, m + sent, rest);
    }
  }

  // ----- The loop itself -------------------------------------------------------------

  class Scheduler {
    var agents: set<AgentId>
    var sessions: seq<Job>
    var shuttingDown: bool

    ghost function View(): Loop
      reads this
    {
      Loop(agents, sessions, shuttingDown)
    }

    constructor ()
      ensures View() == Loop({}, [], false) && AtTop(View())
    {
      agents, sessions, shuttingDown := {}, [], false;
    }

    method MatchOne() returns (out: seq<Message>)
      requires AtTop(View())
      modifies this
      ensures Matches(old(View()), out, View()) && Waits(View())
    {
      out := [];
      ghost var before := View();
      if !shuttingDown && |agents| > 0 && |sessions| > 0 {
        var a :| a in agents;
        var s := sessions[0];
        sessions := sessions[1..];
        agents := agents - {a};
        out := [Assigned(s, a)];
      }
      MatchLeavesNothing(before, out, View());
    }

    method Receive(e: Event) returns (out: seq<Message>)
      requires Waits(View())
      modifies this
      ensures (View(), out) == Handle(old(View()), e) && AtTop(View())
    {
      out := [];
      HandleAddsAtMostOne(View(), e);
      match e
      case AgentAdded(a) => agents := agents + {a};
      case AgentRemoved(a) =>
        if a in agents {
          agents := agents - {a};
          out := [AgentConfirmed(a)];
        }
      case SessionAdded(j) => sessions := Insert(sessions, j);
      case SessionRemoved(j) =>
        if j in sessions {
          sessions := Remove(sessions, j);
          out := [SessionConfirmed(j)];
        }
      case ContextDone => shuttingDown := true;
    }

    /** The loop, fed with the messages the select receives. */
    method Run(events: seq<Event>) returns (out: seq<Message>)
      requires AtTop(View())
      modifies this
      ensures Waits(View()) && IsTrace(old(View()), events, out, View())
    {
      out := [];
      var i := 0;
      assert forall rest: seq<Message> :: [] + rest == rest;
      while !(shuttingDown && |agents| == 0)
        invariant 0 <= i <= |events| && AtTop(View())
        invariant Sofar(old(View()), events, out, View(), i)
        decreases |events| - i
      {
        ghost var start := View();
        var matched := MatchOne();
        if i == |events| {
          assert IsTrace(start, events[i..], matched, View());
          out := out + matched;
          return;
        }
        ghost var mid := View();
        var sent := Receive(events[i]);
        SofarStep(old(View()), events, out, start, i, matched, mid);
        out := out + matched + sent;
        i := i + 1;
      }
      assert IsTrace(View(), events[i..], [], View());
      assert out + [] == out;
    }
  }
}
