/** Agents with several slots: the bound on what an agent runs holds in every run
    exactly when agents have one slot.

    An agent offers itself again whenever a session ends, even if its earlier offer
    is still with the scheduler. With two or more slots that puts the same agent on
    offer twice, and the second offer is taken after the agent is already full. */
module HandoffSlots {
  import opened Jobs
  import opened Handoff
  import opened HandoffSafety
  import opened HandoffTheorems

  lemma Go(st: State, n: nat, act: Action) returns (st': State)
    requires Reachable(st, n) && Enabled(st, act) && (act.Connect? ==> Slots(act.reported) == n)
    ensures st' == Apply(st, act) && Reachable(st', n)
  {
    st' := Apply(st, act);
    var acts :| IsRun(Init, acts) && ConnectsWith(acts, n) && Exec(Init, acts) == st;
    assert [act][1..] == [] && IsRun(st', []) && Exec(st', []) == st';
    assert IsRun(st, [act]) && Exec(st, [act]) == st';
    RunsCompose(Init, acts, [act]);
    assert ConnectsWith(acts + [act], n);
  }

  /** Nothing is in flight: the scheduler waits, the only agent `a` listens and runs `mine`. */
  ghost predicate Quiet(st: State, a: AgentId, n: nat, mine: set<Job>)
  {
    && st.agents.Keys == {a}
    && st.agents[a].slots == n && !st.agents[a].adding && st.agents[a].mine == mine && st.agents[a].reqs == []
    && st.pc == Select && st.queue == {}
    && st.addAgent == [] && st.addSession == [] && st.removeSession == []
    && mine <= st.sessions.Keys
  }

  /** The agent finishes an offer of itself. */
  lemma Offer(st: State, a: AgentId, n: nat) returns (st': State)
    requires Reachable(st, n) && a in st.agents && st.agents[a].adding
    requires Quiet(SetAgent(st, a, st.agents[a].(adding := false)), a, n, st.agents[a].mine)
    ensures Reachable(st', n) && Quiet(st', a, n, st.agents[a].mine)
    ensures st'.idle == st.idle + {a} && st'.sessions == st.sessions
    ensures st'.agents[a].starting == st.agents[a].starting
  {
    st' := Go(st, n, ByAgent(a, OfferSelf));
    st' := Go(st', n, ByScheduler(AddAgent));
    st' := Go(st', n, ByScheduler(NoMatch));
    assert st'.agents == SetAgent(st, a, st.agents[a].(adding := false)).agents;
  }

  lemma ConnectOne(n: nat) returns (st: State, a: AgentId)
    requires n >= 1
    ensures Reachable(st, n) && Quiet(st, a, n, {}) && st.idle == {a} && st.sessions == map[]
  {
    a := "a";
    assert IsRun(Init, []) && ConnectsWith([], n) && Exec(Init, []) == Init;
    st := Go(Init, n, ByScheduler(NoMatch));
    st := Go(st, n, Connect(a, n));
    st := Offer(st, a, n);
  }

  lemma QueueNew(st: State, n: nat, j: Job) returns (st': State)
    requires Reachable(st, n) && j !in st.sessions
    requires st.pc == Select && st.queue == {} && st.addSession == []
    ensures Reachable(st', n)
    ensures st' == st.(queue := {j}, pc := Top, sessions := st.sessions[j := Session(Queueing, [], 0, [])])
  {
    st' := Go(st, n, Submit(j));
    st' := Go(st', n, BySession(j, Enqueue));
    st' := Go(st', n, ByScheduler(AddSession));
    assert st'.sessions == st.sessions[j := Session(Queueing, [], 0, [])];
    assert [j][1..] == [] && st.queue + {j} == {j};
  }

  /** A new session is matched with the agent on offer, which may still be busy. */
  lemma MatchNew(st: State, a: AgentId, n: nat, j: Job) returns (st': State)
    requires Reachable(st, n) && j !in st.sessions
    requires st.pc == Select && st.queue == {} && st.addSession == [] && a in st.idle
    ensures Reachable(st', n)
    ensures st' == st.(idle := st.idle - {a}, sessions := st.sessions[j := Session(Queueing, [a], 0, [])])
  {
    st' := QueueNew(st, n, j);
    CompareIsTotalOrder(j, j, j);
    assert IsLeast(j, st'.queue);
    st' := Go(st', n, ByScheduler(Match(a, j)));
    assert st'.queue == {};
    st' := Go(st', n, ByScheduler(SendAgent));
    assert st'.sessions[j] == Session(Queueing, [a], 0, []) by { assert [] + [a] == [a]; }
    assert st'.sessions == st.sessions[j := Session(Queueing, [a], 0, [])];
  }

  /** A session that was offered the agent passes its request on. */
  lemma Accept(st: State, a: AgentId, n: nat, mine: set<Job>, j: Job) returns (st': State)
    requires Reachable(st, n) && Quiet(st, a, n, mine) && n >= 1
    requires j in st.sessions && st.sessions[j] == Session(Queueing, [a], 0, [])
    ensures Reachable(st', n)
    ensures a in st'.agents && st'.agents[a].adding == (n > |mine + {j}|)
    ensures Quiet(SetAgent(st', a, st'.agents[a].(adding := false)), a, n, mine + {j})
    ensures st'.idle == st.idle && st'.agents[a].mine == mine + {j} && j in st'.agents[a].starting
    ensures st'.sessions == st.sessions[j := Session(SentToAgent, [], 0, [])]
  {
    st' := Go(st, n, BySession(j, TakeAgent));
    st' := Go(st', n, BySession(j, SendAccept));
    st' := Go(st', n, ByAgent(a, TakeRequest));
    assert [a][1..] == [] && st'.sessions[j] == Session(SentToAgent, [], 0, []);
    assert st'.sessions == st.sessions[j := Session(SentToAgent, [], 0, [])];
  }

  lemma FreshJob(used: set<Job>) returns (j: Job)
    ensures j !in used
  {
    j := LongerJob(used);
  }

  lemma {:induction false} LongerJob(used: set<Job>) returns (j: Job)
    ensures forall k :: k in used ==> |k.id| < |j.id|
  {
    if used == {} {
      j := Job(0, "j");
    } else {
      var x :| x in used;
      var c := LongerJob(used - {x});
      j := Job(0, c.id + x.id + "j");
      forall y | y in used ensures |y.id| < |j.id| {
        assert y == x || y in used - {x};
      }
    }
  }

  /** While the agent is on offer and has free slots, it takes one more session. */
  lemma ServeOne(st: State, a: AgentId, n: nat, mine: set<Job>) returns (st': State, j: Job)
    requires Reachable(st, n) && Quiet(st, a, n, mine) && st.idle == {a} && |mine| < n
    ensures j !in st.sessions && Reachable(st', n) && Quiet(st', a, n, mine + {j})
    ensures st'.sessions == st.sessions[j := Session(SentToAgent, [], 0, [])]
    ensures st'.idle == if |mine| + 1 < n then {a} else {}
    ensures j in st'.agents[a].starting
  {
    j := FreshJob(st.sessions.Keys);
    var offered := MatchNew(st, a, n, j);
    assert offered.idle == {};
    st' := Accept(offered, a, n, mine, j);
    assert |mine + {j}| == |mine| + 1;
    if |mine| + 1 < n {
      var accepted := st';
      st' := Offer(accepted, a, n);
    } else {
      assert SetAgent(st', a, st'.agents[a].(adding := false)) == st';
    }
  }

  /** The agent takes sessions until it is full; a session that holds a second offer waits. */
  lemma {:induction false} FillUp(st: State, a: AgentId, n: nat, mine: set<Job>, late: Job)
    returns (st': State, full: set<Job>)
    requires Reachable(st, n) && Quiet(st, a, n, mine) && st.idle == {a} && |mine| < n
    requires late !in mine && late in st.sessions && st.sessions[late] == Session(Queueing, [a], 0, [])
    ensures Reachable(st', n) && Quiet(st', a, n, full) && |full| == n
    ensures late !in full && late in st'.sessions && st'.sessions[late] == Session(Queueing, [a], 0, [])
    decreases n - |mine|
  {
    var j;
    st', j := ServeOne(st, a, n, mine);
    full := mine + {j};
    assert |full| == |mine| + 1;
    if |full| < n {
      st', full := FillUp(st', a, n, full, late);
    }
  }

  /** After one completed session the agent is on offer twice: once to `late`, once in the pool. */
  lemma OfferTwice(n: nat) returns (st: State, a: AgentId, late: Job)
    requires n >= 2
    ensures Reachable(st, n) && Quiet(st, a, n, {}) && st.idle == {a}
    ensures late in st.sessions && st.sessions[late] == Session(Queueing, [a], 0, [])
  {
    st, a := ConnectOne(n);
    var first;
    st, first := ServeOne(st, a, n, {});
    st := Go(st, n, ByAgent(a, ReportStarted(first)));
    st := Go(st, n, ByAgent(a, ReportCompleted(first)));
    late := FreshJob(st.sessions.Keys);
    st := MatchNew(st, a, n, late);
    assert st.agents[a].mine == {};
    st := Offer(st, a, n);
    assert st.idle == {a};
  }

  /** Every agent with two or more slots can be made to run more sessions than that. */
  lemma SlotsCanOverflow(n: nat) returns (st: State, a: AgentId)
    requires n >= 2
    ensures Reachable(st, n) && a in st.agents && |st.agents[a].mine| > st.agents[a].slots
  {
    var late, full;
    st, a, late := OfferTwice(n);
    st, full := FillUp(st, a, n, {}, late);
    st := Accept(st, a, n, full, late);
    assert |full + {late}| == n + 1;
  }

  /** The slot bound holds in every run if and only if agents have one slot. */
  lemma SlotBoundHoldsIffOneSlot(n: nat)
    requires n >= 1
    ensures (forall st, a :: Reachable(st, n) && a in st.agents ==>
        |st.agents[a].mine| <= st.agents[a].slots) <==> n == 1
  {
    if n == 1 {
      forall st, a | Reachable(st, n) && a in st.agents ensures |st.agents[a].mine| <= st.agents[a].slots {
        ReachableKeepsInv(st);
        var w, v :| Placed(st, w, v);
        assert AgentFits(st, a);
      }
    } else {
      var st, a := SlotsCanOverflow(n);
    }
  }
}
