/** What the hand-off can always still do: no reachable state loses an agent for
    good, and which cancelled sessions can still finish. */
module HandoffProgress {
  import opened Basics
  import opened Jobs
  import opened Handoff
  import opened HandoffSafety
  import opened HandoffTheorems

  /** Who takes a step; connecting and submitting come from outside. */
  datatype Actor = TheScheduler | TheSession(j: Job) | TheAgent(a: AgentId) | Outside

  function ActorOf(act: Action): Actor
  {
    match act
    case Connect(_, _) => Outside
    case Submit(_) => Outside
    case ByAgent(a, _) => TheAgent(a)
    case BySession(j, _) => TheSession(j)
    case ByScheduler(_) => TheScheduler
  }

  /** Only one-slot agents connect, and all steps are taken by `who`. */
  ghost predicate TakenBy(acts: seq<Action>, who: iset<Actor>)
  {
    ConnectsWith(acts, 1) && forall i :: 0 <= i < |acts| ==> ActorOf(acts[i]) in who
  }

  /** Steps of `who` alone lead from `st` to `st'`. */
  ghost predicate CanReachBy(st: State, st': State, who: iset<Actor>)
  {
    exists acts :: IsRun(st, acts) && TakenBy(acts, who) && Exec(st, acts) == st'
  }

  ghost const EVERYONE: iset<Actor> := iset a: Actor | true

  /** Some run, in which only one-slot agents connect, leads from `st` to `st'`. */
  ghost predicate CanReach(st: State, st': State)
  {
    CanReachBy(st, st', EVERYONE)
  }

  lemma CanReachSelf(st: State, who: iset<Actor>)
    ensures CanReachBy(st, st, who)
  {
    assert IsRun(st, []) && TakenBy([], who) && Exec(st, []) == st;
  }

  lemma CanReachTransitive(st: State, mid: State, st': State, who: iset<Actor>)
    requires CanReachBy(st, mid, who) && CanReachBy(mid, st', who)
    ensures CanReachBy(st, st', who)
  {
    var xs :| IsRun(st, xs) && TakenBy(xs, who) && Exec(st, xs) == mid;
    var ys :| IsRun(mid, ys) && TakenBy(ys, who) && Exec(mid, ys) == st';
    RunsCompose(st, xs, ys);
    assert TakenBy(xs + ys, who);
  }

  lemma CanReachStep(st: State, act: Action, who: iset<Actor>)
    requires Enabled(st, act) && (act.Connect? ==> Slots(act.reported) == 1) && ActorOf(act) in who
    ensures CanReachBy(st, Apply(st, act), who)
  {
    var st1 := Apply(st, act);
    assert [act][1..] == [] && IsRun(st1, []) && Exec(st1, []) == st1;
    assert IsRun(st, [act]) && TakenBy([act], who) && Exec(st, [act]) == st1;
  }

  /** Extends what `who` is known to reach from `st` by one step. */
  lemma Step(st: State, mid: State, act: Action, who: iset<Actor>) returns (st': State)
    requires CanReachBy(st, mid, who) && Inv(mid)
    requires Enabled(mid, act) && (act.Connect? ==> Slots(act.reported) == 1) && ActorOf(act) in who
    ensures st' == Apply(mid, act) && CanReachBy(st, st', who) && Inv(st')
  {
    st' := Apply(mid, act);
    CanReachStep(mid, act, who);
    CanReachTransitive(st, mid, st', who);
    var w, v :| Placed(mid, w, v);
    StepKeeps(mid, act, w, v);
  }

  /** Agents, session phases and the channels into the scheduler are the same. */
  ghost predicate SameOutside(st: State, st': State)
  {
    && st'.agents == st.agents
    && st'.sessions.Keys == st.sessions.Keys
    && (forall j :: j in st.sessions ==> st'.sessions[j].phase == st.sessions[j].phase)
    && st'.addAgent == st.addAgent && st'.addSession == st.addSession && st'.removeSession == st.removeSession
  }

  lemma SchedulerKeepsAnswers(st: State, x: SchedulerAct, j: Job)
    requires SchedulerEnabled(st, x) && j in st.sessions && AnswerOutstanding(st, j)
    ensures AnswerOutstanding(SchedulerApply(st, x), j)
  {
  }

  /** What the scheduler's own steps from `mid` to `st'` preserve. */
  ghost predicate SchedulerMoved(mid: State, st': State)
  {
    && SameOutside(mid, st')
    && st'.queue <= mid.queue
    && forall j :: j in mid.sessions && AnswerOutstanding(mid, j) ==> AnswerOutstanding(st', j)
  }

  lemma SchedulerActs(st: State, mid: State, x: SchedulerAct, who: iset<Actor>) returns (st': State)
    requires TheScheduler in who && CanReachBy(st, mid, who) && Inv(mid) && SchedulerEnabled(mid, x)
    requires x.Match? || x.NoMatch? || x.SendAgent? || x.SendConfirm?
    ensures st' == SchedulerApply(mid, x) && CanReachBy(st, st', who) && Inv(st') && SchedulerMoved(mid, st')
  {
    st' := Step(st, mid, ByScheduler(x), who);
    forall j | j in mid.sessions && AnswerOutstanding(mid, j) ensures AnswerOutstanding(st', j) {
      SchedulerKeepsAnswers(mid, x, j);
    }
  }

  lemma SendIsReady(st: State)
    requires Inv(st)
    ensures st.pc.Sending? ==> SchedulerEnabled(st, SendAgent)
    ensures st.pc.Confirming? ==> SchedulerEnabled(st, SendConfirm)
  {
    var w, v :| Placed(st, w, v);
    SchedulerSendIsReady(st, w, v);
  }

  /** At the top of its loop the scheduler matches if it can and then waits. */
  lemma TopReachesSelect(st: State, mid: State, who: iset<Actor>) returns (st': State)
    requires TheScheduler in who && CanReachBy(st, mid, who) && Inv(mid) && mid.pc == Top
    ensures CanReachBy(st, st', who) && Inv(st') && st'.pc == Select && SchedulerMoved(mid, st')
    ensures mid.idle != {} && mid.queue != {} ==> st'.queue < mid.queue
  {
    if mid.idle == {} || mid.queue == {} {
      st' := SchedulerActs(st, mid, NoMatch, who);
    } else {
      var a :| a in mid.idle;
      var j := LeastExists(mid.queue);
      var sending := SchedulerActs(st, mid, Match(a, j), who);
      assert j in mid.queue && j !in sending.queue;
      SendIsReady(sending);
      st' := SchedulerActs(st, sending, SendAgent, who);
    }
  }

  lemma ReachesSelect(st: State, mid: State, who: iset<Actor>) returns (st': State)
    requires TheScheduler in who && CanReachBy(st, mid, who) && Inv(mid)
    ensures CanReachBy(st, st', who) && Inv(st') && st'.pc == Select && SchedulerMoved(mid, st')
  {
    SendIsReady(mid);
    match mid.pc
    case Select => st' := mid;
    case Top => st' := TopReachesSelect(st, mid, who);
    case Sending(_, _) => st' := SchedulerActs(st, mid, SendAgent, who);
    case Confirming(_) =>
      var next := SchedulerActs(st, mid, SendConfirm, who);
      st' := TopReachesSelect(st, next, who);
  }

  /** From every reachable state the scheduler gets back to its select by its own steps. */
  lemma SchedulerReachesSelect(st: State) returns (st': State)
    requires Reachable(st, 1)
    ensures CanReachBy(st, st', iset{TheScheduler}) && st'.pc == Select && SchedulerMoved(st, st')
  {
    ReachableKeepsInv(st);
    CanReachSelf(st, iset{TheScheduler});
    st' := ReachesSelect(st, st, iset{TheScheduler});
  }

  /** Brings the scheduler to a select with nobody waiting in addAgent. */
  lemma SchedulerDrainsAgents(st: State, mid: State, who: iset<Actor>) returns (st': State)
    requires TheScheduler in who && CanReachBy(st, mid, who) && Inv(mid)
    ensures CanReachBy(st, st', who) && Inv(st') && st'.pc == Select && st'.addAgent == []
    ensures st'.agents == mid.agents && st'.sessions.Keys == mid.sessions.Keys
    ensures forall j :: j in mid.sessions ==> st'.sessions[j].phase == mid.sessions[j].phase
  {
    st' := ReachesSelect(st, mid, who);
    if st'.addAgent != [] {
      var w, v :| Placed(st', w, v);
      var next := Step(st, st', ByScheduler(AddAgent), who);
      st' := ReachesSelect(st, next, who);
    }
  }

  /** An agent about to offer itself can always get into the pool. */
  lemma OfferingAgentReachesPool(st: State, mid: State, a: AgentId, who: iset<Actor>) returns (st': State)
    requires TheScheduler in who && TheAgent(a) in who
    requires CanReachBy(st, mid, who) && Inv(mid) && a in mid.agents && mid.agents[a].adding
    ensures CanReachBy(st, st', who) && Inv(st') && a in st'.idle
    ensures st'.sessions.Keys == mid.sessions.Keys
    ensures forall j :: j in mid.sessions ==> st'.sessions[j].phase == mid.sessions[j].phase
  {
    var ready := SchedulerDrainsAgents(st, mid, who);
    var offered := Step(st, ready, ByAgent(a, OfferSelf), who);
    st' := Step(st, offered, ByScheduler(AddAgent), who);
  }

  /** A cancelling session that is handed an agent can give it back and finish. */
  lemma GivesLateAgentBack(st: State, mid: State, j: Job, who: iset<Actor>) returns (st': State)
    requires TheSession(j) in who
    requires CanReachBy(st, mid, who) && Inv(mid) && InPhase(mid, j, Cancelling) && mid.sessions[j].agentChan != []
    ensures CanReachBy(st, st', who) && Inv(st') && InPhase(st', j, Done(true))
    ensures var a := mid.sessions[j].agentChan[0];
      a in st'.agents && st'.agents[a].reqs != [] && st'.agents[a].reqs[0] == Request(j, false)
  {
    var taken := Step(st, mid, BySession(j, TakeLateAgent), who);
    var w, v :| Placed(taken, w, v);
    SessionSendIsReady(taken, w, v, j);
    assert AgentFits(taken, taken.sessions[j].phase.agent);
    st' := Step(st, taken, BySession(j, SendReject), who);
  }

  lemma RequestedAgentListens(st: State, a: AgentId)
    requires Inv(st) && a in st.agents && st.agents[a].reqs != []
    ensures AgentEnabled(st, a, TakeRequest)
  {
    var w, v :| Placed(st, w, v);
    assert At(st, a, InRequest);
    assert !At(st, a, Entering);
  }

  /** A cancel that races with a match loses no agent: from every reachable state in which a
      cancelling session has an agent in its channel, steps of the scheduler, that session and
      that agent alone get the agent back into the scheduler's pool with the session finished. */
  lemma LateAgentReturnsToPool(st: State, j: Job) returns (st': State)
    requires Reachable(st, 1) && InPhase(st, j, Cancelling) && st.sessions[j].agentChan != []
    ensures var a := st.sessions[j].agentChan[0];
      && CanReachBy(st, st', iset{TheScheduler, TheSession(j), TheAgent(a)})
      && a in st'.idle && InPhase(st', j, Done(true))
  {
    var a := st.sessions[j].agentChan[0];
    var who := iset{TheScheduler, TheSession(j), TheAgent(a)};
    ReachableKeepsInv(st);
    CanReachSelf(st, who);
    var rejected := GivesLateAgentBack(st, st, j, who);
    RequestedAgentListens(rejected, a);
    var freed := Step(st, rejected, ByAgent(a, TakeRequest), who);
    st' := OfferingAgentReachesPool(st, freed, a, who);
  }

  // ----- Which cancelling sessions can finish --------------------------------------

  lemma {:induction false} FreshId(used: set<AgentId>) returns (b: AgentId)
    ensures b !in used && forall x :: x in used ==> |x| < |b|
  {
    if used == {} {
      b := "a";
    } else {
      var x :| x in used;
      var c := FreshId(used - {x});
      b := c + x + "a";
      forall y | y in used ensures |y| < |b| {
        assert y == x || y in used - {x};
      }
    }
  }

  /** A session the scheduler already answered finishes in at most two steps. */
  lemma AnsweredFinishes(st: State, mid: State, j: Job) returns (st': State)
    requires CanReach(st, mid) && Inv(mid) && InPhase(mid, j, Cancelling)
    requires mid.sessions[j].agentChan != [] || mid.sessions[j].confirm > 0
    ensures CanReach(st, st') && InPhase(st', j, Done(true))
  {
    if mid.sessions[j].confirm > 0 {
      st' := Step(st, mid, BySession(j, TakeConfirm), EVERYONE);
    } else {
      st' := GivesLateAgentBack(st, mid, j, EVERYONE);
    }
  }

  /** Makes sure an agent waits in addAgent, connecting a new one if need be. */
  lemma AgentWaits(st: State, mid: State) returns (st': State)
    requires CanReach(st, mid) && Inv(mid)
    ensures CanReach(st, st') && Inv(st') && st'.addAgent != []
    ensures st'.(agents := mid.agents, addAgent := mid.addAgent) == mid
  {
    if mid.addAgent != [] {
      st' := mid;
    } else {
      var b := FreshId(mid.agents.Keys);
      var connected := Step(st, mid, Connect(b, 1), EVERYONE);
      st' := Step(st, connected, ByAgent(b, OfferSelf), EVERYONE);
    }
  }

  /** From a select, an outstanding answer can always be given: agents are supplied
      until the session's turn comes. */
  lemma {:induction false} OutstandingFinishes(st: State, mid: State, j: Job) returns (st': State)
    requires CanReach(st, mid) && Inv(mid) && mid.pc == Select
    requires InPhase(mid, j, Cancelling) && AnswerOutstanding(mid, j)
    ensures CanReach(st, st') && InPhase(st', j, Done(true))
    decreases j in mid.addSession, |mid.queue|
  {
    if mid.sessions[j].agentChan != [] || mid.sessions[j].confirm > 0 {
      st' := AnsweredFinishes(st, mid, j);
    } else if j in mid.addSession {
      var added := Step(st, mid, ByScheduler(AddSession), EVERYONE);
      var w, v :| Placed(mid, w, v);
      assert added.addSession == [] && AnswerOutstanding(added, j);
      var next := TopReachesSelect(st, added, EVERYONE);
      st' := OutstandingFinishes(st, next, j);
    } else {
      var waiting := AgentWaits(st, mid);
      var added := Step(st, waiting, ByScheduler(AddAgent), EVERYONE);
      assert AnswerOutstanding(added, j);
      var next := TopReachesSelect(st, added, EVERYONE);
      Smaller(next.queue, mid.queue);
      st' := OutstandingFinishes(st, next, j);
    }
  }

  /** A cancelling session can still finish if and only if the scheduler owes it an
      answer; the sessions that cannot are those killed while an agent was starting
      them. */
  lemma CancellingFinishesIff(st: State, j: Job)
    requires Reachable(st, 1) && InPhase(st, j, Cancelling)
    ensures AnswerOutstanding(st, j) <==> exists st' :: CanReach(st, st') && InPhase(st', j, Done(true))
  {
    ReachableKeepsInv(st);
    CanReachSelf(st, EVERYONE);
    if AnswerOutstanding(st, j) {
      var ready := ReachesSelect(st, st, EVERYONE);
      var st' := OutstandingFinishes(st, ready, j);
    } else {
      var w, v :| Placed(st, w, v);
      UnansweredIsStuck(st, w, v, j);
      forall st' | CanReach(st, st') ensures InPhase(st', j, Cancelling) {
        var acts :| IsRun(st, acts) && TakenBy(acts, EVERYONE) && Exec(st, acts) == st';
        StuckRun(st, acts, w, v, j);
      }
    }
  }

  lemma UnansweredIsStuck(st: State, w: map<AgentId, Place>, v: map<Job, Claim>, j: Job)
    requires Placed(st, w, v) && InPhase(st, j, Cancelling) && !AnswerOutstanding(st, j)
    ensures Stuck(st, v, j)
  {
    assert SessionFits(st, j, v[j]);
    assert v[j] != NoClaim ==> ClaimAt(st, j, v[j]);
  }
}
