/** What every run of the one-slot hand-off guarantees. */
module HandoffTheorems {
  import opened Jobs
  import opened Handoff
  import opened HandoffSafety

  ghost function NextPlaces(st: State, act: Action, w: map<AgentId, Place>): map<AgentId, Place>
    requires Enabled(st, act)
  {
    match act
    case Connect(a, _) => w[a := Entering]
    case Submit(_) => w
    case ByAgent(a, x) => AgentMoves(st, a, x, w)
    case BySession(j, x) => SessionMoves(st, j, x, w)
    case ByScheduler(x) => SchedulerMoves(st, x, w)
  }

  ghost function NextClaims(st: State, act: Action, v: map<Job, Claim>): map<Job, Claim>
    requires Enabled(st, act)
  {
    match act
    case Connect(_, _) => v
    case Submit(j) => v[j := Unsent]
    case ByAgent(a, x) => AgentClaims(st, a, x, v)
    case BySession(j, x) => SessionClaims(st, j, x, v)
    case ByScheduler(x) => SchedulerClaims(st, x, v)
  }

  lemma ConnectKeeps(st: State, a: AgentId, reported: int, w: map<AgentId, Place>, v: map<Job, Claim>)
    requires Placed(st, w, v) && a !in st.agents && Slots(reported) == 1
    ensures Placed(Apply(st, Connect(a, reported)), w[a := Entering], v)
  {
    var st', w' := Apply(st, Connect(a, reported)), w[a := Entering];
    forall b, p ensures At(st', b, p) <==> b in w' && w'[b] == p {
      assert At(st, b, p) <==> b in w && w[b] == p;
    }
    forall k, c | c != NoClaim ensures ClaimAt(st', k, c) <==> k in v && v[k] == c {
      assert ClaimAt(st, k, c) <==> k in v && v[k] == c;
    }
  }

  lemma SubmitKeeps(st: State, j: Job, w: map<AgentId, Place>, v: map<Job, Claim>)
    requires Placed(st, w, v) && j !in st.sessions
    ensures Placed(Apply(st, Submit(j)), w, v[j := Unsent])
  {
    var st', v' := Apply(st, Submit(j)), v[j := Unsent];
    forall b, p ensures At(st', b, p) <==> b in w && w[b] == p {
      assert At(st, b, p) <==> b in w && w[b] == p;
    }
    forall k, c | c != NoClaim ensures ClaimAt(st', k, c) <==> k in v' && v'[k] == c {
      assert ClaimAt(st, k, c) <==> k in v && v[k] == c;
    }
  }

  /** One step of any goroutine moves agents and claims exactly as the maps say. */
  lemma StepKeeps(st: State, act: Action, w: map<AgentId, Place>, v: map<Job, Claim>)
    requires Placed(st, w, v) && Enabled(st, act)
    requires act.Connect? ==> Slots(act.reported) == 1
    ensures Placed(Apply(st, act), NextPlaces(st, act, w), NextClaims(st, act, v))
  {
    match act
    case Connect(a, n) => ConnectKeeps(st, a, n, w, v);
    case Submit(j) => SubmitKeeps(st, j, w, v);
    case ByAgent(a, x) =>
      AgentStepStart(st, a, x, w, v);
      AgentStepKeepsPlaces(st, a, x, w, v);
      AgentStepKeepsClaims(st, a, x, w, v);
      AgentStepKeepsFit(st, a, x, w, v);
    case BySession(j, x) =>
      SessionStepStart(st, j, x, w, v);
      SessionStepKeepsPlaces(st, j, x, w, v);
      SessionStepKeepsClaims(st, j, x, w, v);
      SessionStepKeepsFit(st, j, x, w, v);
    case ByScheduler(x) =>
      SchedulerStepStart(st, x, w, v);
      SchedulerStepKeepsPlaces(st, x, w, v);
      SchedulerStepKeepsClaims(st, x, w, v);
      SchedulerStepKeepsFit(st, x, w, v);
  }

  lemma InitPlaced()
    ensures Placed(Init, map[], map[])
  {
  }

  lemma {:induction false} RunKeepsInv(st: State, acts: seq<Action>)
    requires Inv(st) && IsRun(st, acts) && ConnectsWith(acts, 1)
    ensures Inv(Exec(st, acts))
    decreases |acts|
  {
    if acts != [] {
      var w, v :| Placed(st, w, v);
      StepKeeps(st, acts[0], w, v);
      RunKeepsInv(Apply(st, acts[0]), acts[1..]);
    }
  }

  lemma ReachableKeepsInv(st: State)
    requires Reachable(st, 1)
    ensures Inv(st)
  {
    InitPlaced();
    var acts :| IsRun(Init, acts) && ConnectsWith(acts, 1) && Exec(Init, acts) == st;
    RunKeepsInv(Init, acts);
  }

  // ----- Agents and sessions are never duplicated or lost ------------------------

  /** In every reachable state each connected agent is in exactly one place. */
  lemma AgentIsInExactlyOnePlace(st: State, a: AgentId)
    requires Reachable(st, 1) && a in st.agents
    ensures exists p :: At(st, a, p) && forall q :: At(st, a, q) ==> q == p
  {
    ReachableKeepsInv(st);
    var w, v :| Placed(st, w, v);
    assert At(st, a, w[a]);
  }

  lemma HolderPlaced(st: State, w: map<AgentId, Place>, v: map<Job, Claim>, a: AgentId, j: Job)
    requires AgentsPlaced(st, w) && ClaimsPlaced(st, v) && a in st.agents && j in st.agents[a].mine
    ensures w[a] == Working(j) && j in v && v[j] == Held(a)
    ensures !st.agents[a].adding && a !in st.addAgent && a !in st.idle
  {
    assert At(st, a, Working(j)) && ClaimAt(st, j, Held(a));
    assert !At(st, a, Entering) && !At(st, a, InAddChan) && !At(st, a, InPool);
  }

  /** No agent runs two sessions, no session is run by two agents, and an agent that
      runs a session is not on offer. */
  lemma HoldingIsExclusive(st: State, a: AgentId, b: AgentId, j: Job, k: Job)
    requires Reachable(st, 1)
    requires a in st.agents && j in st.agents[a].mine
    requires b in st.agents && k in st.agents[b].mine
    ensures a == b <==> j == k
    ensures !st.agents[a].adding && a !in st.addAgent && a !in st.idle
  {
    ReachableKeepsInv(st);
    var w, v :| Placed(st, w, v);
    HolderPlaced(st, w, v, a, j);
    HolderPlaced(st, w, v, b, k);
  }

  lemma NoClaimHoldsNothing(st: State, v: map<Job, Claim>, j: Job, a: AgentId)
    requires ClaimsPlaced(st, v) && j in v && v[j] == NoClaim
    ensures a in st.agents ==> j !in st.agents[a].mine && Request(j, true) !in st.agents[a].reqs
    ensures j !in st.queue && j !in st.addSession && st.sessions[j].agentChan == []
  {
    assert !ClaimAt(st, j, Held(a)) && !ClaimAt(st, j, Requested(a));
    assert !ClaimAt(st, j, Queued) && !ClaimAt(st, j, AddSent) && !ClaimAt(st, j, Offered);
  }

  /** A cancelled session is not run, requested, queued or offered an agent. */
  lemma CancelledSessionHoldsNothing(st: State, j: Job, a: AgentId)
    requires Reachable(st, 1) && InPhase(st, j, Done(true))
    ensures a in st.agents ==> j !in st.agents[a].mine && Request(j, true) !in st.agents[a].reqs
    ensures j !in st.queue && j !in st.addSession && st.sessions[j].agentChan == []
  {
    ReachableKeepsInv(st);
    var w, v :| Placed(st, w, v);
    assert SessionFits(st, j, v[j]);
    NoClaimHoldsNothing(st, v, j, a);
  }

  // ----- Who can block -----------------------------------------------------------

  lemma SchedulerSendIsReady(st: State, w: map<AgentId, Place>, v: map<Job, Claim>)
    requires Placed(st, w, v)
    ensures st.pc.Sending? ==> SchedulerEnabled(st, SendAgent)
    ensures st.pc.Confirming? ==> SchedulerEnabled(st, SendConfirm)
  {
    if st.pc.Sending? {
      assert ClaimAt(st, st.pc.job, Matched);
      assert !ClaimAt(st, st.pc.job, Offered);
    }
    if st.pc.Confirming? {
      assert ClaimAt(st, st.pc.job, ConfirmDue);
      assert !ClaimAt(st, st.pc.job, ConfirmSent);
    }
  }

  lemma SessionSendIsReady(st: State, w: map<AgentId, Place>, v: map<Job, Claim>, j: Job)
    requires Placed(st, w, v) && j in st.sessions && InHands(st.sessions[j].phase)
    ensures RoomForRequest(st, st.sessions[j].phase.agent)
  {
    var a := st.sessions[j].phase.agent;
    assert At(st, a, InTransfer(j));
    assert !At(st, a, InRequest);
    assert AgentFits(st, a);
  }

  /** Every hand-over send finds room in its buffer: the scheduler's to a session,
      a session's to an agent and an agent's response to a session. Only the three
      channels into the scheduler can make a sender wait. */
  lemma HandoverSendsNeverBlock(st: State, j: Job, a: AgentId)
    requires Reachable(st, 1)
    ensures st.pc.Sending? ==> Enabled(st, ByScheduler(SendAgent))
    ensures st.pc.Confirming? ==> Enabled(st, ByScheduler(SendConfirm))
    ensures j in st.sessions && st.sessions[j].phase.HandingOver? ==> Enabled(st, BySession(j, SendAccept))
    ensures j in st.sessions && st.sessions[j].phase.HandingBack? ==> Enabled(st, BySession(j, SendReject))
    ensures Runs(st, a, j, true) ==>
      Enabled(st, ByAgent(a, ReportStarted(j))) && Enabled(st, ByAgent(a, ReportFailed(j)))
  {
    ReachableKeepsInv(st);
    var w, v :| Placed(st, w, v);
    SchedulerSendIsReady(st, w, v);
    if j in st.sessions && InHands(st.sessions[j].phase) {
      SessionSendIsReady(st, w, v, j);
    }
    if Runs(st, a, j, true) {
      assert AgentFits(st, a);
    }
  }

  /** The scheduler only waits for messages when it has nothing to match. */
  lemma WaitingSchedulerHasNoMatch(st: State)
    requires Reachable(st, 1) && st.pc == Select
    ensures st.idle == {} || st.queue == {}
  {
    ReachableKeepsInv(st);
  }

  /** The scheduler still owes the session an agent or a confirmation. */
  ghost predicate AnswerOutstanding(st: State, j: Job)
  {
    || j in st.addSession
    || j in st.queue
    || (st.pc.Sending? && st.pc.job == j)
    || st.pc == Confirming(j)
    || (j in st.sessions && (st.sessions[j].agentChan != [] || st.sessions[j].confirm > 0))
  }

  // ----- Sessions cancelled while they wait ----------------------------------------

  predicate WindingDown(p: Phase)
  {
    p.Withdrawing? || p.Cancelling? || p.HandingBack? || p == Done(true)
  }

  /** The agent neither runs `j` nor has been asked to. */
  ghost predicate Spared(st: State, a: AgentId, j: Job)
  {
    a in st.agents ==> j !in st.agents[a].mine && Request(j, true) !in st.agents[a].reqs
  }

  /** The session is on its way out, and no agent runs it or has been asked to. */
  ghost predicate Withdrawn(st: State, j: Job)
  {
    j in st.sessions && WindingDown(st.sessions[j].phase) && forall a :: Spared(st, a, j)
  }

  lemma WithdrawnAgentStep(st: State, a: AgentId, x: AgentAct, j: Job)
    requires Withdrawn(st, j) && AgentEnabled(st, a, x)
    ensures Withdrawn(AgentApply(st, a, x), j)
  {
    var st' := AgentApply(st, a, x);
    assert Spared(st, a, j);
    forall b ensures Spared(st', b, j) {
      assert Spared(st, b, j);
    }
  }

  lemma WithdrawnSessionStep(st: State, k: Job, x: SessionAct, j: Job)
    requires Withdrawn(st, j) && SessionEnabled(st, k, x)
    ensures Withdrawn(SessionApply(st, k, x), j)
  {
    var st' := SessionApply(st, k, x);
    forall b ensures Spared(st', b, j) {
      assert Spared(st, b, j);
    }
  }

  lemma WithdrawnStep(st: State, act: Action, j: Job)
    requires Withdrawn(st, j) && Enabled(st, act)
    ensures Withdrawn(Apply(st, act), j)
  {
    match act
    case ByAgent(a, x) => WithdrawnAgentStep(st, a, x, j);
    case BySession(k, x) => WithdrawnSessionStep(st, k, x, j);
    case _ =>
      forall b ensures Spared(Apply(st, act), b, j) {
        assert Spared(st, b, j);
      }
  }

  lemma {:induction false} WithdrawnRun(st: State, acts: seq<Action>, j: Job)
    requires Withdrawn(st, j) && IsRun(st, acts)
    ensures Withdrawn(Exec(st, acts), j)
    decreases |acts|
  {
    if acts != [] {
      WithdrawnStep(st, acts[0], j);
      WithdrawnRun(Apply(st, acts[0]), acts[1..], j);
    }
  }

  lemma WaitingIsSpared(st: State, v: map<Job, Claim>, j: Job, a: AgentId)
    requires ClaimsPlaced(st, v) && j in st.sessions && PhaseFits(st.sessions[j].phase, v[j])
    requires InPhase(st, j, Withdrawing) || AnswerOutstanding(st, j)
    ensures Spared(st, a, j)
  {
    assert AnswerOutstanding(st, j) ==>
      || ClaimAt(st, j, AddSent) || ClaimAt(st, j, Queued) || ClaimAt(st, j, Matched)
      || ClaimAt(st, j, ConfirmDue) || ClaimAt(st, j, Offered) || ClaimAt(st, j, ConfirmSent);
    assert !ClaimAt(st, j, Held(a)) && !ClaimAt(st, j, Requested(a));
  }

  /** A session that is cancelled before its agent was asked to start it is never started: in
      no continuation does an agent run it or receive a request to, even if an agent already
      lies in its channel. */
  lemma CancelledNeverRuns(st: State, j: Job, acts: seq<Action>)
    requires Reachable(st, 1) && IsRun(st, acts)
    requires InPhase(st, j, Withdrawing) || (InPhase(st, j, Cancelling) && AnswerOutstanding(st, j))
    ensures Withdrawn(Exec(st, acts), j)
  {
    ReachableKeepsInv(st);
    var w, v :| Placed(st, w, v);
    assert SessionFits(st, j, v[j]);
    forall a ensures Spared(st, a, j) {
      WaitingIsSpared(st, v, j, a);
    }
    WithdrawnRun(st, acts, j);
  }

  // ----- Killed sessions ---------------------------------------------------------

  /** A session that is cancelling but has no message coming. */
  ghost predicate Stuck(st: State, v: map<Job, Claim>, j: Job)
  {
    InPhase(st, j, Cancelling) && j in v && (v[j].Held? || v[j].NoClaim?)
  }

  lemma StuckIsUnanswered(st: State, w: map<AgentId, Place>, v: map<Job, Claim>, j: Job)
    requires Placed(st, w, v) && Stuck(st, v, j)
    ensures !AnswerOutstanding(st, j)
  {
    assert !ClaimAt(st, j, AddSent) && !ClaimAt(st, j, Queued) && !ClaimAt(st, j, Matched);
    assert !ClaimAt(st, j, ConfirmDue) && !ClaimAt(st, j, Offered) && !ClaimAt(st, j, ConfirmSent);
  }

  lemma StuckAgentStep(st: State, a: AgentId, x: AgentAct, w: map<AgentId, Place>, v: map<Job, Claim>, j: Job)
    requires Stuck(st, v, j) && AgentEnabled(st, a, x) && AgentStart(st, a, x, w, v)
    ensures Stuck(AgentApply(st, a, x), AgentClaims(st, a, x, v), j)
  {
  }

  lemma StuckSessionStep(st: State, k: Job, x: SessionAct, v: map<Job, Claim>, j: Job)
    requires Stuck(st, v, j) && SessionEnabled(st, k, x)
    requires st.sessions[j].agentChan == [] && st.sessions[j].confirm == 0
    ensures Stuck(SessionApply(st, k, x), SessionClaims(st, k, x, v), j)
  {
  }

  lemma StuckSchedulerStep(st: State, x: SchedulerAct, w: map<AgentId, Place>, v: map<Job, Claim>, j: Job)
    requires Stuck(st, v, j) && SchedulerEnabled(st, x) && SchedulerStart(st, x, w, v)
    ensures Stuck(SchedulerApply(st, x), SchedulerClaims(st, x, v), j)
  {
  }

  lemma StuckStep(st: State, act: Action, w: map<AgentId, Place>, v: map<Job, Claim>, j: Job)
    requires Placed(st, w, v) && Enabled(st, act) && Stuck(st, v, j)
    ensures Stuck(Apply(st, act), NextClaims(st, act, v), j)
  {
    match act
    case Connect(_, _) =>
    case Submit(_) =>
    case ByAgent(a, x) =>
      AgentStepStart(st, a, x, w, v);
      StuckAgentStep(st, a, x, w, v, j);
    case BySession(k, x) =>
      assert !ClaimAt(st, j, Offered) && !ClaimAt(st, j, ConfirmSent);
      StuckSessionStep(st, k, x, v, j);
    case ByScheduler(x) =>
      SchedulerStepStart(st, x, w, v);
      StuckSchedulerStep(st, x, w, v, j);
  }

  lemma {:induction false} StuckRun(st: State, acts: seq<Action>, w: map<AgentId, Place>, v: map<Job, Claim>, j: Job)
    requires Placed(st, w, v) && Stuck(st, v, j)
    requires IsRun(st, acts) && ConnectsWith(acts, 1)
    ensures InPhase(Exec(st, acts), j, Cancelling) && !AnswerOutstanding(Exec(st, acts), j)
    decreases |acts|
  {
    if acts == [] {
      StuckIsUnanswered(st, w, v, j);
    } else {
      StepKeeps(st, acts[0], w, v);
      StuckStep(st, acts[0], w, v, j);
      StuckRun(Apply(st, acts[0]), acts[1..], NextPlaces(st, acts[0], w), NextClaims(st, acts[0], v), j);
    }
  }

  /** A session killed while it waits for its agent's response never finishes: in
      every continuation it stays in Cancelling with no answer outstanding. */
  lemma KilledWhileSentNeverFinishes(st: State, j: Job, acts: seq<Action>)
    requires Reachable(st, 1) && Enabled(st, BySession(j, TakeKilledResponse))
    requires IsRun(Apply(st, BySession(j, TakeKilledResponse)), acts) && ConnectsWith(acts, 1)
    ensures var end := Exec(Apply(st, BySession(j, TakeKilledResponse)), acts);
      InPhase(end, j, Cancelling) && !AnswerOutstanding(end, j)
  {
    ReachableKeepsInv(st);
    var w, v :| Placed(st, w, v);
    var act := BySession(j, TakeKilledResponse);
    assert SessionFits(st, j, v[j]);
    StepKeeps(st, act, w, v);
    StuckRun(Apply(st, act), acts, NextPlaces(st, act, w), NextClaims(st, act, v), j);
  }
}
