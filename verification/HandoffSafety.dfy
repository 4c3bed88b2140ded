/** Safety of the hand-off over every run in which all agents have one slot. */
module HandoffSafety {
  import opened Jobs
  import opened Handoff

  /** Where an agent's token can be. */
  datatype Place =
    | Entering
    | InAddChan
    | InPool
    | InMatch
    | InOffer(j: Job)      // in the session's agentChan
    | InTransfer(j: Job)   // taken by the session, not yet passed on
    | InRequest
    | Working(j: Job)

  ghost predicate At(st: State, a: AgentId, p: Place)
  {
    match p
    case Entering => a in st.agents && st.agents[a].adding
    case InAddChan => a in st.addAgent
    case InPool => a in st.idle
    case InMatch => st.pc.Sending? && st.pc.agent == a
    case InOffer(j) => j in st.sessions && a in st.sessions[j].agentChan
    case InTransfer(j) =>
      j in st.sessions && (st.sessions[j].phase == HandingOver(a) || st.sessions[j].phase == HandingBack(a))
    case InRequest => a in st.agents && st.agents[a].reqs != []
    case Working(j) => a in st.agents && j in st.agents[a].mine
  }

  /** Where a session's claim to one agent can be. */
  datatype Claim =
    | Unsent
    | AddSent
    | Queued
    | Matched
    | Offered
    | Taken
    | Requested(a: AgentId)
    | Held(a: AgentId)
    | ConfirmDue
    | ConfirmSent
    | NoClaim

  ghost predicate ClaimAt(st: State, j: Job, c: Claim)
    requires c != NoClaim
  {
    match c
    case Unsent => InPhase(st, j, Created)
    case AddSent => j in st.addSession
    case Queued => j in st.queue
    case Matched => st.pc.Sending? && st.pc.job == j
    case Offered => j in st.sessions && st.sessions[j].agentChan != []
    case Taken => j in st.sessions && st.sessions[j].phase.HandingOver?
    case Requested(a) => a in st.agents && Request(j, true) in st.agents[a].reqs
    case Held(a) => a in st.agents && j in st.agents[a].mine
    case ConfirmDue => st.pc == Confirming(j)
    case ConfirmSent => j in st.sessions && st.sessions[j].confirm > 0
  }

  /** The claims a session can have while the scheduler still owes it an answer. */
  predicate Waiting(c: Claim)
  {
    c.AddSent? || c.Queued? || c.Matched? || c.Offered?
  }

  predicate PhaseFits(p: Phase, c: Claim)
  {
    match p
    case Created => c.Unsent?
    case Queueing => Waiting(c)
    case Withdrawing => Waiting(c)
    case HandingOver(_) => c.Taken?
    case SentToAgent => c.Requested? || c.Held? || c.NoClaim?
    case Killing => c.Requested? || c.Held? || c.NoClaim?
    case Running => c.Held? || c.NoClaim?
    case Paused => c.NoClaim?
    case Cancelling => Waiting(c) || c.ConfirmDue? || c.ConfirmSent? || c.Held? || c.NoClaim?
    case HandingBack(_) => c.NoClaim?
    case Done(_) => c.NoClaim?
  }

  predicate AwaitsResponse(p: Phase)
  {
    p.SentToAgent? || p.Killing?
  }

  /** The session holds an agent it took from its channel. */
  predicate InHands(p: Phase)
  {
    p.HandingOver? || p.HandingBack?
  }

  /** Each connected agent is at the place `w` names and nowhere else. */
  ghost predicate AgentsPlaced(st: State, w: map<AgentId, Place>)
  {
    && w.Keys == st.agents.Keys
    && forall a, p :: At(st, a, p) <==> a in w && w[a] == p
  }

  /** Each session's claim is the one `v` names and no other. */
  ghost predicate ClaimsPlaced(st: State, v: map<Job, Claim>)
  {
    && v.Keys == st.sessions.Keys
    && forall j, c :: c != NoClaim ==> (ClaimAt(st, j, c) <==> j in v && v[j] == c)
  }

  ghost predicate SessionFits(st: State, j: Job, c: Claim)
    requires j in st.sessions
  {
    var s := st.sessions[j];
    && PhaseFits(s.phase, c)
    && |s.agentChan| <= 1 && s.confirm <= 1 && |s.response| <= 1
    && (s.response != [] ==> AwaitsResponse(s.phase) && !c.Requested?)
    && (s.response == [false] ==> c.NoClaim?)
    && (AwaitsResponse(s.phase) && c.NoClaim? ==> s.response != [])
    && (c.Held? && AwaitsResponse(s.phase) && s.response == [] ==>
          c.a in st.agents && j in st.agents[c.a].starting)
    && (j in st.removeSession ==> s.phase.Cancelling? || s.phase.HandingBack? || s.phase.Done?)
  }

  ghost predicate AgentFits(st: State, a: AgentId)
    requires a in st.agents
  {
    var g := st.agents[a];
    && g.slots == 1
    && |g.reqs| <= 1
    && g.starting <= g.mine
    && |g.mine| <= 1
    && (forall j :: j in g.starting ==>
          j in st.sessions && AwaitsResponse(st.sessions[j].phase) && st.sessions[j].response == [])
  }

  ghost predicate SchedulerFits(st: State)
  {
    && |st.addAgent| <= 1 && |st.addSession| <= 1 && |st.removeSession| <= 1
    && (forall j :: j in st.removeSession ==> j in st.sessions)
    && (st.pc == Top ==> st.idle == {} || st.queue == {} || |st.idle| == 1 || |st.queue| == 1)
    && (st.pc != Top ==> st.idle == {} || st.queue == {})
  }

  ghost predicate AllFit(st: State, v: map<Job, Claim>)
    requires v.Keys == st.sessions.Keys
  {
    && (forall j :: j in st.sessions ==> SessionFits(st, j, v[j]))
    && (forall a :: a in st.agents ==> AgentFits(st, a))
    && SchedulerFits(st)
  }

  ghost predicate Placed(st: State, w: map<AgentId, Place>, v: map<Job, Claim>)
  {
    AgentsPlaced(st, w) && ClaimsPlaced(st, v) && AllFit(st, v)
  }

  ghost predicate Inv(st: State)
  {
    exists w, v :: Placed(st, w, v)
  }

  /** A session nothing touched still fits. */
  lemma SessionFrame(st: State, st': State, k: Job, c: Claim)
    requires k in st.sessions && k in st'.sessions && st'.sessions[k] == st.sessions[k]
    requires k in st'.removeSession ==> k in st.removeSession
    requires c.Held? && c.a in st.agents && k in st.agents[c.a].starting ==>
               c.a in st'.agents && k in st'.agents[c.a].starting
    requires SessionFits(st, k, c)
    ensures SessionFits(st', k, c)
  {
  }

  // ----- Steps of an agent -----------------------------------------------------

  function AgentMoves(st: State, a: AgentId, act: AgentAct, w: map<AgentId, Place>): map<AgentId, Place>
    requires AgentEnabled(st, a, act)
  {
    match act
    case OfferSelf => w[a := InAddChan]
    case TakeRequest =>
      var r := st.agents[a].reqs[0];
      w[a := if r.accept then Working(r.job) else Entering]
    case ReportStarted(_) => w
    case _ => w[a := Entering]
  }

  function AgentClaims(st: State, a: AgentId, act: AgentAct, v: map<Job, Claim>): map<Job, Claim>
    requires AgentEnabled(st, a, act)
  {
    match act
    case OfferSelf => v
    case TakeRequest =>
      var r := st.agents[a].reqs[0];
      if r.accept then v[r.job := Held(a)] else v
    case ReportStarted(_) => v
    case ReportFailed(j) => v[j := NoClaim]
    case ReportCompleted(j) => v[j := NoClaim]
    case ReportCheckpointed(j) => v[j := NoClaim]
  }

  /** What the maps say about the agent and the session an agent step touches. */
  ghost predicate AgentStart(st: State, a: AgentId, act: AgentAct, w: map<AgentId, Place>, v: map<Job, Claim>)
    requires AgentEnabled(st, a, act)
  {
    && a in w && AgentFits(st, a)
    && (act.OfferSelf? ==> w[a] == Entering)
    && (act.TakeRequest? ==> w[a] == InRequest && st.agents[a].mine == {})
    && (act.TakeRequest? && st.agents[a].reqs[0].accept ==>
          var j := st.agents[a].reqs[0].job;
          j in v && v[j] == Requested(a) && j in st.sessions && SessionFits(st, j, v[j]))
    && (!act.OfferSelf? && !act.TakeRequest? ==>
          w[a] == Working(act.j) && act.j in v && v[act.j] == Held(a) && SessionFits(st, act.j, v[act.j]))
  }

  lemma AgentStepStart(st: State, a: AgentId, act: AgentAct, w: map<AgentId, Place>, v: map<Job, Claim>)
    requires Placed(st, w, v) && AgentEnabled(st, a, act)
    ensures AgentStart(st, a, act, w, v)
  {
    match act
    case OfferSelf => assert At(st, a, Entering);
    case TakeRequest =>
      assert At(st, a, InRequest);
      assert forall j :: j in st.agents[a].mine ==> At(st, a, Working(j));
      var r := st.agents[a].reqs[0];
      if r.accept {
        assert r == Request(r.job, true);
        assert ClaimAt(st, r.job, Requested(a));
      }
    case _ =>
      assert At(st, a, Working(act.j)) && ClaimAt(st, act.j, Held(a));
  }

  lemma AgentStepPlace(st: State, a: AgentId, act: AgentAct, w: map<AgentId, Place>, v: map<Job, Claim>, b: AgentId,
          p: Place)
    requires AgentEnabled(st, a, act) && AgentStart(st, a, act, w, v)
    requires At(st, b, p) <==> b in w && w[b] == p
    ensures var w' := AgentMoves(st, a, act, w); At(AgentApply(st, a, act), b, p) <==> b in w' && w'[b] == p
  {
  }

  lemma AgentStepClaim(st: State, a: AgentId, act: AgentAct, w: map<AgentId, Place>, v: map<Job, Claim>, k: Job,
          c: Claim)
    requires AgentEnabled(st, a, act) && AgentStart(st, a, act, w, v)
    requires c != NoClaim && (ClaimAt(st, k, c) <==> k in v && v[k] == c)
    ensures var v' := AgentClaims(st, a, act, v); ClaimAt(AgentApply(st, a, act), k, c) <==> k in v' && v'[k] == c
  {
  }

  lemma ReportFits(st: State, a: AgentId, act: AgentAct, w: map<AgentId, Place>, v: map<Job, Claim>)
    requires AgentEnabled(st, a, act) && AgentStart(st, a, act, w, v)
    requires !act.OfferSelf? && !act.TakeRequest?
    ensures SessionFits(AgentApply(st, a, act), act.j, AgentClaims(st, a, act, v)[act.j])
  {
    var s, s' := st.sessions[act.j], AgentApply(st, a, act).sessions[act.j];
    match act
    case ReportStarted(j) => assert s.response == [] && s'.response[0];
    case ReportFailed(j) => assert s.response == [] && s' == s.(response := [false]);
    case ReportCompleted(j) => assert j !in AgentApply(st, a, act).agents[a].mine;
    case ReportCheckpointed(j) => assert s' == s.(phase := Paused);
  }

  lemma RequestFits(st: State, a: AgentId, w: map<AgentId, Place>, v: map<Job, Claim>)
    requires AgentEnabled(st, a, TakeRequest) && AgentStart(st, a, TakeRequest, w, v)
    requires st.agents[a].reqs[0].accept
    ensures SessionFits(AgentApply(st, a, TakeRequest), st.agents[a].reqs[0].job, Held(a))
  {
  }

  lemma AgentStepElsewhere(st: State, a: AgentId, act: AgentAct, v: map<Job, Claim>, k: Job)
    requires AgentEnabled(st, a, act) && k in st.sessions && k in v
    requires act.TakeRequest? ==> st.agents[a].reqs[0] != Request(k, true)
    requires !act.OfferSelf? && !act.TakeRequest? ==> k != act.j
    ensures var st' := AgentApply(st, a, act);
      && k in st'.sessions && st'.sessions[k] == st.sessions[k] && st'.removeSession == st.removeSession
      && st'.agents.Keys == st.agents.Keys
      && forall b :: b in st.agents && k in st.agents[b].starting ==> k in st'.agents[b].starting
    ensures AgentClaims(st, a, act, v)[k] == v[k]
  {
  }

  lemma AgentStepSession(st: State, a: AgentId, act: AgentAct, w: map<AgentId, Place>, v: map<Job, Claim>, k: Job)
    requires AgentEnabled(st, a, act) && AgentStart(st, a, act, w, v)
    requires k in st.sessions && k in v && SessionFits(st, k, v[k])
    ensures SessionFits(AgentApply(st, a, act), k, AgentClaims(st, a, act, v)[k])
  {
    if act.TakeRequest? && st.agents[a].reqs[0] == Request(k, true) {
      RequestFits(st, a, w, v);
    } else if !act.OfferSelf? && !act.TakeRequest? && k == act.j {
      ReportFits(st, a, act, w, v);
    } else {
      AgentStepElsewhere(st, a, act, v, k);
      SessionFrame(st, AgentApply(st, a, act), k, v[k]);
    }
  }

  lemma AgentStepAgent(st: State, a: AgentId, act: AgentAct, w: map<AgentId, Place>, v: map<Job, Claim>, b: AgentId)
    requires AgentEnabled(st, a, act) && AgentStart(st, a, act, w, v)
    requires b in st.agents && AgentFits(st, b)
    requires act.ReportStarted? || act.ReportFailed? || act.ReportCompleted? || act.ReportCheckpointed? ==>
               b == a || act.j !in st.agents[b].mine
    ensures AgentFits(AgentApply(st, a, act), b)
  {
    if act.TakeRequest? && st.agents[a].reqs[0].accept {
      assert st.agents[a].mine + {st.agents[a].reqs[0].job} == {st.agents[a].reqs[0].job};
    }
  }

  lemma AgentStepKeepsPlaces(st: State, a: AgentId, act: AgentAct, w: map<AgentId, Place>, v: map<Job, Claim>)
    requires Placed(st, w, v) && AgentEnabled(st, a, act) && AgentStart(st, a, act, w, v)
    ensures AgentsPlaced(AgentApply(st, a, act), AgentMoves(st, a, act, w))
  {
    var st', w' := AgentApply(st, a, act), AgentMoves(st, a, act, w);
    assert w'.Keys == st'.agents.Keys;
    forall b, p ensures At(st', b, p) <==> b in w' && w'[b] == p {
      AgentStepPlace(st, a, act, w, v, b, p);
    }
  }

  lemma AgentStepKeepsClaims(st: State, a: AgentId, act: AgentAct, w: map<AgentId, Place>, v: map<Job, Claim>)
    requires Placed(st, w, v) && AgentEnabled(st, a, act) && AgentStart(st, a, act, w, v)
    ensures ClaimsPlaced(AgentApply(st, a, act), AgentClaims(st, a, act, v))
  {
    var st', v' := AgentApply(st, a, act), AgentClaims(st, a, act, v);
    assert v'.Keys == st'.sessions.Keys;
    forall k, c | c != NoClaim ensures ClaimAt(st', k, c) <==> k in v' && v'[k] == c {
      AgentStepClaim(st, a, act, w, v, k, c);
    }
  }

  lemma AgentStepKeepsFit(st: State, a: AgentId, act: AgentAct, w: map<AgentId, Place>, v: map<Job, Claim>)
    requires Placed(st, w, v) && AgentEnabled(st, a, act) && AgentStart(st, a, act, w, v)
    requires AgentClaims(st, a, act, v).Keys == AgentApply(st, a, act).sessions.Keys
    ensures AllFit(AgentApply(st, a, act), AgentClaims(st, a, act, v))
  {
    var st', v' := AgentApply(st, a, act), AgentClaims(st, a, act, v);
    forall k | k in st'.sessions ensures SessionFits(st', k, v'[k]) {
      AgentStepSession(st, a, act, w, v, k);
    }
    forall b | b in st'.agents ensures AgentFits(st', b) {
      if !act.OfferSelf? && !act.TakeRequest? && act.j in st.agents[b].mine {
        assert ClaimAt(st, act.j, Held(b));
      }
      AgentStepAgent(st, a, act, w, v, b);
    }
  }

  // ----- Steps of a session ----------------------------------------------------

  function SessionMoves(st: State, j: Job, act: SessionAct, w: map<AgentId, Place>): map<AgentId, Place>
    requires SessionEnabled(st, j, act)
  {
    match act
    case TakeAgent => w[st.sessions[j].agentChan[0] := InTransfer(j)]
    case TakeLateAgent => w[st.sessions[j].agentChan[0] := InTransfer(j)]
    case SendAccept => w[st.sessions[j].phase.agent := InRequest]
    case SendReject => w[st.sessions[j].phase.agent := InRequest]
    case _ => w
  }

  function SessionClaims(st: State, j: Job, act: SessionAct, v: map<Job, Claim>): map<Job, Claim>
    requires SessionEnabled(st, j, act)
  {
    match act
    case Enqueue => v[j := AddSent]
    case TakeAgent => v[j := Taken]
    case SendAccept => v[j := Requested(st.sessions[j].phase.agent)]
    case TakeLateAgent => v[j := NoClaim]
    case TakeConfirm => v[j := NoClaim]
    case Reschedule => v[j := Unsent]
    case _ => v
  }

  /** What the maps say about the session that steps and the agent it passes on. */
  ghost predicate SessionStart(st: State, j: Job, act: SessionAct, w: map<AgentId, Place>, v: map<Job, Claim>)
    requires SessionEnabled(st, j, act)
  {
    && j in v && SessionFits(st, j, v[j])
    && (act.Enqueue? ==> v[j] == Unsent)
    && (act.TakeAgent? || act.TakeLateAgent? ==>
          var a := st.sessions[j].agentChan[0];
          a in w && w[a] == InOffer(j) && v[j] == Offered)
    && (act.SendAccept? || act.SendReject? ==>
          var a := st.sessions[j].phase.agent;
          a in w && w[a] == InTransfer(j) && AgentFits(st, a) && st.agents[a].reqs == [])
    && (act.SendAccept? ==> v[j] == Taken)
    && (act.TakeConfirm? ==> v[j] == ConfirmSent)
  }

  lemma SessionStepStart(st: State, j: Job, act: SessionAct, w: map<AgentId, Place>, v: map<Job, Claim>)
    requires Placed(st, w, v) && SessionEnabled(st, j, act)
    ensures SessionStart(st, j, act, w, v)
  {
    match act
    case Enqueue => assert ClaimAt(st, j, Unsent);
    case TakeAgent => assert At(st, st.sessions[j].agentChan[0], InOffer(j)) && ClaimAt(st, j, Offered);
    case TakeLateAgent => assert At(st, st.sessions[j].agentChan[0], InOffer(j)) && ClaimAt(st, j, Offered);
    case SendAccept => assert At(st, st.sessions[j].phase.agent, InTransfer(j)) && ClaimAt(st, j, Taken);
    case SendReject => assert At(st, st.sessions[j].phase.agent, InTransfer(j));
    case TakeConfirm => assert ClaimAt(st, j, ConfirmSent);
    case _ =>
  }

  lemma SessionStepPlace(st: State, j: Job, act: SessionAct, w: map<AgentId, Place>, v: map<Job, Claim>, b: AgentId,
          p: Place)
    requires SessionEnabled(st, j, act) && SessionStart(st, j, act, w, v)
    requires At(st, b, p) <==> b in w && w[b] == p
    ensures var w' := SessionMoves(st, j, act, w); At(SessionApply(st, j, act), b, p) <==> b in w' && w'[b] == p
  {
  }

  lemma SessionStepClaim(st: State, j: Job, act: SessionAct, w: map<AgentId, Place>, v: map<Job, Claim>, k: Job,
          c: Claim)
    requires SessionEnabled(st, j, act) && SessionStart(st, j, act, w, v)
    requires c != NoClaim && (ClaimAt(st, k, c) <==> k in v && v[k] == c)
    ensures var v' := SessionClaims(st, j, act, v); ClaimAt(SessionApply(st, j, act), k, c) <==> k in v' && v'[k] == c
  {
  }

  lemma SessionStepSelf(st: State, j: Job, act: SessionAct, w: map<AgentId, Place>, v: map<Job, Claim>)
    requires SessionEnabled(st, j, act) && SessionStart(st, j, act, w, v)
    ensures SessionFits(SessionApply(st, j, act), j, SessionClaims(st, j, act, v)[j])
  {
  }

  lemma SessionStepElsewhere(st: State, j: Job, act: SessionAct, v: map<Job, Claim>, k: Job)
    requires SessionEnabled(st, j, act) && k in st.sessions && k in v && k != j
    ensures var st' := SessionApply(st, j, act);
      && k in st'.sessions && st'.sessions[k] == st.sessions[k]
      && (k in st'.removeSession <==> k in st.removeSession)
      && st'.agents.Keys == st.agents.Keys
      && forall b :: b in st.agents ==> st'.agents[b].starting == st.agents[b].starting
    ensures SessionClaims(st, j, act, v)[k] == v[k]
  {
  }

  lemma SessionStepAgent(st: State, j: Job, act: SessionAct, w: map<AgentId, Place>, v: map<Job, Claim>, b: AgentId)
    requires SessionEnabled(st, j, act) && SessionStart(st, j, act, w, v)
    requires b in st.agents && AgentFits(st, b)
    ensures AgentFits(SessionApply(st, j, act), b)
  {
  }

  lemma SessionStepKeepsPlaces(st: State, j: Job, act: SessionAct, w: map<AgentId, Place>, v: map<Job, Claim>)
    requires Placed(st, w, v) && SessionEnabled(st, j, act) && SessionStart(st, j, act, w, v)
    ensures AgentsPlaced(SessionApply(st, j, act), SessionMoves(st, j, act, w))
  {
    var st', w' := SessionApply(st, j, act), SessionMoves(st, j, act, w);
    assert w'.Keys == st'.agents.Keys;
    forall b, p ensures At(st', b, p) <==> b in w' && w'[b] == p {
      SessionStepPlace(st, j, act, w, v, b, p);
    }
  }

  lemma SessionStepKeepsClaims(st: State, j: Job, act: SessionAct, w: map<AgentId, Place>, v: map<Job, Claim>)
    requires Placed(st, w, v) && SessionEnabled(st, j, act) && SessionStart(st, j, act, w, v)
    ensures ClaimsPlaced(SessionApply(st, j, act), SessionClaims(st, j, act, v))
  {
    var st', v' := SessionApply(st, j, act), SessionClaims(st, j, act, v);
    assert v'.Keys == st'.sessions.Keys;
    forall k, c | c != NoClaim ensures ClaimAt(st', k, c) <==> k in v' && v'[k] == c {
      SessionStepClaim(st, j, act, w, v, k, c);
    }
  }

  lemma SessionStepKeepsFit(st: State, j: Job, act: SessionAct, w: map<AgentId, Place>, v: map<Job, Claim>)
    requires Placed(st, w, v) && SessionEnabled(st, j, act) && SessionStart(st, j, act, w, v)
    requires SessionClaims(st, j, act, v).Keys == SessionApply(st, j, act).sessions.Keys
    ensures AllFit(SessionApply(st, j, act), SessionClaims(st, j, act, v))
  {
    var st', v' := SessionApply(st, j, act), SessionClaims(st, j, act, v);
    forall k | k in st'.sessions ensures SessionFits(st', k, v'[k]) {
      if k == j {
        SessionStepSelf(st, j, act, w, v);
      } else {
        SessionStepElsewhere(st, j, act, v, k);
        SessionFrame(st, st', k, v[k]);
      }
    }
    forall b | b in st'.agents ensures AgentFits(st', b) {
      SessionStepAgent(st, j, act, w, v, b);
    }
  }

  // ----- Steps of the scheduler ------------------------------------------------

  ghost function SchedulerMoves(st: State, act: SchedulerAct, w: map<AgentId, Place>): map<AgentId, Place>
    requires SchedulerEnabled(st, act)
  {
    match act
    case Match(a, _) => w[a := InMatch]
    case SendAgent => w[st.pc.agent := InOffer(st.pc.job)]
    case AddAgent => w[st.addAgent[0] := InPool]
    case _ => w
  }

  ghost function SchedulerClaims(st: State, act: SchedulerAct, v: map<Job, Claim>): map<Job, Claim>
    requires SchedulerEnabled(st, act)
  {
    match act
    case Match(_, j) => v[j := Matched]
    case SendAgent => v[st.pc.job := Offered]
    case AddSession => v[st.addSession[0] := Queued]
    case RemoveSession =>
      var j := st.removeSession[0];
      if j in st.queue then v[j := ConfirmDue] else v
    case SendConfirm => v[st.pc.job := ConfirmSent]
    case _ => v
  }

  /** What the maps say about the agent and the session a scheduler step touches. */
  ghost predicate SchedulerStart(st: State, act: SchedulerAct, w: map<AgentId, Place>, v: map<Job, Claim>)
    requires SchedulerEnabled(st, act)
  {
    && SchedulerFits(st)
    && (act.Match? ==> act.a in w && w[act.a] == InPool)
    && (act.SendAgent? ==> st.pc.agent in w && w[st.pc.agent] == InMatch)
    && (act.AddAgent? ==> st.addAgent[0] in w && w[st.addAgent[0]] == InAddChan)
    && v.Keys == st.sessions.Keys
    && (act.Match? ==> act.j in v && v[act.j] == Queued && SessionFits(st, act.j, Queued))
    && (act.SendAgent? ==> v[st.pc.job] == Matched && SessionFits(st, st.pc.job, Matched))
    && (act.AddSession? ==>
          var j := st.addSession[0]; j in v && v[j] == AddSent && SessionFits(st, j, AddSent))
    && (act.RemoveSession? ==>
          var j := st.removeSession[0]; j in v && (j in st.queue <==> v[j] == Queued) && SessionFits(st, j, v[j]))
    && (act.SendConfirm? ==> v[st.pc.job] == ConfirmDue && SessionFits(st, st.pc.job, ConfirmDue))
  }

  lemma SchedulerStepStart(st: State, act: SchedulerAct, w: map<AgentId, Place>, v: map<Job, Claim>)
    requires Placed(st, w, v) && SchedulerEnabled(st, act)
    ensures SchedulerStart(st, act, w, v)
  {
    match act
    case Match(a, j) => assert At(st, a, InPool) && ClaimAt(st, j, Queued);
    case NoMatch =>
    case SendAgent => assert At(st, st.pc.agent, InMatch) && ClaimAt(st, st.pc.job, Matched);
    case AddAgent => assert At(st, st.addAgent[0], InAddChan);
    case AddSession => assert ClaimAt(st, st.addSession[0], AddSent);
    case RemoveSession =>
      var j := st.removeSession[0];
      assert j in st.queue <==> ClaimAt(st, j, Queued);
    case SendConfirm => assert ClaimAt(st, st.pc.job, ConfirmDue);
  }

  predicate MovesAgent(act: SchedulerAct)
  {
    act.Match? || act.SendAgent? || act.AddAgent?
  }

  lemma SchedulerMovePlace(st: State, act: SchedulerAct, w: map<AgentId, Place>, v: map<Job, Claim>, b: AgentId,
          p: Place)
    requires MovesAgent(act) && SchedulerEnabled(st, act) && SchedulerStart(st, act, w, v)
    requires At(st, b, p) <==> b in w && w[b] == p
    ensures var w' := SchedulerMoves(st, act, w); At(SchedulerApply(st, act), b, p) <==> b in w' && w'[b] == p
  {
  }

  lemma SchedulerStepPlace(st: State, act: SchedulerAct, w: map<AgentId, Place>, v: map<Job, Claim>, b: AgentId,
          p: Place)
    requires SchedulerEnabled(st, act) && SchedulerStart(st, act, w, v)
    requires At(st, b, p) <==> b in w && w[b] == p
    ensures var w' := SchedulerMoves(st, act, w); At(SchedulerApply(st, act), b, p) <==> b in w' && w'[b] == p
  {
    if MovesAgent(act) {
      SchedulerMovePlace(st, act, w, v, b, p);
    }
  }

  lemma SchedulerStepClaim(st: State, act: SchedulerAct, w: map<AgentId, Place>, v: map<Job, Claim>, k: Job, c: Claim)
    requires SchedulerEnabled(st, act) && SchedulerStart(st, act, w, v)
    requires c != NoClaim && (ClaimAt(st, k, c) <==> k in v && v[k] == c)
    ensures var v' := SchedulerClaims(st, act, v); ClaimAt(SchedulerApply(st, act), k, c) <==> k in v' && v'[k] == c
  {
  }

  lemma SchedulerStepSession(st: State, act: SchedulerAct, w: map<AgentId, Place>, v: map<Job, Claim>, k: Job)
    requires SchedulerEnabled(st, act) && SchedulerStart(st, act, w, v)
    requires k in st.sessions && SessionFits(st, k, v[k])
    ensures SessionFits(SchedulerApply(st, act), k, SchedulerClaims(st, act, v)[k])
  {
  }

  lemma SchedulerStepQueues(st: State, act: SchedulerAct, w: map<AgentId, Place>, v: map<Job, Claim>)
    requires SchedulerEnabled(st, act) && SchedulerStart(st, act, w, v)
    ensures SchedulerFits(SchedulerApply(st, act))
  {
    if act.Match? {
      if |st.idle| == 1 { SingletonLeavesNone(st.idle, act.a); }
      if |st.queue| == 1 { SingletonLeavesNone(st.queue, act.j); }
    }
  }

  lemma SingletonLeavesNone<T>(s: set<T>, x: T)
    requires |s| == 1 && x in s
    ensures s - {x} == {}
  {
    assert |s - {x}| == 0;
  }

  lemma SchedulerStepKeepsPlaces(st: State, act: SchedulerAct, w: map<AgentId, Place>, v: map<Job, Claim>)
    requires Placed(st, w, v) && SchedulerEnabled(st, act) && SchedulerStart(st, act, w, v)
    ensures AgentsPlaced(SchedulerApply(st, act), SchedulerMoves(st, act, w))
  {
    var st', w' := SchedulerApply(st, act), SchedulerMoves(st, act, w);
    assert w'.Keys == st'.agents.Keys;
    forall b, p ensures At(st', b, p) <==> b in w' && w'[b] == p {
      SchedulerStepPlace(st, act, w, v, b, p);
    }
  }

  lemma SchedulerStepKeepsClaims(st: State, act: SchedulerAct, w: map<AgentId, Place>, v: map<Job, Claim>)
    requires Placed(st, w, v) && SchedulerEnabled(st, act) && SchedulerStart(st, act, w, v)
    ensures ClaimsPlaced(SchedulerApply(st, act), SchedulerClaims(st, act, v))
  {
    var st', v' := SchedulerApply(st, act), SchedulerClaims(st, act, v);
    assert v'.Keys == st'.sessions.Keys;
    forall k, c | c != NoClaim ensures ClaimAt(st', k, c) <==> k in v' && v'[k] == c {
      SchedulerStepClaim(st, act, w, v, k, c);
    }
  }

  lemma SchedulerStepKeepsFit(st: State, act: SchedulerAct, w: map<AgentId, Place>, v: map<Job, Claim>)
    requires Placed(st, w, v) && SchedulerEnabled(st, act) && SchedulerStart(st, act, w, v)
    requires SchedulerClaims(st, act, v).Keys == SchedulerApply(st, act).sessions.Keys
    ensures AllFit(SchedulerApply(st, act), SchedulerClaims(st, act, v))
  {
    var st', v' := SchedulerApply(st, act), SchedulerClaims(st, act, v);
    forall k | k in st'.sessions ensures SessionFits(st', k, v'[k]) {
      SchedulerStepSession(st, act, w, v, k);
    }
    forall b | b in st'.agents ensures AgentFits(st', b) {
      assert AgentFits(st, b);
    }
    SchedulerStepQueues(st, act, w, v);
  }
}
