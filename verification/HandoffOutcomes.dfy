/** How sessions end: what an agent reports decides what becomes of its session, no outcome
    comes without its cause, and a finished session stays finished. */
module HandoffOutcomes {
  import opened Jobs
  import opened Handoff
  import opened HandoffSafety
  import opened HandoffTheorems

  // ----- No outcome without its cause ---------------------------------------------------

  predicate Reported(hist: seq<Action>, x: AgentAct)
  {
    exists i :: 0 <= i < |hist| && hist[i].ByAgent? && hist[i].agentAct == x
  }

  predicate Asked(hist: seq<Action>, j: Job, x: SessionAct)
  {
    BySession(j, x) in hist
  }

  /** What must have happened to a session that is in phase `p`. */
  predicate CauseOf(hist: seq<Action>, j: Job, p: Phase)
  {
    match p
    case Running => Reported(hist, ReportStarted(j))
    case Paused => Reported(hist, ReportCheckpointed(j))
    case Killing => Asked(hist, j, Kill)
    case Withdrawing => Asked(hist, j, Cancel)
    case Cancelling => Asked(hist, j, Cancel) || Asked(hist, j, Kill)
    case HandingBack(_) => Asked(hist, j, Cancel) || Asked(hist, j, Kill)
    case Done(true) => Asked(hist, j, Cancel) || Asked(hist, j, Kill)
    case Done(false) => Reported(hist, ReportFailed(j)) || Reported(hist, ReportCompleted(j))
    case _ => true
  }

  /** Responses come from reports, and the phase has its cause. */
  ghost predicate Caused(hist: seq<Action>, st: State, j: Job)
  {
    j in st.sessions ==>
      && CauseOf(hist, j, st.sessions[j].phase)
      && (true in st.sessions[j].response ==> Reported(hist, ReportStarted(j)))
      && (false in st.sessions[j].response ==> Reported(hist, ReportFailed(j)))
  }

  lemma CauseStays(hist: seq<Action>, act: Action, j: Job)
    ensures forall x :: Reported(hist, x) ==> Reported(hist + [act], x)
    ensures forall x :: Asked(hist, j, x) ==> Asked(hist + [act], j, x)
    ensures act.ByAgent? ==> Reported(hist + [act], act.agentAct)
    ensures act.BySession? && act.j == j ==> Asked(hist + [act], j, act.sessionAct)
  {
    var all := hist + [act];
    assert all[|hist|] == act && act in all;
    forall x | Reported(hist, x) ensures Reported(all, x) {
      var i :| 0 <= i < |hist| && hist[i].ByAgent? && hist[i].agentAct == x;
      assert all[i] == hist[i];
    }
  }

  lemma CausedByAgent(hist: seq<Action>, st: State, a: AgentId, x: AgentAct, j: Job)
    requires Caused(hist, st, j) && AgentEnabled(st, a, x)
    ensures Caused(hist + [ByAgent(a, x)], AgentApply(st, a, x), j)
  {
    CauseStays(hist, ByAgent(a, x), j);
  }

  lemma CausedBySession(hist: seq<Action>, st: State, k: Job, x: SessionAct, j: Job)
    requires Caused(hist, st, j) && SessionEnabled(st, k, x)
    ensures Caused(hist + [BySession(k, x)], SessionApply(st, k, x), j)
  {
    CauseStays(hist, BySession(k, x), j);
  }

  lemma CausedStep(hist: seq<Action>, st: State, act: Action, j: Job)
    requires Caused(hist, st, j) && Enabled(st, act)
    ensures Caused(hist + [act], Apply(st, act), j)
  {
    match act
    case ByAgent(a, x) => CausedByAgent(hist, st, a, x, j);
    case BySession(k, x) => CausedBySession(hist, st, k, x, j);
    case _ => CauseStays(hist, act, j);
  }

  lemma {:induction false} CausedRun(hist: seq<Action>, st: State, acts: seq<Action>, j: Job)
    requires Caused(hist, st, j) && IsRun(st, acts)
    ensures Caused(hist + acts, Exec(st, acts), j)
    decreases |acts|
  {
    if acts == [] {
      assert hist + acts == hist;
    } else {
      CausedStep(hist, st, acts[0], j);
      CausedRun(hist + [acts[0]], Apply(st, acts[0]), acts[1..], j);
      assert hist + [acts[0]] + acts[1..] == hist + acts;
    }
  }

  /** In every run, for agents with any number of slots: a session only runs after an agent
      reported that it started, is only paused after a checkpoint was reported, only ends as
      cancelled after it was cancelled or killed, and only ends otherwise after an agent
      reported that it failed or completed. */
  lemma OutcomeHasCause(acts: seq<Action>, j: Job)
    requires IsRun(Init, acts) && j in Exec(Init, acts).sessions
    ensures CauseOf(acts, j, Exec(Init, acts).sessions[j].phase)
  {
    CausedRun([], Init, acts, j);
    assert [] + acts == acts;
  }

  // ----- Finished is finished ------------------------------------------------------------------

  /** A finished session never changes its outcome. */
  lemma {:induction false} DoneIsFinal(st: State, j: Job, cancelled: bool, acts: seq<Action>)
    requires InPhase(st, j, Done(cancelled)) && IsRun(st, acts)
    ensures InPhase(Exec(st, acts), j, Done(cancelled))
    decreases |acts|
  {
    if acts != [] {
      DoneIsFinal(Apply(st, acts[0]), j, cancelled, acts[1..]);
    }
  }

  // ----- What a report leads to -------------------------------------------------------------------

  /** The session has or will have ended without running: an agent failed to start it. */
  ghost predicate NotStarted(st: State, j: Job)
  {
    && j in st.sessions && (forall a :: Spared(st, a, j))
    && var s := st.sessions[j];
      (AwaitsResponse(s.phase) && s.response == [false]) || s.phase == Done(false) || WindingDown(s.phase)
  }

  lemma NotStartedAgentStep(st: State, a: AgentId, x: AgentAct, j: Job)
    requires NotStarted(st, j) && AgentEnabled(st, a, x)
    ensures NotStarted(AgentApply(st, a, x), j)
  {
    var st' := AgentApply(st, a, x);
    assert Spared(st, a, j);
    forall b ensures Spared(st', b, j) {
      assert Spared(st, b, j);
    }
  }

  lemma NotStartedSessionStep(st: State, k: Job, x: SessionAct, j: Job)
    requires NotStarted(st, j) && SessionEnabled(st, k, x)
    ensures NotStarted(SessionApply(st, k, x), j)
  {
    var st' := SessionApply(st, k, x);
    forall b ensures Spared(st', b, j) {
      assert Spared(st, b, j);
    }
  }

  lemma NotStartedStep(st: State, act: Action, j: Job)
    requires NotStarted(st, j) && Enabled(st, act)
    ensures NotStarted(Apply(st, act), j)
  {
    match act
    case ByAgent(a, x) => NotStartedAgentStep(st, a, x, j);
    case BySession(k, x) => NotStartedSessionStep(st, k, x, j);
    case _ =>
      forall b ensures Spared(Apply(st, act), b, j) {
        assert Spared(st, b, j);
      }
  }

  lemma {:induction false} NotStartedRun(st: State, acts: seq<Action>, j: Job)
    requires NotStarted(st, j) && IsRun(st, acts)
    ensures NotStarted(Exec(st, acts), j)
    decreases |acts|
  {
    if acts != [] {
      NotStartedStep(st, acts[0], j);
      NotStartedRun(Apply(st, acts[0]), acts[1..], j);
    }
  }

  /** Once an agent lets go of a session, no agent has it. */
  lemma LetGo(st: State, a: AgentId, x: AgentAct, j: Job)
    requires Inv(st) && AgentEnabled(st, a, x) && x in {ReportFailed(j), ReportCompleted(j), ReportCheckpointed(j)}
    ensures forall b :: Spared(AgentApply(st, a, x), b, j)
  {
    var w, v :| Placed(st, w, v);
    assert ClaimAt(st, j, Held(a));
    forall b ensures Spared(AgentApply(st, a, x), b, j) {
      assert ClaimAt(st, j, Held(b)) <==> b == a;
      assert !ClaimAt(st, j, Requested(b));
    }
  }

  /** An agent that starts a session has not answered yet, and the session waits for it. */
  lemma StartingIsAwaited(st: State, a: AgentId, j: Job)
    requires Inv(st) && Runs(st, a, j, true)
    ensures AwaitsResponse(st.sessions[j].phase) && st.sessions[j].response == []
  {
    var w, v :| Placed(st, w, v);
    assert AgentFits(st, a);
  }

  /** An agent reports that it could not start a session: from then on no agent runs the
      session or is asked to, and the session never runs; its own next step ends it, unless
      it has been killed meanwhile. */
  lemma FailedStartNeverRuns(st: State, a: AgentId, j: Job, acts: seq<Action>)
    requires Reachable(st, 1) && Enabled(st, ByAgent(a, ReportFailed(j)))
    requires IsRun(Apply(st, ByAgent(a, ReportFailed(j))), acts)
    ensures var end := Exec(Apply(st, ByAgent(a, ReportFailed(j))), acts);
      !InPhase(end, j, Running) && forall b :: Spared(end, b, j)
    ensures var st1 := Apply(st, ByAgent(a, ReportFailed(j)));
      InPhase(st, j, SentToAgent) ==>
        && Enabled(st1, BySession(j, TakeResponse))
        && InPhase(Apply(st1, BySession(j, TakeResponse)), j, Done(false))
  {
    ReachableKeepsInv(st);
    LetGo(st, a, ReportFailed(j), j);
    StartingIsAwaited(st, a, j);
    NotStartedRun(Apply(st, ByAgent(a, ReportFailed(j))), acts, j);
  }

  /** An agent reports that it started a session: the session's own next step makes it run,
      on that agent. */
  lemma StartedRuns(st: State, a: AgentId, j: Job)
    requires Reachable(st, 1) && InPhase(st, j, SentToAgent) && Enabled(st, ByAgent(a, ReportStarted(j)))
    ensures var st1 := Apply(st, ByAgent(a, ReportStarted(j)));
      && Enabled(st1, BySession(j, TakeResponse))
      && var st2 := Apply(st1, BySession(j, TakeResponse));
        InPhase(st2, j, Running) && a in st2.agents && j in st2.agents[a].mine
  {
    ReachableKeepsInv(st);
    StartingIsAwaited(st, a, j);
  }

  /** An agent reports that a running session completed: it has ended for good, no agent has
      it, and the agent offers itself again. */
  lemma CompletedIsFinal(st: State, a: AgentId, j: Job, acts: seq<Action>)
    requires Reachable(st, 1) && InPhase(st, j, Running) && Enabled(st, ByAgent(a, ReportCompleted(j)))
    requires IsRun(Apply(st, ByAgent(a, ReportCompleted(j))), acts)
    ensures var st1 := Apply(st, ByAgent(a, ReportCompleted(j)));
      && a in st1.agents && st1.agents[a].adding
      && InPhase(Exec(st1, acts), j, Done(false)) && forall b :: Spared(Exec(st1, acts), b, j)
  {
    ReachableKeepsInv(st);
    LetGo(st, a, ReportCompleted(j), j);
    var st1 := Apply(st, ByAgent(a, ReportCompleted(j)));
    DoneIsFinal(st1, j, false, acts);
    NotStartedRun(st1, acts, j);
  }

  /** An agent reports a checkpoint: no agent has the session any more, the agent offers itself
      again, and the session's own next steps put it back into the queue's channel. */
  lemma CheckpointedResumes(st: State, a: AgentId, j: Job)
    requires Reachable(st, 1) && Enabled(st, ByAgent(a, ReportCheckpointed(j)))
    ensures var st1 := Apply(st, ByAgent(a, ReportCheckpointed(j)));
      && InPhase(st1, j, Paused) && a in st1.agents && st1.agents[a].adding
      && (forall b :: Spared(st1, b, j)) && Enabled(st1, BySession(j, Reschedule))
      && var st2 := Apply(st1, BySession(j, Reschedule));
        && (st2.addSession == [] ==> Enabled(st2, BySession(j, Enqueue)))
        && (Enabled(st2, BySession(j, Enqueue)) ==> j in Apply(st2, BySession(j, Enqueue)).addSession)
  {
    ReachableKeepsInv(st);
    LetGo(st, a, ReportCheckpointed(j), j);
  }

  /** The scheduler matches no session while one with a smaller (priority, id) is queued. */
  lemma NoneOvertakes(st: State, a: AgentId, j: Job, k: Job)
    requires Enabled(st, ByScheduler(Match(a, j))) && k in st.queue && k != j
    ensures j.priority < k.priority || (j.priority == k.priority && StringLess(j.id, k.id))
  {
    CompareIsTotalOrder(j, k, j);
  }

  /** A connecting agent gets the slots it reports, or one if it reports none, and its request
      channel has room for as many requests as it has slots. */
  lemma ConnectedAgent(st: State, a: AgentId, reported: int, waiting: seq<Request>)
    requires Enabled(st, Connect(a, reported))
    ensures var st' := Apply(st, Connect(a, reported));
      var full := SetAgent(st', a, st'.agents[a].(reqs := waiting));
      && st'.agents[a].adding && st'.agents[a].mine == {} && st'.agents[a].reqs == []
      && (RoomForRequest(full, a) <==> |waiting| < if reported >= 1 then reported else 1)
  {
  }

  /** An agent that is about to offer itself does nothing else until it has. */
  lemma OfferComesFirst(st: State, a: AgentId, x: AgentAct)
    requires a in st.agents && st.agents[a].adding && AgentEnabled(st, a, x)
    ensures x == OfferSelf && AgentApply(st, a, x).addAgent == st.addAgent + [a]
  {
  }
}
