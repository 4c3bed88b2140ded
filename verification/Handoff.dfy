/** The hand-off of agents to sessions in one pool, as an action system.

    Three kinds of goroutine run side by side: one scheduler, one loop per
    session and one loop per agent. They only share channels. Every action below
    is one atomic step of one goroutine; a blocking send is a step of its own whose
    guard is that the buffer has room, so a goroutine that waits at a send stays in
    the phase that precedes it. */
module Handoff {
  import opened Jobs

  type AgentId = string

  /** A message on an agent's `sessionReq` channel. */
  datatype Request = Request(job: Job, accept: bool)

  /** Where a session's scheduling loop stands. */
  datatype Phase =
    | Created                      // about to send itself on addSession
    | Queueing
    | Withdrawing                  // about to send itself on removeSession
    | HandingOver(agent: AgentId)  // about to send an accepted request
    | SentToAgent
    | Killing                      // killed in SentToAgent, waits for the response
    | Running
    | Paused                       // checkpointed
    | Cancelling
    | HandingBack(agent: AgentId)  // about to send a rejected request
    | Done(cancelled: bool)

  datatype Session = Session(
    phase: Phase,
    agentChan: seq<AgentId>,
    confirm: nat,                  // messages in cancelConfirm
    response: seq<bool>)           // agentResponse, true for a started session

  datatype Agent = Agent(
    slots: nat,
    adding: bool,                  // about to send itself on addAgent
    mine: set<Job>,                // mySessions
    starting: set<Job>,            // sessions whose init response is outstanding
    reqs: seq<Request>)            // sessionReq

  datatype SchedulerPc =
    | Top
    | Select
    | Sending(job: Job, agent: AgentId)
    | Confirming(job: Job)

  datatype State = State(
    agents: map<AgentId, Agent>,
    sessions: map<Job, Session>,
    addAgent: seq<AgentId>,
    addSession: seq<Job>,
    removeSession: seq<Job>,
    idle: set<AgentId>,            // the scheduler's agent map
    queue: set<Job>,               // the scheduler's session set
    pc: SchedulerPc)

  /** Steps of an agent's loop; the reports come from its worker. */
  datatype AgentAct =
    | OfferSelf
    | TakeRequest
    | ReportStarted(j: Job)
    | ReportFailed(j: Job)
    | ReportCompleted(j: Job)
    | ReportCheckpointed(j: Job)

  /** Steps of a session's scheduling loop. */
  datatype SessionAct =
    | Enqueue
    | Cancel
    | SendRemove
    | TakeAgent
    | SendAccept
    | TakeResponse
    | Kill
    | TakeKilledResponse
    | TakeConfirm
    | TakeLateAgent
    | SendReject
    | Reschedule

  /** Steps of the scheduler's loop. */
  datatype SchedulerAct =
    | Match(a: AgentId, j: Job)
    | NoMatch
    | SendAgent
    | AddAgent
    | AddSession
    | RemoveSession
    | SendConfirm

  datatype Action =
    | Connect(a: AgentId, reported: int)
    | Submit(j: Job)
    | ByAgent(a: AgentId, agentAct: AgentAct)
    | BySession(j: Job, sessionAct: SessionAct)
    | ByScheduler(schedulerAct: SchedulerAct)

  /** Buffer size of the scheduler's and the sessions' channels. */
  const BUFFER := 1

  const Init := State(map[], map[], [], [], [], {}, {}, Top)

  /** A reported slot count of zero or less means one slot. */
  function Slots(reported: int): nat
  {
    if reported <= 0 then 1 else reported
  }

  predicate InPhase(st: State, j: Job, p: Phase)
  {
    j in st.sessions && st.sessions[j].phase == p
  }

  /** The channel of `a` has room for a request. */
  predicate RoomForRequest(st: State, a: AgentId)
  {
    a in st.agents && |st.agents[a].reqs| < st.agents[a].slots
  }

  /** The agent runs `j`, and the worker's init response for it is still out iff `starting`. */
  predicate Runs(st: State, a: AgentId, j: Job, starting: bool)
  {
    && a in st.agents && !st.agents[a].adding
    && j in st.agents[a].mine && (j in st.agents[a].starting <==> starting)
    && j in st.sessions
  }

  function SetSession(st: State, j: Job, s: Session): State
  {
    st.(sessions := st.sessions[j := s])
  }

  function SetPhase(st: State, j: Job, p: Phase): State
    requires j in st.sessions
  {
    SetSession(st, j, st.sessions[j].(phase := p))
  }

  function SetAgent(st: State, a: AgentId, g: Agent): State
  {
    st.(agents := st.agents[a := g])
  }

  function SendRequest(st: State, a: AgentId, r: Request): State
    requires a in st.agents
  {
    SetAgent(st, a, st.agents[a].(reqs := st.agents[a].reqs + [r]))
  }

  // ----- The agent -------------------------------------------------------------

  predicate AgentEnabled(st: State, a: AgentId, act: AgentAct)
  {
    a in st.agents &&
    match act
    case OfferSelf => st.agents[a].adding && |st.addAgent| < BUFFER
    case TakeRequest => !st.agents[a].adding && st.agents[a].reqs != []
    case ReportStarted(j) => Runs(st, a, j, true) && |st.sessions[j].response| < BUFFER
    case ReportFailed(j) => Runs(st, a, j, true) && |st.sessions[j].response| < BUFFER
    case ReportCompleted(j) => Runs(st, a, j, false)
    case ReportCheckpointed(j) => Runs(st, a, j, false) && st.sessions[j].phase == Running
  }

  /** A rejected request puts the agent back into the pool. An accepted one is
      recorded, and the agent offers itself again only while it has free slots. */
  function AfterRequest(g: Agent): Agent
    requires g.reqs != []
  {
    var r, rest := g.reqs[0], g.reqs[1..];
    if !r.accept then
      g.(adding := true, reqs := rest)
    else
      var mine := g.mine + {r.job};
      g.(adding := g.slots > |mine|, mine := mine, starting := g.starting + {r.job}, reqs := rest)
  }

  /** The agent forgets `j` and offers itself again, whatever else it still runs. */
  function Release(g: Agent, j: Job): Agent
  {
    g.(adding := true, mine := g.mine - {j}, starting := g.starting - {j})
  }

  function Respond(s: Session, started: bool): Session
  {
    s.(response := s.response + [started])
  }

  function AgentApply(st: State, a: AgentId, act: AgentAct): State
    requires AgentEnabled(st, a, act)
  {
    var g := st.agents[a];
    match act
    case OfferSelf => SetAgent(st, a, g.(adding := false)).(addAgent := st.addAgent + [a])
    case TakeRequest => SetAgent(st, a, AfterRequest(g))
    case ReportStarted(j) =>
      SetSession(SetAgent(st, a, g.(starting := g.starting - {j})), j, Respond(st.sessions[j], true))
    case ReportFailed(j) =>
      SetSession(SetAgent(st, a, Release(g, j)), j, Respond(st.sessions[j], false))
    case ReportCompleted(j) =>
      var p := st.sessions[j].phase;
      SetPhase(SetAgent(st, a, Release(g, j)), j, if p == Running then Done(false) else p)
    case ReportCheckpointed(j) => SetPhase(SetAgent(st, a, Release(g, j)), j, Paused)
  }

  // ----- The session -----------------------------------------------------------

  predicate SessionEnabled(st: State, j: Job, act: SessionAct)
  {
    j in st.sessions &&
    var s := st.sessions[j];
    match act
    case Enqueue => s.phase == Created && |st.addSession| < BUFFER
    case Cancel => s.phase == Queueing
    case SendRemove => s.phase == Withdrawing && |st.removeSession| < BUFFER
    case TakeAgent => s.phase == Queueing && s.agentChan != []
    case SendAccept => s.phase.HandingOver? && RoomForRequest(st, s.phase.agent)
    case TakeResponse => s.phase == SentToAgent && s.response != []
    case Kill => s.phase == SentToAgent
    case TakeKilledResponse => s.phase == Killing && s.response != []
    case TakeConfirm => s.phase == Cancelling && s.confirm > 0
    case TakeLateAgent => s.phase == Cancelling && s.agentChan != []
    case SendReject => s.phase.HandingBack? && RoomForRequest(st, s.phase.agent)
    case Reschedule => s.phase == Paused
  }

  function SessionApply(st: State, j: Job, act: SessionAct): State
    requires SessionEnabled(st, j, act)
  {
    var s := st.sessions[j];
    match act
    case Enqueue => SetPhase(st, j, Queueing).(addSession := st.addSession + [j])
    case Cancel => SetPhase(st, j, Withdrawing)
    case SendRemove => SetPhase(st, j, Cancelling).(removeSession := st.removeSession + [j])
    case TakeAgent => SetSession(st, j, s.(phase := HandingOver(s.agentChan[0]), agentChan := s.agentChan[1..]))
    case SendAccept => SendRequest(SetPhase(st, j, SentToAgent), s.phase.agent, Request(j, true))
    case TakeResponse =>
      SetSession(st, j, s.(phase := if s.response[0] then Running else Done(false), response := s.response[1..]))
    case Kill => SetPhase(st, j, Killing)
    case TakeKilledResponse => SetSession(st, j, s.(phase := Cancelling, response := s.response[1..]))
    case TakeConfirm => SetSession(st, j, s.(phase := Done(true), confirm := s.confirm - 1))
    case TakeLateAgent => SetSession(st, j, s.(phase := HandingBack(s.agentChan[0]), agentChan := s.agentChan[1..]))
    case SendReject => SendRequest(SetPhase(st, j, Done(true)), s.phase.agent, Request(j, false))
    case Reschedule => SetPhase(st, j, Created)
  }

  // ----- The scheduler ---------------------------------------------------------

  ghost predicate SchedulerEnabled(st: State, act: SchedulerAct)
  {
    match act
    case Match(a, j) => st.pc == Top && a in st.idle && IsLeast(j, st.queue)
    case NoMatch => st.pc == Top && (st.idle == {} || st.queue == {})
    case SendAgent => st.pc.Sending? && st.pc.job in st.sessions && |st.sessions[st.pc.job].agentChan| < BUFFER
    case AddAgent => st.pc == Select && st.addAgent != []
    case AddSession => st.pc == Select && st.addSession != []
    case RemoveSession => st.pc == Select && st.removeSession != []
    case SendConfirm => st.pc.Confirming? && st.pc.job in st.sessions && st.sessions[st.pc.job].confirm < BUFFER
  }

  ghost function SchedulerApply(st: State, act: SchedulerAct): State
    requires SchedulerEnabled(st, act)
  {
    match act
    case Match(a, j) => st.(idle := st.idle - {a}, queue := st.queue - {j}, pc := Sending(j, a))
    case NoMatch => st.(pc := Select)
    case SendAgent =>
      var s := st.sessions[st.pc.job];
      SetSession(st, st.pc.job, s.(agentChan := s.agentChan + [st.pc.agent])).(pc := Select)
    case AddAgent => st.(idle := st.idle + {st.addAgent[0]}, addAgent := st.addAgent[1..], pc := Top)
    case AddSession => st.(queue := st.queue + {st.addSession[0]}, addSession := st.addSession[1..], pc := Top)
    case RemoveSession =>
      var j := st.removeSession[0];
      st.(queue := st.queue - {j}, removeSession := st.removeSession[1..],
          pc := if j in st.queue then Confirming(j) else Top)
    case SendConfirm =>
      var s := st.sessions[st.pc.job];
      SetSession(st, st.pc.job, s.(confirm := s.confirm + 1)).(pc := Top)
  }

  // ----- The whole system ------------------------------------------------------

  ghost predicate Enabled(st: State, act: Action)
  {
    match act
    case Connect(a, _) => a !in st.agents
    case Submit(j) => j !in st.sessions
    case ByAgent(a, x) => AgentEnabled(st, a, x)
    case BySession(j, x) => SessionEnabled(st, j, x)
    case ByScheduler(x) => SchedulerEnabled(st, x)
  }

  ghost function Apply(st: State, act: Action): State
    requires Enabled(st, act)
  {
    match act
    case Connect(a, reported) => SetAgent(st, a, Agent(Slots(reported), true, {}, {}, []))
    case Submit(j) => SetSession(st, j, Session(Created, [], 0, []))
    case ByAgent(a, x) => AgentApply(st, a, x)
    case BySession(j, x) => SessionApply(st, j, x)
    case ByScheduler(x) => SchedulerApply(st, x)
  }

  // ----- Runs ------------------------------------------------------------------

  /** `acts` can be taken one after the other from `st`. */
  ghost predicate IsRun(st: State, acts: seq<Action>)
    decreases |acts|
  {
    acts == [] || (Enabled(st, acts[0]) && IsRun(Apply(st, acts[0]), acts[1..]))
  }

  ghost function Exec(st: State, acts: seq<Action>): State
    requires IsRun(st, acts)
    decreases |acts|
  {
    if acts == [] then st else Exec(Apply(st, acts[0]), acts[1..])
  }

  /** Every agent that connects in `acts` ends up with exactly `n` slots. */
  predicate ConnectsWith(acts: seq<Action>, n: nat)
  {
    forall i :: 0 <= i < |acts| && acts[i].Connect? ==> Slots(acts[i].reported) == n
  }

  ghost predicate Reachable(st: State, n: nat)
  {
    exists acts :: IsRun(Init, acts) && ConnectsWith(acts, n) && Exec(Init, acts) == st
  }

  lemma {:induction false} RunsCompose(st: State, xs: seq<Action>, ys: seq<Action>)
    requires IsRun(st, xs) && IsRun(Exec(st, xs), ys)
    ensures IsRun(st, xs + ys) && Exec(st, xs + ys) == Exec(Exec(st, xs), ys)
    decreases |xs|
  {
    if xs == [] {
      assert xs + ys == ys;
    } else {
      assert (xs + ys)[1..] == xs[1..] + ys;
      RunsCompose(Apply(st, xs[0]), xs[1..], ys);
    }
  }
}
