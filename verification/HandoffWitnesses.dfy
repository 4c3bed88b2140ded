/** Runs that show that the special cases of the hand-off do occur. */
module HandoffWitnesses {
  import opened Jobs
  import opened Handoff
  import opened HandoffTheorems
  import opened HandoffSlots

  /** A session is killed while its agent starts it, and the agent then answers. */
  lemma KilledWhileSent() returns (st: State, a: AgentId, j: Job)
    ensures Reachable(st, 1) && Enabled(st, BySession(j, TakeKilledResponse))
  {
    st, a := ConnectOne(1);
    st, j := ServeOne(st, a, 1, {});
    st := Go(st, 1, BySession(j, Kill));
    st := Go(st, 1, ByAgent(a, ReportStarted(j)));
  }

  /** Such a session waits for an answer that nobody owes it. */
  lemma StuckSessionExists() returns (st: State, j: Job)
    ensures Reachable(st, 1) && InPhase(st, j, Cancelling) && !AnswerOutstanding(st, j)
  {
    var before, a;
    before, a, j := KilledWhileSent();
    st := Go(before, 1, BySession(j, TakeKilledResponse));
    assert IsRun(st, []) && ConnectsWith([], 1) && Exec(st, []) == st;
    KilledWhileSentNeverFinishes(before, j, []);
  }

  /** A cancel races with a match: the session is cancelling with an agent in its channel. */
  lemma LateAgentExists() returns (st: State, j: Job)
    ensures Reachable(st, 1) && InPhase(st, j, Cancelling) && st.sessions[j].agentChan != []
  {
    var a;
    st, a := ConnectOne(1);
    j := FreshJob(st.sessions.Keys);
    st := MatchNew(st, a, 1, j);
    st := Go(st, 1, BySession(j, Cancel));
    st := Go(st, 1, BySession(j, SendRemove));
  }
}
