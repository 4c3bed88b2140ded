# Verified models of the broker, exporter, file server and agent

This project models the algorithmic core of the velda repository in Dafny and proves
what that core is meant to guarantee. The whole project verifies with one command:

    dafny verify dfyconfig.toml

The source is written in Go. Goroutines that share channels become action systems whose
steps are single channel operations, and theorems about them hold for every run. Objects
that are updated under a lock become classes whose methods are proved against functions
on values; the properties are then proved of those functions.

## What is modelled

- **Scheduling** (`Jobs`, `Scheduler`): the scheduler's loop over agents and an ordered
  set of sessions, for every order in which its channels deliver.
- **Hand-off** (`Handoff*`): the scheduler, all session loops and all agent loops
  together. An agent is a token that moves through bounded channels; a cancel may race
  with a match, and a removal may overtake the addition of the same session. Safety is
  proved for agents with one slot, the default. For more slots it is false, and
  `HandoffSlots` proves that: an agent offers itself again after every completion, also
  when it is already on offer.
- **Autoscaling** (`AutoScaler`, `PoolMaintenance`, `GrowLoop`, `PoolSync`, `PoolRuns`,
  `PoolLaws`, `PoolWitnesses`, `AutoScaledPool`):
  the pool object with its status index, the incrementally kept total of idle slots, the
  grow and shrink loops and the synchronisation with the backend. `Drift` is the difference
  between the kept total and the sum it stands for. Every operation states how it changes
  the drift; three of them can make it non-zero, and for each the exact condition is given.
- **Export layers** (`Layers`, `LayerPartition`, `LayerTheorems`, `LayerSizes`,
  `LayerThreshold`): the bottom-up split of a file tree and the top-down walk of each layer, which must agree.
- **Export configuration** (`ExportConfig*`): the loader of configurations that include
  each other, possibly in cycles.
- **File-server protocol** (`Varint`, `Messages`, `MessageStreams`, `Layouts`, `Packets`,
  `Chunks`, `CacheAttribute`): numbers, message bodies, frames, compression, the splitting
  of long replies into chunks, and the attribute that caches content hashes.
- **Shell quoting** (`Shell`), the **process reaper** (`Waiter`), **gang scheduling**
  (`Gang`) and the **session index** (`SessionDb`).

Where the code and its comments disagree the model follows the code. The size recorded
with a layer is described as an estimate of the regular files in it; the code also counts
symbolic links and the sockets, pipes and devices that are never archived, and
`LayerSizeIsMet` states what it counts.

## Properties that do not hold

Each is kept as the code has it, with the exact condition under which it does hold.

- The slot bound of an agent: exactly for one slot (`SlotBoundHoldsIffOneSlot`).
- A cancelling session finishes: exactly when the scheduler owes it an answer
  (`CancellingFinishesIff`); a session killed while it is being started never does.
- The idle total equals its sum: exactly in the runs described by `RunStaysRightIff`. It
  goes wrong after a negative slot report, after a failure event for a worker that was told
  to stop while it held slots, and after a change of the default slots with unnamed workers
  pending; `PoolWitnesses` gives a run of a new pool for each.
- The grow loop ends: exactly when its backend does not in the end only name workers that
  are already pending with the default slots (`NeverEndsIff`). It ends for a backend that
  names new workers (`GrowIsBounded`) and not for one that repeats a name
  (`NamesakeNeverEnds`, `EndlessPassExists`).
- Every exited process is reaped before the loop waits without a signal pending: exactly in
  the runs in which each error of the wait call finds no exited child or leaves a further
  signal pending (`AccountedIff`, `ErrorLeavesZombie`).
- Decoding inverts encoding: exactly within the reader's limits (`MessageRoundTripsIff`);
  the writer checks neither the length of a file handle nor that of data to be written.
- The service index equals the sessions: exactly when no operation names a session that
  is registered with another, non-empty service name (`RegisterKeepsIff`, `RemoveKeepsIff`, `RunKeepsIndexIff`).

## Model

| member | source | states |
|---|---|---|
| Jobs.CompareIsTotalOrder | pkg/broker/scheduler.go:156-171 | The session comparator is a total order by priority first and then by id: antisymmetric, transitive, and zero only for equal keys. |
| Jobs.StringLessIff | pkg/broker/scheduler.go:156-171 | One id is less than another exactly if they agree up to a position where the first one ends or has the smaller character. |
| Jobs.LeastExists | pkg/broker/scheduler.go:208-214 | Every non-empty set of queued sessions has exactly one least element. |
| Scheduling.Insert | pkg/broker/scheduler.go:233-234 | Adding to the ordered session set keeps it strictly ascending and adds exactly that session; adding a session twice changes nothing. |
| Scheduling.Remove | pkg/broker/scheduler.go:235-240 | Removing from the ordered set keeps it ascending and removes exactly that session. |
| Scheduling.FirstIsLeast | pkg/broker/scheduler.go:208-214 | The first element of the ordered set is the least queued session. |
| Scheduling.MatchLeavesNothing | pkg/broker/scheduler.go:202-218 | At the top of the loop one match is enough: afterwards the agent map or the session set is empty, the matched session was the least one, and a session leaves the set exactly when it is sent an agent. |
| Scheduling.HandleAddsAtMostOne | pkg/broker/scheduler.go:219-243 | Whichever branch of the select runs, at most one match is possible afterwards, a session leaves the set and an agent the map exactly when its removal is confirmed, each of them enters exactly when added, and the loop is shutting down exactly once its context is done. |
| Scheduling.EachAddAnsweredAtMostOnce | pkg/broker/scheduler.go:202-243 | Over every run of the loop, a session receives at most as many messages on its two channels together as it was added, counting one that is still queued. |
| Scheduling.UnaddedHearsNothing | pkg/broker/scheduler.go:202-243 | Over every run, a session that is not queued and not added receives nothing; in particular a session whose removal was confirmed hears nothing until it is added again. |
| Scheduling.AgentsBalance | pkg/broker/scheduler.go:202-243 | Over every run and for each agent: the times it is assigned or its removal is confirmed, plus one if it is in the map at the end, are one if it was in the map at the start plus the adds that found it absent. |
| Scheduling.AddedAgentStays | pkg/broker/scheduler.go:226-226 | An agent that joins and is neither assigned nor confirmed as removed is still in the map, whatever happens in between. |
| Scheduling.ShutdownAssignsNothing | pkg/broker/scheduler.go:202-243 | Over every run, a loop that is shutting down assigns no agent and stays in shutdown. |
| Scheduling.DoneAssignsNothing | pkg/broker/scheduler.go:219-225 | After the context is done no agent is assigned in any continuation. |
| Scheduling.AgentRemovalIsConfirmed | pkg/broker/scheduler.go:227-232 | A removal that finds its agent in the map is confirmed at once, also during shutdown. |
| Scheduling.SessionRemovalIsConfirmed | pkg/broker/scheduler.go:235-240 | A removal that finds its session queued is confirmed at once, unless the loop has returned. |
| Scheduling.Scheduler.constructor | pkg/broker/scheduler.go:173-185 | A new scheduler has no agent and no session. |
| Scheduling.Scheduler.MatchOne | pkg/broker/scheduler.go:202-218 | The matching part of an iteration is one of the allowed matches and leaves nothing to match. |
| Scheduling.Scheduler.Receive | pkg/broker/scheduler.go:223-243 | Each branch of the select updates the state and sends as specified. |
| Scheduling.Scheduler.Run | pkg/broker/scheduler.go:191-245 | The loop, for any sequence of received messages and up to the match it makes before it waits for another one, produces a run to which the theorems above apply; it ends with nothing to match, or returns when shutting down with no agent left. |
| HandoffTheorems.StepKeeps | pkg/broker/scheduler.go:198-243 | Every step of the scheduler, of any session or of any agent keeps the invariant that places each agent and each session claim exactly once. |
| HandoffTheorems.AgentIsInExactlyOnePlace | pkg/broker/agent.go:241-279 | In every reachable state each connected one-slot agent is in exactly one place: about to offer itself, in the add channel, in the scheduler's map, being sent, in one session's channel, held by a session, in its own request channel, or running one session. |
| HandoffTheorems.HoldingIsExclusive | pkg/broker/agent.go:241-306 | No agent runs two sessions, no session is run by two agents, and an agent that runs a session is not on offer. |
| HandoffTheorems.CancelledSessionHoldsNothing | pkg/broker/sessions.go:308-322 | A session that finished as cancelled is not run, requested, queued or offered an agent. |
| HandoffTheorems.CancelledNeverRuns | pkg/broker/sessions.go:253-322 | A session that is cancelled before its agent was asked to start it, even if an agent already lies in its channel, is in no continuation run by or requested from any agent. |
| HandoffTheorems.HandoverSendsNeverBlock | pkg/broker/sessions.go:239-277 | Every hand-over send finds room in its buffer: scheduler to session, confirmation to session, session to agent, agent response to session. |
| HandoffTheorems.WaitingSchedulerHasNoMatch | pkg/broker/scheduler.go:198-225 | Whenever the scheduler blocks in its select, its agent map or its session set is empty. |
| HandoffProgress.SchedulerReachesSelect | pkg/broker/scheduler.go:198-243 | From every reachable state the scheduler gets back to its select by its own steps alone. |
| HandoffProgress.LateAgentReturnsToPool | pkg/broker/sessions.go:308-322 | A cancel that races with a match loses no agent: steps of the scheduler, the session and the late agent alone put the agent back into the scheduler's map with the session finished. |
| HandoffProgress.CancellingFinishesIff | pkg/broker/sessions.go:308-322 | A cancelling session can finish if and only if the scheduler still owes it an agent or a confirmation. |
| HandoffTheorems.KilledWhileSentNeverFinishes | pkg/broker/sessions.go:280-292 | A session killed while its agent is starting it enters the cancelling state and stays there in every continuation, with no answer outstanding at any point. |
| HandoffOutcomes.OutcomeHasCause | pkg/broker/sessions.go:239-322 | In every run, for any number of slots: a session runs only after an agent reported its start, is paused only after a reported checkpoint, ends as cancelled only after a cancel or a kill, and ends otherwise only after a reported failure or completion. |
| HandoffOutcomes.DoneIsFinal | pkg/broker/sessions.go:293-322 | A finished session never changes its outcome. |
| HandoffOutcomes.FailedStartNeverRuns | pkg/broker/agent.go:344-364 | After an agent reports that it failed to start a session, in no continuation does the session run or any agent have it; its own next step ends it, unless it was killed meanwhile. |
| HandoffOutcomes.StartedRuns | pkg/broker/sessions.go:293-306 | After an agent reports that it started a session, the next step of the session makes it run, on that agent. |
| HandoffOutcomes.CompletedIsFinal | pkg/broker/agent.go:405-418 | A running session that is reported complete has ended for good, no agent has it in any continuation, and its agent offers itself again. |
| HandoffOutcomes.CheckpointedResumes | pkg/broker/agent.go:399-404 | After a checkpoint no agent has the session, its agent offers itself again, and the next steps of the session queue it again. |
| HandoffOutcomes.NoneOvertakes | pkg/broker/scheduler.go:205-214 | No session is matched while one with a smaller priority, or the same and a smaller id, is queued. |
| HandoffOutcomes.ConnectedAgent | pkg/broker/agent.go:100-111 | A connecting agent gets the slots it reports, or one if it reports none, and room for as many requests. |
| HandoffOutcomes.OfferComesFirst | pkg/broker/agent.go:263-275 | An agent that is about to offer itself does nothing else until it has. |
| HandoffWitnesses.KilledWhileSent | pkg/broker/sessions.go:280-292 | A run exists in which a session is killed while its agent starts it and the agent then answers. |
| HandoffWitnesses.StuckSessionExists | pkg/broker/sessions.go:280-319 | A run exists that leaves a session cancelling with no answer outstanding. |
| HandoffWitnesses.LateAgentExists | pkg/broker/sessions.go:308-322 | A run exists in which a cancelling session has an agent in its channel. |
| HandoffSlots.SlotsCanOverflow | pkg/broker/agent.go:415-415 | For every slot count of two or more there is a run in which an agent runs more sessions than it has slots. |
| HandoffSlots.SlotBoundHoldsIffOneSlot | pkg/broker/agent.go:270-275 | The slot bound holds in every run if and only if agents have one slot. |
| AutoScaling.SetStatusKeeps | pkg/broker/autoscaler.go:774-800 | A status change keeps every worker in exactly the bucket its status names, moves the idle total by exactly what the sum over workers moves, and changes the size by the difference of the two statuses. |
| AutoScaling.RemoveWorkerDrifts | pkg/broker/autoscaler.go:802-814 | Removal keeps the index; the idle total stays right except for a worker in NotifyDeleting, where it becomes wrong by exactly the slots that worker held. |
| AutoScaling.StoppedThenRemoved | pkg/broker/autoscaler.go:802-814 | Telling any idle worker to stop and then removing it takes its slots off the idle total twice. |
| AutoScaling.StampKeeps | pkg/broker/autoscaler.go:362-363 | Stamping a listed worker changes neither the index, the total nor the size. |
| PoolMaintenance.GrowthNeverOvershoots | pkg/broker/autoscaler.go:617-642 | An accepted scale-up for a worker not yet in service never exceeds the maximum size and, if unconnected workers hold the default slots, never leaves the pool with a reason to shrink. |
| PoolMaintenance.GrowAllGrows | pkg/broker/autoscaler.go:617-642 | For every sequence of backend replies the grow loop keeps index and total, forgets no worker, never shrinks the pool, stays within max(old size, maximum) and stops when nothing is wanted or it has to wait. |
| PoolMaintenance.FreshOnlyGrows | pkg/broker/autoscaler.go:617-642 | If the backend never names a worker in service and no worker twice, the grow loop only puts workers into service and leaves no reason to shrink. |
| PoolMaintenance.GrowthServes | pkg/broker/autoscaler.go:617-642 | If the pool may ask and the backend names enough new workers without failing, it grows to the minimum size, and to the minimum of idle slots, as far as the maximum size allows. |
| PoolMaintenance.NothingRequested | pkg/broker/autoscaler.go:617-617 | Nothing is requested when both minima hold, when the pool is full, or in a batch pool. |
| PoolMaintenance.RetryAfterFailure | pkg/broker/autoscaler.go:861-924 | After a failed request the loop asks again exactly once the retry delay or the reset time has passed, whichever is shorter. |
| GrowLoop.EndedIff | pkg/broker/autoscaler.go:617-642 | The loop has ended after some replies if and only if no further reply makes a difference to its result. |
| GrowLoop.RepeatChangesNothing | pkg/broker/autoscaler.go:617-642 | A reply that names a worker pending with the default slots leaves the loop exactly where it was. |
| GrowLoop.ProgressIsBounded | pkg/broker/autoscaler.go:617-642 | However long the loop runs, the number of other replies is at most the room left in the pool plus the workers in service that are not pending with the default slots. |
| GrowLoop.NeverEndsIff | pkg/broker/autoscaler.go:617-642 | For every backend and every pool, the loop asks for ever if and only if after some number of replies it still asks and every later reply names a worker that is by then pending with the default slots. |
| GrowLoop.GrowIsBounded | pkg/broker/autoscaler.go:617-642 | With a backend that names new workers the loop ends after at most as many requests as the maximum leaves room for, and no further reply matters. |
| GrowLoop.NamesakeNeverEnds | pkg/broker/autoscaler.go:617-642 | With a backend that keeps naming one pending worker the loop does not end: after any number of such replies it still wants to ask. |
| PoolWitnesses.EndlessPassExists | pkg/broker/autoscaler.go:617-642 | The first pass of a new pool that wants two workers does not end if the backend always names the same one. |
| PoolWitnesses.PassEnds | pkg/broker/autoscaler.go:605-662 | For every pool and every finite list of replies after which requests fail, a pass comes to an end. |
| PoolMaintenance.ShrinkKeepsLowerBounds | pkg/broker/autoscaler.go:681-725 | A deletion from the shrink loop or from the idle timer leaves at least the minimum idle slots and at least the minimum size; this uses the clamp on the maximum and that pending workers hold the default slots. |
| PoolMaintenance.ShrinkTerminates | pkg/broker/autoscaler.go:645-651 | Every deletion lowers the number of pending and idle workers. |
| PoolMaintenance.ShrinksByIsSound | pkg/broker/autoscaler.go:681-725 | A deletion keeps the index and the total and takes exactly one worker out of service. |
| PoolMaintenance.PassMaintains | pkg/broker/autoscaler.go:605-662 | A whole pass, whatever the backend replies, keeps index and total, never grows past max(old size, maximum), forgets no worker, changes nothing in an inactive or settled pool, and leaves the pool settled, so that a second pass at the same instant changes no worker; if the backend names new workers, the pass grows only below a minimum or shrinks only above the idle maximum, never both, pending workers going first and both lower bounds staying in place; if the backend can deliver, both minima hold afterwards. |
| PoolMaintenance.AgentAvailableDrifts | pkg/broker/autoscaler.go:473-505 | A connecting agent keeps the total right exactly when it reports a non-negative slot count or the count already recorded; otherwise the error is the difference. |
| PoolMaintenance.AllocationFailedDrifts | pkg/broker/autoscaler.go:837-859 | A failure event keeps the total right exactly when it does not name a worker in NotifyDeleting that holds slots. |
| PoolMaintenance.ReconfigureDrifts | pkg/broker/autoscaler.go:542-593 | A new configuration keeps the total right if and only if the default slots stay the same or no unnamed worker is pending. |
| PoolMaintenance.AgentLostKeeps | pkg/broker/autoscaler.go:437-457 | Losing an agent keeps index, total and slot discipline in every status. |
| PoolLaws.PassReachesMinima | pkg/broker/autoscaler.go:605-642 | A pass over a pool with a backend that knows its workers, may ask and can get enough brings it to both minima as far as the maximum allows. |
| PoolLaws.PassTrimsSurplus | pkg/broker/autoscaler.go:645-651 | After a pass there are not too many idle slots, or the pool is at its minimum size, or no worker can go: none is pending and each idle one is needed. |
| PoolLaws.PassSparesOthers | pkg/broker/autoscaler.go:605-616 | A pass changes nothing in a pool without backend, in a cancelled one, or in one that still waits to hear of a worker. |
| PoolLaws.TimerRunsIff | pkg/broker/autoscaler.go:652-666 | After a pass the idle timer runs exactly while a worker with the default slots could go and leave both minima in place. |
| PoolLaws.RequestIsNoted | pkg/broker/autoscaler.go:624-642 | An accepted request is noted as the last attempt and does not block the next one. |
| PoolLaws.NormaliseRepairs | pkg/broker/autoscaler.go:542-585 | Usable values are kept, missing ones get their defaults, and the idle maximum is raised as little as needed to leave room for one agent. |
| PoolLaws.OperationEffect | pkg/broker/autoscaler.go:396-540 | What each operation does, before its pass, to the status and slots of each worker, to the workers without a name, to the waiting sessions and to the time of the next request. |
| PoolLaws.OperationRest | pkg/broker/autoscaler.go:396-603 | What each operation does, before its pass, to the last contact of each worker, the sync version, the flags and the last error. |
| PoolLaws.NamedContact | pkg/broker/autoscaler.go:636-639 | A worker the backend names was last heard of now, unless it was unknown or lost, when that is forgotten. |
| PoolLaws.TimerEffect | pkg/broker/autoscaler.go:668-679 | When the idle timer fires, a worker that can be spared goes and a pass follows; without one nothing changes but the timer. |
| PoolLaws.NewAgentCounts | pkg/broker/autoscaler.go:473-505 | A new agent that takes the place of a worker without a name leaves the size as it was; otherwise it adds one. |
| PoolLaws.StepSettles | pkg/broker/autoscaler.go:396-603 | Exactly the stated operations are followed by a pass, and then nothing is left to do for another one. |
| PoolLaws.SessionsBalance | pkg/broker/autoscaler.go:396-540 | Over every run, with any backend, the waiting sessions are what requests, cancellations, batches and started sessions so far make them. |
| PoolRuns.StepKeepsTotalIff | pkg/broker/autoscaler.go:396-859 | Every operation, whatever the backend replies, leaves the idle total as right or wrong as it was if and only if its slot report is not negative or repeats the record, its failure event does not name a stopping worker that holds slots, and it keeps the default slots or no unnamed worker is pending. |
| PoolRuns.RunStaysRightIff | pkg/broker/autoscaler.go:323-859 | Over every run, for any backend replies, the idle total equals the sum over workers plus the unnamed ones at every point if and only if every operation meets that condition. |
| PoolRuns.StepRight | pkg/broker/autoscaler.go:396-603 | Every exact operation that leaves the default slots alone, whatever the backend replies, keeps each worker in the bucket of its status, the idle total right, and the default slots on unconnected workers. |
| PoolRuns.RunStaysRight | pkg/broker/autoscaler.go:323-859 | Over every run of such operations, for any backend replies, all of this holds at every point. |
| PoolWitnesses.NegativeReportBreaksTotal | pkg/broker/autoscaler.go:473-505 | A run of a new pool exists in which the total is right until a worker connects with a negative slot count, and wrong then. |
| PoolWitnesses.FailureOfStoppingBreaksTotal | pkg/broker/autoscaler.go:802-856 | A run of a new pool exists in which a worker connects, is told to stop while it holds a slot, and its failure event makes the total wrong. |
| PoolWitnesses.NewDefaultBreaksTotal | pkg/broker/autoscaler.go:564-567 | A run of a new pool exists in which the backend promises a worker without naming it and a change of the default slots makes the total wrong. |
| AutoScaledPools.AutoScaledPool.SetWorkerStatus | pkg/broker/autoscaler.go:774-800 | The map updates amount to the specified status change; the previous status is returned. |
| AutoScaledPools.AutoScaledPool.RemoveWorkerLocked | pkg/broker/autoscaler.go:802-814 | The map updates amount to the specified removal. |
| AutoScaledPools.AutoScaledPool.SizeLocked | pkg/broker/autoscaler.go:759-761 | The bucket sizes add up to the number of workers that are idle, running, pending or unknown, and the unnamed ones. |
| AutoScaledPools.AutoScaledPool.CanKillIdleWorkerLocked | pkg/broker/autoscaler.go:664-666 | The test over the buckets is whether a worker with the default slots could go without breaking a lower bound. |
| AutoScaledPools.AutoScaledPool.DeleteOneWorker | pkg/broker/autoscaler.go:681-725 | Deletes a pending worker if there is one, else an idle one that can be spared; refuses exactly when no worker can be deleted. |
| AutoScaledPools.AutoScaledPool.Grow | pkg/broker/autoscaler.go:617-642 | The grow loop computes the specified pool for any backend replies. |
| AutoScaledPools.AutoScaledPool.Shrink | pkg/broker/autoscaler.go:645-651 | The shrink loop terminates, only takes workers out of service, and stops only when enough are gone or none can go. |
| AutoScaledPools.AutoScaledPool.MaintainIdleWorkers | pkg/broker/autoscaler.go:605-662 | One pass of the code is a maintenance pass in the sense of PassMaintains; over an active pool it asks the backend for exactly the workers the grow loop wants and then only takes surplus workers out of service, and an inactive pool only notes that all workers are known. |
| AutoScaledPools.AutoScaledPool.constructor | pkg/broker/autoscaler.go:239-270 | A new pool is empty, its total is right and its configuration is clamped. |
| AutoScaledPools.AutoScaledPool.RequestWorker | pkg/broker/autoscaler.go:396-403 | One more pending session, then a pass; the total stays right and the pool is settled. |
| AutoScaledPools.AutoScaledPool.RequestCancelled | pkg/broker/autoscaler.go:408-414 | One pending session fewer, then a pass; the total stays right and the pool is settled. |
| AutoScaledPools.AutoScaledPool.MarkBusy | pkg/broker/autoscaler.go:417-424 | The worker runs, one pending session fewer, then a pass; the total stays right and the pool is settled. |
| AutoScaledPools.AutoScaledPool.MarkIdle | pkg/broker/autoscaler.go:426-435 | The worker is idle; a pass follows only if it was running; the total stays right. |
| AutoScaledPools.AutoScaledPool.MarkLost | pkg/broker/autoscaler.go:437-457 | The status after a lost connection depends on the status before; then a pass; the total stays right. |
| AutoScaledPools.AutoScaledPool.MarkDeleting | pkg/broker/autoscaler.go:459-471 | The worker is being deleted and holds nothing; then a pass; the total stays right. |
| AutoScaledPools.AutoScaledPool.NotifyAgentAvailable | pkg/broker/autoscaler.go:473-506 | A connected agent takes the place of an unnamed pending worker if it is new; then a pass; the total stays right for non-negative slot counts. |
| AutoScaledPools.AutoScaledPool.HandleResourcePoolEvent | pkg/broker/autoscaler.go:837-859 | A failed worker is removed, or an unnamed one given up; then a pass; the total stays right unless a worker in NotifyDeleting is named. |
| AutoScaledPools.AutoScaledPool.DeleteOneIdleWorker | pkg/broker/autoscaler.go:668-679 | The idle timer deletes at most one worker and only if it can be spared, then runs a pass; otherwise only the timer flag changes. |
| AutoScaledPools.AutoScaledPool.UpdateConfig | pkg/broker/autoscaler.go:542-593 | The clamped configuration takes effect, with a pass if the backend is the same; the total stays right exactly under the condition of ReconfigureDrifts. |
| AutoScaledPools.AutoScaledPool.ReadyForIdleMaintenance | pkg/broker/autoscaler.go:595-603 | Switches maintenance on once and runs a pass. |
| AutoScaledPools.AutoScaledPool.RequestBatch | pkg/broker/autoscaler.go:518-540 | Succeeds exactly for a batch pool whose backend answers; then every named node is pending with the default slots, no other worker changes, and the total stays right. |
| AutoScaledPools.AutoScaledPool.BeginSync | pkg/broker/autoscaler.go:330-332 | A sync starts a new version and changes nothing else. |
| AutoScaledPools.AutoScaledPool.Sync | pkg/broker/autoscaler.go:340-388 | The listing is noted and then exactly the gone and the expired workers are dropped, in whatever order the maps are walked. |
| AutoScaledPools.AutoScaledPool.FinishSync | pkg/broker/autoscaler.go:335-391 | A sync followed by a pass keeps the total right and leaves the pool settled. |
| PoolSync.NoteAllLocal | pkg/broker/autoscaler.go:343-364 | After a listing every listed worker is known and carries the current stamp; a known worker keeps its status, slots and last contact, and its stamp if it was not listed. |
| PoolSync.ListingCounts | pkg/broker/autoscaler.go:343-364 | The new names of a listing first take the places of workers requested without a name, as many of which are no longer waited for, and the others add to the size. |
| PoolSync.ListedIsNew | pkg/broker/autoscaler.go:347-361 | A newly listed worker is pending with the default slots, or unknown with none and last heard of now. |
| PoolSync.GoneIffLapsed | pkg/broker/autoscaler.go:365-373 | A worker is dropped as gone if and only if it has no live connection, is absent from this listing, and was last listed or had its status set before the previous sync version. |
| PoolSync.SyncDropsExactly | pkg/broker/autoscaler.go:365-388 | A known worker is dropped by a sync if and only if, before the sync, it had lapsed or was unknown or lost and out of contact for longer than the limit and the backend agreed to delete it; every other one keeps its status and slots. |
| PoolSync.SyncSparesActive | pkg/broker/autoscaler.go:365-388 | A sync never drops or changes a worker that is running, idle, told to stop or being deleted. |
| Layers.LayerList.AnalyzeDir | client/cmd/instance_export_layers.go:291-386 | The recursion appends to the layer slice, and returns, what the analysis function gives for the directory. |
| Layers.CollectLayers | client/cmd/instance_export_layers.go:241-268 | Whether the root reached the threshold or its remainder is added at the end, the layers are those of the analysis with the root closed last. |
| Layers.ReverseInPlace | client/cmd/instance_export_layers.go:271-273 | The in-place swap loop reverses the slice. |
| Layers.ComputeLayers | client/cmd/instance_export_layers.go:233-276 | The result is all layers of the tree, base layer first. |
| LayerPartition.SkipListsAreTopmost | client/cmd/instance_export_layers.go:316-385 | Below every directory, descendants come before ancestors and no directory is the root of two layers; the skip list of each layer is exactly the topmost layer roots strictly below its root, and the list handed to the parent is exactly the topmost layer roots. |
| LayerTheorems.ImageSkipsTopmost | client/cmd/instance_export_layers.go:241-268 | The same of every layer of the finished image, the base layer included. |
| LayerPartition.EverythingIsEntries | client/cmd/instance_export_layers.go:316-342 | What a walk without stops meets is exactly the entries of the tree of which no part of the path is excluded. |
| LayerPartition.WalkMeets | client/cmd/instance_export_layers.go:107-125 | A walk meets an entry of the tree if and only if no part of its path is excluded and no skipped directory separates it from the start. |
| LayerTheorems.StreamedIffNearest | client/cmd/instance_export_layers.go:107-142 | A layer streams an item if and only if it is an entry of the tree of which no part of the path is excluded, it can be archived, and that layer's root is its nearest layer directory. |
| LayerTheorems.NothingExcludedIsStreamed | client/cmd/instance_export_layers.go:117-125 | No layer streams an entry that is excluded or lies below an excluded directory. |
| LayerTheorems.ExactlyOneLayer | client/cmd/instance_export_layers.go:107-142 | For every tree, exclusion predicate and threshold, each entry of the tree of which no part of the path is excluded and that can be archived is streamed by exactly one layer. |
| LayerTheorems.StreamedOnce | client/cmd/instance_export_layers.go:107-142 | No layer streams a path twice. |
| LayerTheorems.TopDown | client/cmd/instance_export_layers.go:254-273 | The base layer is rooted at the mount point and every layer comes after the layers above it. |
| LayerTheorems.ParentLayer | client/cmd/instance_export_layers.go:270-273 | The parent directory of a layer's root is streamed by an earlier layer. |
| LayerTheorems.ParentsComeFirst | client/cmd/instance_export_layers.go:107-142 | Unpacking the layers in order always finds the parent directory of an entry already present. |
| LayerSizes.LayerSizeIsMet | client/cmd/instance_export_layers.go:369-380 | The size recorded with a layer is exactly the bytes of the non-directory entries its own walk meets. |
| LayerSizes.SizesConserved | client/cmd/instance_export_layers.go:327-342 | The recorded sizes of all layers add up to the bytes of a list that holds every entry that is not excluded exactly once. |
| LayerSizes.ThresholdReached | client/cmd/instance_export_layers.go:369-380 | Every layer other than the base layer reaches the threshold in effect. |
| LayerThreshold.LayersAreLarge | client/cmd/instance_export_layers.go:369-380 | With a positive threshold every layer other than the base layer has at least that many bytes. |
| LayerThreshold.NoLayerIsMissed | client/cmd/instance_export_layers.go:369-384 | With a positive threshold, in the walk of a layer fewer bytes than the threshold are met at or below any directory other than the root of the layer, so that every directory that reaches it has become a layer. |
| LayerThreshold.NoThresholdOneLayer | client/cmd/instance_export_layers.go:236-242 | Without a threshold an image of fewer than 2 to the 63 minus 1 bytes has exactly one layer. |
| ExportConfig.Loader.LoadFrom | client/cmd/instance_export_config.go:52-88 | The recursive loader terminates for every finite set of files, cycles included, and its result and its visited map are those of a depth-first search; it fails exactly when the search does. |
| ExportConfig.LoadExportConfig | client/cmd/instance_export_config.go:41-47 | Loading starts from the default path if none is given, with nothing visited. |
| ExportConfigTheorems.LoadsReachable | client/cmd/instance_export_config.go:52-88 | Loading succeeds if and only if every reachable source can be read, or the root does not exist; it then visits exactly the reachable sources and merges each exactly once. |
| ExportConfigTheorems.IncludesComeFirst | client/cmd/instance_export_config.go:70-86 | Each included source is merged before the source that includes it, unless the included one leads back to it. |
| ExportConfigTheorems.ExcludesInOrder | client/cmd/instance_export_config.go:124-131 | The merged exclude list is the sources' own lists in finishing order. |
| ExportConfigTheorems.StripsIffAny | client/cmd/instance_export_config.go:124-131 | Times are stripped if and only if some merged source asks for it. |
| ExportConfigTheorems.LoadedConfiguration | client/cmd/instance_export_config.go:41-88 | The returned configuration: an error exactly when a reachable source cannot be read, a missing root aside; else the exclude lists of all reachable sources, each once and includes first, and times stripped exactly when one of them asks for it. |
| Varint.RoundTrip | pkg/fileserver/types_serialize.go:37-54 | Decoding gives back every 64-bit number and leaves the bytes behind it untouched. |
| Varint.Decoded | pkg/fileserver/types_serialize.go:45-54 | Whatever the decoder accepts is below 2 to the 64, takes at most ten bytes, and is at least as long as the encoder's form, which is the only one of its length. |
| Varint.EncodedAt | pkg/fileserver/types_serialize.go:37-42 | Byte i of an encoded number holds its seven bits from bit 7i on, with the top bit set exactly on all bytes but the last. |
| Varint.PutUvarint | pkg/fileserver/types_serialize.go:37-42 | The encoding loop produces the specified bytes. |
| Varint.ReadUvarint | pkg/fileserver/types_serialize.go:45-54 | The decoding loop, which accumulates from the low end, computes the recursive decoder. |
| Varint.LittleRoundTrip | pkg/fileserver/types_serialize.go:100-131 | Fixed-width little-endian numbers are read back. |
| Varint.LittleAt | pkg/fileserver/types_serialize.go:100-131 | Byte i of a fixed-width number holds its eight bits from bit 8i on. |
| Messages.HandleRoundTrip | pkg/fileserver/types_serialize.go:441-480 | File handles of at most 1024 bytes are read back with their type and with the rest of the stream left. |
| Messages.ItemsRoundTrip | pkg/fileserver/types_serialize.go:378-432 | Lists of items of any layout, such as directory entries, are read back with the rest of the stream left. |
| Messages.ReadAllWithin | pkg/fileserver/types_serialize.go:454-465 | The reader never returns a value beyond its own limits. |
| Messages.MessageRoundTripsIff | pkg/fileserver/types_serialize.go:134-432 | A message of any layout that can be written is read back unchanged, with the rest of the stream left, if and only if its fields are within the reader's limits. |
| Messages.WritesAllIff | pkg/fileserver/types_serialize.go:67-82 | A message can be written if and only if its texts, its checked data and its lists are within the limits of the writer. |
| Messages.WithinRoundTrips | pkg/fileserver/types_serialize.go:134-432 | Whatever is within the limits of the reader can be written and is read back. |
| Messages.HandleOnWire | pkg/fileserver/types_serialize.go:441-452 | The bytes of a file handle: 32-bit length, 32-bit type, then its bytes. |
| Layouts.LongHandleIsRefused | pkg/fileserver/types_serialize.go:441-465 | A file handle of more than 1024 bytes is written without an error and refused by the reader. |
| MessageStreams.Writer.WriteFields | pkg/fileserver/types_serialize.go:134-146 | Writing field by field sends out exactly the specified bytes and reports whether all was written, also when a field is refused half way. |
| MessageStreams.Writer.WriteList | pkg/fileserver/types_serialize.go:378-400 | The loop over directory entries writes the count and then the entries up to the first that is refused. |
| MessageStreams.Reader.ReadFields | pkg/fileserver/types_serialize.go:149-163 | Reading field by field returns the specified values or none, and leaves exactly the specified rest of the stream, also after an error. |
| MessageStreams.Reader.ReadList | pkg/fileserver/types_serialize.go:403-432 | The loop over directory entries reads exactly as many entries as announced, or stops at the first that cannot be read. |
| Packets.FramesRoundTrip | pkg/fileserver/fileserver.go:305-334 | A reader cuts a concatenation of any number of frames within its limit exactly at the frame boundaries, whatever follows them. |
| Packets.FlagBits | pkg/fileserver/types.go:58-64 | The bits of the flag word. |
| Packets.FrameOnWire | pkg/fileserver/fileserver.go:867-877 | The bytes of a frame: code, size of the whole frame, flags and sequence number as 32-bit words, then the payload. |
| Packets.CutIsFrame | pkg/fileserver/fileserver.go:305-334 | A reader takes nothing for a frame that is not one or that exceeds its limit. |
| Packets.CutAllIsFrames | pkg/fileserver/fileserver.go:297-334 | What a reader cuts off a stream are frames within its limit, and it stops only where no further one is complete. |
| Packets.ReadConnection | pkg/fileserver/fileserver.go:297-334 | The connection loop returns the frames of the stream and stops at the first incomplete or refused one. |
| Packets.PackRoundTrip | pkg/fileserver/fileserver.go:843-877 | A body is compressed exactly when it has more than 32 KiB and compression shortens it, no other flag changes, and unpacking gives the body back. |
| Packets.RequestsArrive | pkg/fileserver/fileserver.go:288-360 | From the bytes of any sequence of framed requests the server recovers each opcode, sequence number and body. |
| Chunks.SendResponseChunked | pkg/fileserver/fileserver.go:410-496 | The chunk loop sends the chunks in order, with at most one high-priority packet after each but the last. |
| Chunks.SplitLooks | pkg/fileserver/fileserver.go:431-481 | A reply of more than 32 KiB that is not a notification makes at least two chunks, none empty or longer than 32 KiB, all but the last flagged HasMore and the last flagged EndOfMultiPacket, which together carry the payload; any other reply is sent as it is. |
| Chunks.Receiver.Handle | pkg/sandboxfs/directfs_client.go:813-852 | The receiver keeps chunks by sequence number and puts them together at the last one. |
| Chunks.ReceiveLocal | pkg/sandboxfs/directfs_client.go:813-852 | What is delivered for one sequence number depends only on the packets of that number. |
| Chunks.Reassembled | pkg/sandboxfs/directfs_client.go:813-852 | However packets of other sequence numbers are mixed in, the messages sent under one number arrive complete and in order. |
| Chunks.ChunkedReplyArrives | pkg/fileserver/fileserver.go:410-496 | A reply sent in chunks with high-priority packets of other numbers in between is delivered once, with its exact payload. |
| Chunks.RepliesArrive | pkg/sandboxfs/directfs_client.go:772-871 | From the bytes of one connection the client recovers the opcodes and bodies of all replies of a sequence number, through framing, chunking and compression. |
| CacheAttribute.EntryRoundTrip | pkg/fileserver/fileserver.go:1632-1662 | The printed form of a cache attribute is read back for every 64-bit time and size. |
| CacheAttribute.ParsePrinted | pkg/fileserver/fileserver.go:1645-1660 | Every printed 64-bit number, negative ones included, is parsed back. |
| CacheAttribute.ParsesIff | pkg/fileserver/fileserver.go:1645-1660 | What is accepted as a number is an optional sign and at least one digit, and fits in 64 bits. |
| CacheAttribute.DigitAt | pkg/fileserver/fileserver.go:1645-1660 | Numbers are printed in decimal. |
| CacheAttribute.SplitEntry | pkg/fileserver/fileserver.go:1632-1644 | The fields of a printed attribute: version, hash, time and size, in that order. |
| CacheAttribute.DecodedEntry | pkg/fileserver/fileserver.go:1632-1662 | Whatever is read starts with the version and a hash of 64 characters, and its nanoseconds are less than a second. |
| CacheAttribute.NormalKeepsTime | pkg/fileserver/fileserver.go:1645-1660 | Nanoseconds out of range are carried into the seconds without changing the time. |
| Shell.EscapeArgsForShell | client/cmd/run.go:547-578 | The loops produce the escaped form of every argument. |
| Shell.LexEscaped | client/cmd/run.go:555-575 | The escaped form of any argument, embedded quotes and the empty string included, is read by the shell as one word equal to it. |
| Shell.EscapesIfNeeded | client/cmd/run.go:555-575 | An argument is left as it is exactly when it is not empty and has only safe characters; any other is put in quotes. |
| Shell.ShellReadsArguments | client/cmd/run.go:337-337 | For every list of arguments the shell reads the escaped forms joined by spaces as exactly that list. |
| Waiting.Waiter.HandleSignal | pkg/agent/wait.go:86-128 | The reaping loop delivers each exit to the entry of its own process, else to the entry for any process, else nowhere, and uses entries up. |
| Waiting.Waiter.HandleMessage | pkg/agent/wait.go:129-138 | A message registers, cancels or does nothing. |
| Waiting.RoundDelivers | pkg/agent/wait.go:105-127 | In one round every process with an entry gets its own, and the entry for any process goes to the first process without one. |
| Waiting.NeverReapedTooEarly | pkg/agent/wait.go:58-65 | In every run, when a process is reaped no client holds the lock, and the state goes to the request last sent for that process even if the process exited before the message was sent. |
| Waiting.StateGoesWhereExpected | pkg/agent/wait.go:105-138 | In every run, the state of a reaped process goes to the request last registered for it and not cancelled or answered since, as read off the actions; without one to the pending request for any process, and without that nowhere. |
| Waiting.SendNeverBlocks | pkg/agent/wait.go:61-65 | In every run the client that holds the lock can send its message without waiting. |
| Waiting.AtMostOneState | pkg/agent/wait.go:105-127 | In every run each request receives at most one state. |
| Waiting.AccountedIff | pkg/agent/wait.go:83-128 | Over every run, no exited process is ever left with the loop waiting and no signal pending, if and only if every error of the wait call finds no exited child or leaves a further signal pending. |
| Waiting.NoZombieForgotten | pkg/agent/wait.go:83-128 | In every run, when the loop waits, no signal is pending and the last round of reaping was not ended by an error, every exited process has been reaped. |
| Waiting.ErrorLeavesZombie | pkg/agent/wait.go:92-98 | A run exists in which an error ends the reaping and an exited process stays behind with no signal pending. |
| Waiting.LoopReapsAll | pkg/agent/wait.go:83-139 | From every state of a run in which no client holds the lock and a signal is pending if one is needed, the loop by its own steps can reap every exited process and return to waiting. |
| Waiting.CanReapAll | pkg/agent/wait.go:83-139 | From every state of a run in which no client holds the lock every exited process can be reaped: by the loop alone or, after an error, once another child exits. |
| Gang.GangCoordinator.Notify | pkg/broker/gang_coordinator.go:32-42 | Registers the latest callback and runs all callbacks exactly when the gang is complete for the first time. |
| Gang.GangCoordinator.Unnotify | pkg/broker/gang_coordinator.go:44-52 | Says whether the gang has fired, and forgets the member only then. |
| Gang.RunState | pkg/broker/gang_coordinator.go:32-52 | An untriggered gang holds exactly the members registered so far, fewer than it wants, so that testing for equality is enough. |
| Gang.FiresWhenComplete | pkg/broker/gang_coordinator.go:32-42 | An operation fires the gang if and only if it registers the last distinct member, and it then runs every member's latest callback. |
| Gang.FiresOnce | pkg/broker/gang_coordinator.go:32-52 | A gang fires at most once. |
| Gang.HoldsLatest | pkg/broker/gang_coordinator.go:32-52 | Over every run, the callback held for a member is the one it registered last, unless it withdrew after the gang was complete. |
| Gang.EmptyGangNeverFires | pkg/broker/gang_coordinator.go:32-42 | A gang that wants no member never fires. |
| Gang.TrackedGangFires | pkg/broker/task_tracker.go:92-106 | With the tracker's extra member a gang of n sessions fires exactly when the n-th distinct session registers, and also runs the clean-up. |
| SessionDb.SessionsAfter | pkg/broker/session_db.go:135-220 | Registering puts exactly that session under its id and removing leaves nothing there, whatever the service name. |
| SessionDb.RunContents | pkg/broker/session_db.go:135-220 | Over every run each id has the session last registered under it and not removed since. |
| SessionDb.RegisterKeepsIff | pkg/broker/session_db.go:135-160 | Registering keeps the service index equal to the sessions if and only if an existing session of that id has no service name or the same one. |
| SessionDb.RenamingBreaksIndex | pkg/broker/session_db.go:135-160 | Registering an id again under another service name leaves it listed under the first one. |
| SessionDb.RemoveKeepsIff | pkg/broker/session_db.go:205-220 | Removing keeps the service index equal to the sessions under the same condition, and leaves no empty service. |
| SessionDb.RunKeepsIndexIff | pkg/broker/session_db.go:135-220 | Over every run, the index equals the sessions at every point if and only if no operation registers or removes a session under an id whose present session has another service name that is not empty. |
| SessionDb.RunKeepsIndex | pkg/broker/session_db.go:135-220 | If every id has one service name throughout, which can be checked before the run, the condition of RunKeepsIndexIff holds at every point and the index stays equal to the sessions. |
| SessionDb.JoinsByServiceName | pkg/broker/session_db.go:177-189 | A request without an id joins a session if and only if one has its service name and no new one is forced. |
| SessionDb.AnswerReasons | pkg/broker/session_db.go:162-203 | Which answer a request gets for which reason: not found, not allowed, no scheduler, an existing session or a new one. |
| SessionDb.SessionDatabase.RegisterSession | pkg/broker/session_db.go:135-160 | The map updates register the session in its instance and touch no other instance. |
| SessionDb.SessionDatabase.RemoveSession | pkg/broker/session_db.go:205-220 | The map updates remove the session from its instance and touch no other instance. |
| SessionDb.SessionDatabase.ListSessionForService | pkg/broker/session_db.go:94-108 | With a right index, the list is each session with that service name exactly once. |
| SessionDb.SessionDatabase.AddSession | pkg/broker/session_db.go:162-203 | Which requests find a session, which get a new one with an unused id, and which are refused with which error; a right index stays right. |

## Left out

- Agents with several slots in the safety theorems of the hand-off: the slot bound is false for them, as shown.
- In the hand-off: soft and server shutdown, gangs, broken streams, a failing access grant, stale agents and reconnection; a checkpoint is only reported once the session runs.
- Delivery of exactly one completion per session: the code completes a failed session from two places.
- Timers and clocks: time is a parameter, retry and decay timers are flags, and the retry timer is not modelled.
- The pool's status channel to a worker, its allocation-status callbacks and `InspectWorkers`.
- AutoScaledPools.AutoScaledPool.FinishSync: assumes that only one sync runs at a time, as in the sync loop, so that the version at the end is the one the sync began with; versions are unbounded numbers, not 32-bit ones.
- AutoScaledPools.AutoScaledPool.Grow: the backend's replies to one pass are a finite list, after which a request fails; `GrowLoop` relates that list to an endless backend and says when the code's loop does not end.
- `pendingSessions` as a count of queued sessions: it is an arbitrary number to the pool.
- Names of workers are non-empty; an agent that connects under the empty name is not modelled.
- Layers.ComputeLayers: sizes are unbounded numbers, so a total beyond 63 bits is not modelled.
- Merkle hashes of layers, the layer cache, the hard-link table, tar headers and file contents.
- Exclusion patterns and include resolution: arbitrary functions.
- Read errors while walking a tree.
- zstd and SHA-256: zstd is an arbitrary pair of functions of which the second undoes the first.
- Dispatch of replies to waiting calls after they were put together, and errors of the decompressor.
- Shell.ShellReadsArguments: only token recognition and quote removal; an unquoted first word with an equals sign, or a reserved word, has further effects.
- Waiting.NeverReapedTooEarly: each client that acquires the lock sends exactly one message, and the channel of a request has room for its one state.
- Commands, remote procedure calls, mounts, namespaces, networking, authentication and storage: thin layers around libraries and the operating system.
