/** The process reaper of an agent that runs as process 1.

    One loop owns the table of requests.  A client that starts a process first makes the
    loop stop (`AcquireLock`), and lets it go on by sending exactly one message.  Request
    numbers stand for the channels on which states are delivered. */
module Waiting {
  import opened Basics

  type Pid = nat

  /** Where the state of an exited process goes. */
  datatype Dest = Own(request: nat) | Any(request: nat) | Logged

  datatype Delivery = Delivery(pid: Pid, dest: Dest)

  datatype Message = Nothing | Cancel(pid: Pid) | Register(pid: Pid, request: nat)

  type Requests = map<Pid, nat>

  /** The entry of the process itself, else the entry for any process, else none. */
  function DestOf(requests: Requests, pid: Pid): Dest
  {
    if pid in requests then Own(requests[pid])
    else if 0 in requests then Any(requests[0])
    else Logged
  }

  /** An entry is used up by a delivery. */
  function AfterReap(requests: Requests, pid: Pid): Requests
  {
    if pid in requests then requests - {pid} else requests - {0}
  }

  function AfterMessage(requests: Requests, m: Message): Requests
  {
    match m
    case Nothing => requests
    case Cancel(pid) => requests - {pid}
    case Register(pid, request) => requests[pid := request]
  }

  /** What one round of the reaper delivers. */
  function ReapAll(requests: Requests, pids: seq<Pid>): seq<Delivery>
  {
    if pids == [] then []
    else [Delivery(pids[0], DestOf(requests, pids[0]))] + ReapAll(AfterReap(requests, pids[0]), pids[1..])
  }

  function AfterAll(requests: Requests, pids: seq<Pid>): Requests
  {
    if pids == [] then requests else AfterAll(AfterReap(requests, pids[0]), pids[1..])
  }

  lemma ReapFirst(out: seq<Delivery>, requests: Requests, pids: seq<Pid>)
    requires pids != []
    ensures out + ReapAll(requests, pids) ==
      out + [Delivery(pids[0], DestOf(requests, pids[0]))] + ReapAll(AfterReap(requests, pids[0]), pids[1..])
  {
  }

  class Waiter {
    var requests: Requests

    constructor ()
      ensures requests == map[]
    {
      requests := map[];
    }

    /** A child signal: reap until no process is left, `pids` being what the kernel gives. */
    method HandleSignal(pids: seq<Pid>) returns (out: seq<Delivery>)
      modifies this
      ensures out == ReapAll(old(requests), pids) && requests == AfterAll(old(requests), pids)
    {
      out := [];
      assert pids[0..] == pids;
      for i := 0 to |pids|
        invariant out + ReapAll(requests, pids[i..]) == ReapAll(old(requests), pids)
        invariant AfterAll(requests, pids[i..]) == AfterAll(old(requests), pids)
      {
        assert pids[i..][1..] == pids[i + 1..];
        var pid := pids[i];
        var dest := Logged;
        ghost var before := requests;
        if pid in requests {
          dest := Own(requests[pid]);
          requests := requests - {pid};
        } else if 0 in requests {
          dest := Any(requests[0]);
          requests := requests - {0};
        }
        assert requests == AfterReap(before, pid) && dest == DestOf(before, pid);
        ReapFirst(out, before, pids[i..]);
        out := out + [Delivery(pid, dest)];
      }
      assert out + [] == out;
    }

    method HandleMessage(m: Message)
      modifies this
      ensures requests == AfterMessage(old(requests), m)
    {
      match m
      case Nothing =>
      case Cancel(pid) => requests := requests - {pid};
      case Register(pid, request) => requests := requests[pid := request];
    }
  }

  /** In one round, a process with an entry gets it, and the entry for any process goes to
      the first process without one. */
  lemma {:induction false} RoundDelivers(requests: Requests, pids: seq<Pid>, i: nat)
    requires i < |pids| && 0 !in pids && forall j, k :: 0 <= j < k < |pids| ==> pids[j] != pids[k]
    ensures |ReapAll(requests, pids)| == |pids| && ReapAll(requests, pids)[i].pid == pids[i]
    ensures ReapAll(requests, pids)[i].dest ==
      if pids[i] in requests then Own(requests[pids[i]])
      else if 0 in requests && forall j :: 0 <= j < i ==> pids[j] in requests then Any(requests[0])
      else Logged
    decreases |pids|
  {
    var next := AfterReap(requests, pids[0]);
    if i > 0 {
      RoundDelivers(next, pids[1..], i - 1);
      assert pids[i] in pids && pids[1..][i - 1] == pids[i];
      if forall j :: 0 <= j < i - 1 ==> pids[1..][j] in next {
        forall j | 1 <= j < i ensures pids[j] in requests {
          assert pids[1..][j - 1] in next;
        }
      } else {
        var j :| 0 <= j < i - 1 && pids[1..][j] !in next;
        assert pids[j + 1] in pids && pids[j + 1] !in requests;
      }
    } else if |pids| > 1 {
      RoundDelivers(next, pids[1..], 0);
    }
  }

  // ----- The protocol ------------------------------------------------------------------------

  /** Waiting in its select, stopped by a client, or reaping. */
  datatype Loop = Select | Locked | Reaping

  datatype State = State(
    loop: Loop,
    held: bool,                // a client holds the lock and has not sent its message
    started: set<Pid>,         // what that client has started
    buffer: Option<Message>,   // the message channel, of capacity one
    requests: Requests,
    running: set<Pid>,
    zombies: set<Pid>,
    signalled: bool,           // a child signal is pending
    failed: bool,              // the last round of reaping was ended by an error
    next: nat,                 // request numbers from here on are unused
    owner: map<Pid, nat>,      // history: the request last sent for a process
    log: seq<Delivery>)        // history: what was delivered

  const Initial := State(Select, false, {}, None, map[], {}, {}, false, false, 0, map[], [])

  datatype Action =
    | Acquire                  // a client and the loop meet on the lock channel
    | Start(pid: Pid)          // the client that holds the lock starts a process
    | Send(message: Message)   // it sends its message
    | Take                     // the loop takes the message
    | Adopt(pid: Pid)          // an orphan becomes a child
    | Exit(pid: Pid)           // a child exits
    | Signal                   // the loop sees the child signal
    | Reap(pid: Pid)           // the loop reaps one exited child
    | Done                     // no exited child is left
    | Fail                     // waiting for children fails with another error

  predicate Enabled(st: State, a: Action)
  {
    match a
    case Acquire => st.loop == Select
    case Start(pid) => st.held && pid > 0 && pid !in st.running && pid !in st.zombies
    case Send(m) => st.held && st.buffer.None? && (m.Register? ==> m.request == st.next)
    case Take => st.loop == Locked && st.buffer.Some?
    case Adopt(pid) => pid > 0 && pid !in st.running && pid !in st.zombies
    case Exit(pid) => pid in st.running
    case Signal => st.loop == Select && st.signalled
    case Reap(pid) => st.loop == Reaping && pid in st.zombies
    case Done => st.loop == Reaping && st.zombies == {}
    case Fail => st.loop == Reaping
  }

  function Apply(st: State, a: Action): State
    requires Enabled(st, a)
  {
    match a
    case Acquire => st.(loop := Locked, held := true, started := {})
    case Start(pid) => st.(running := st.running + {pid}, started := st.started + {pid})
    case Send(m) =>
      st.(held := false, started := {}, buffer := Some(m), owner := AfterMessage(st.owner, m),
          next := if m.Register? then st.next + 1 else st.next)
    case Take => st.(loop := Select, buffer := None, requests := AfterMessage(st.requests, st.buffer.value))
    case Adopt(pid) => st.(running := st.running + {pid})
    case Exit(pid) => st.(running := st.running - {pid}, zombies := st.zombies + {pid}, signalled := true)
    case Signal => st.(loop := Reaping, signalled := false)
    case Reap(pid) =>
      st.(zombies := st.zombies - {pid}, requests := AfterReap(st.requests, pid), owner := AfterReap(st.owner, pid),
          log := st.log + [Delivery(pid, DestOf(st.requests, pid))])
    case Done => st.(loop := Select, failed := false)
    case Fail => st.(loop := Select, failed := true)
  }

  predicate IsRun(st: State, run: seq<Action>)
    decreases |run|
  {
    run == [] || (Enabled(st, run[0]) && IsRun(Apply(st, run[0]), run[1..]))
  }

  function Exec(st: State, run: seq<Action>): State
    requires IsRun(st, run)
    decreases |run|
  {
    if run == [] then st else Exec(Apply(st, run[0]), run[1..])
  }

  // ----- What every run keeps -------------------------------------------------------------------

  /** The lock stops the loop, the message channel never overflows, and the table is what
      the messages sent say, except for one that is still in the channel. */
  ghost predicate LockInv(st: State)
  {
    && (st.held ==> st.loop == Locked && st.buffer.None?)
    && (st.loop == Locked ==> st.held || st.buffer.Some?)
    && (st.buffer.Some? ==> st.loop == Locked)
    && (!st.held ==> st.started == {})
    && st.owner == (if st.buffer.Some? then AfterMessage(st.requests, st.buffer.value) else st.requests)
  }

  /** No exited process is forgotten, unless a round was cut short by an error. */
  ghost predicate SignalInv(st: State)
  {
    && (st.zombies != {} ==> st.signalled || st.loop == Reaping || st.failed)
    && 0 !in st.zombies && 0 !in st.running
  }

  predicate Answers(d: Delivery, r: nat)
  {
    !d.dest.Logged? && d.dest.request == r
  }

  /** The delivery used a request that is used up. */
  ghost predicate Spent(d: Delivery, owner: map<Pid, nat>, next: nat)
  {
    d.dest.Logged? || (d.dest.request < next && forall p :: p in owner ==> owner[p] != d.dest.request)
  }

  predicate Differ(d: Delivery, e: Delivery)
  {
    d.dest.Logged? || !Answers(e, d.dest.request)
  }

  /** Requests in use are distinct and not among those already answered. */
  ghost predicate OnceInv(st: State)
  {
    && (forall p :: p in st.owner ==> st.owner[p] < st.next)
    && (forall p, q :: p in st.owner && q in st.owner && p != q ==> st.owner[p] != st.owner[q])
    && (forall i :: 0 <= i < |st.log| ==> Spent(st.log[i], st.owner, st.next))
    && (forall i, j :: 0 <= i < j < |st.log| ==> Differ(st.log[i], st.log[j]))
  }

  lemma LockStep(st: State, a: Action)
    requires LockInv(st) && Enabled(st, a)
    ensures LockInv(Apply(st, a))
  {
  }

  lemma SignalStep(st: State, a: Action)
    requires SignalInv(st) && Enabled(st, a)
    ensures SignalInv(Apply(st, a))
  {
  }

  lemma OnceReap(st: State, pid: Pid)
    requires OnceInv(st) && LockInv(st) && Enabled(st, Reap(pid))
    ensures OnceInv(Apply(st, Reap(pid)))
  {
    var st' := Apply(st, Reap(pid));
    assert st.owner == st.requests;
    forall i | 0 <= i < |st.log|
      ensures Spent(st'.log[i], st'.owner, st'.next) && Differ(st.log[i], st'.log[|st.log|])
    {
      assert Spent(st.log[i], st.owner, st.next);
    }
  }

  lemma OnceStep(st: State, a: Action)
    requires OnceInv(st) && LockInv(st) && Enabled(st, a)
    ensures OnceInv(Apply(st, a))
  {
    match a
    case Send(m) =>
      var st' := Apply(st, a);
      forall i | 0 <= i < |st.log| ensures Spent(st'.log[i], st'.owner, st'.next) {
        assert Spent(st.log[i], st.owner, st.next);
      }
    case Reap(pid) => OnceReap(st, pid);
    case _ =>
  }

  ghost predicate Inv(st: State)
  {
    LockInv(st) && SignalInv(st) && OnceInv(st)
  }

  lemma {:induction false} RunKeepsInv(st: State, run: seq<Action>)
    requires Inv(st) && IsRun(st, run)
    ensures Inv(Exec(st, run))
    decreases |run|
  {
    if run != [] {
      LockStep(st, run[0]);
      SignalStep(st, run[0]);
      OnceStep(st, run[0]);
      RunKeepsInv(Apply(st, run[0]), run[1..]);
    }
  }

  // ----- Theorems over all runs --------------------------------------------------------------------

  /** Whenever a process is reaped, no client holds the lock, so no process it started can
      be reaped before its message is sent; and the state goes to the request last sent for
      that process, even if it exited before the message was. */
  lemma NeverReapedTooEarly(run: seq<Action>, pid: Pid)
    requires IsRun(Initial, run) && Enabled(Exec(Initial, run), Reap(pid))
    ensures var st := Exec(Initial, run);
      && !st.held && pid !in st.started && st.buffer.None?
      && Apply(st, Reap(pid)).log == st.log + [Delivery(pid, DestOf(st.owner, pid))]
  {
    RunKeepsInv(Initial, run);
  }

  /** The client that holds the lock can always send without waiting. */
  lemma SendNeverBlocks(run: seq<Action>)
    requires IsRun(Initial, run) && Exec(Initial, run).held
    ensures Enabled(Exec(Initial, run), Send(Nothing))
  {
    RunKeepsInv(Initial, run);
  }

  // ----- Who is told -----------------------------------------------------------------------------

  /** The request that the state of `pid` belongs to after `run`: the one last registered for
      it, unless that was cancelled or already answered since. */
  function Expects(run: seq<Action>, pid: Pid): Option<nat>
  {
    if run == [] then None
    else
      var last, before := run[|run| - 1], Expects(run[..|run| - 1], pid);
      match last
      case Send(Register(p, r)) => if p == pid then Some(r) else before
      case Send(Cancel(p)) => if p == pid then None else before
      case Reap(p) => if p == pid then None else before
      case _ => before
  }

  /** The request for any process after `run`: the one last registered, unless it was
      cancelled or used up by a process that nobody had asked for. */
  function ExpectsAny(run: seq<Action>): Option<nat>
  {
    if run == [] then None
    else
      var front := run[..|run| - 1];
      var before := ExpectsAny(front);
      match run[|run| - 1]
      case Send(Register(p, r)) => if p == 0 then Some(r) else before
      case Send(Cancel(p)) => if p == 0 then None else before
      case Reap(p) => if Expects(front, p).None? then None else before
      case _ => before
  }

  lemma {:induction false} LastStep(st: State, run: seq<Action>)
    requires IsRun(st, run) && run != []
    ensures var n := |run| - 1;
      && IsRun(st, run[..n]) && Enabled(Exec(st, run[..n]), run[n])
      && Exec(st, run) == Apply(Exec(st, run[..n]), run[n])
    decreases |run|
  {
    var n := |run| - 1;
    if n == 0 {
      assert run[..0] == [] && run[1..] == [];
    } else {
      LastStep(Apply(st, run[0]), run[1..]);
      assert run[1..][..n - 1] == run[..n][1..];
    }
  }

  /** The requests sent and not yet answered are those the actions say. */
  lemma {:induction false} OwnerExpects(run: seq<Action>, pid: Pid)
    requires IsRun(Initial, run)
    ensures Get(Exec(Initial, run).owner, pid) == if pid == 0 then ExpectsAny(run) else Expects(run, pid)
    decreases |run|
  {
    if run != [] {
      var n := |run| - 1;
      LastStep(Initial, run);
      OwnerExpects(run[..n], pid);
      if run[n].Reap? {
        OwnerExpects(run[..n], run[n].pid);
        RunKeepsInv(Initial, run[..n]);
      }
    }
  }

  /** Whenever a process is reaped, its state goes to the request last registered for it and
      not cancelled, even if the process exited before the registration was sent; without one
      to the request for any process, and without that nowhere. */
  lemma StateGoesWhereExpected(run: seq<Action>, pid: Pid)
    requires IsRun(Initial, run) && Enabled(Exec(Initial, run), Reap(pid))
    ensures var st := Exec(Initial, run);
      Apply(st, Reap(pid)).log == st.log + [Delivery(pid,
        if Expects(run, pid).Some? then Own(Expects(run, pid).value)
        else if ExpectsAny(run).Some? then Any(ExpectsAny(run).value)
        else Logged)]
  {
    RunKeepsInv(Initial, run);
    OwnerExpects(run, pid);
    OwnerExpects(run, 0);
  }

  /** Each request receives at most one state. */
  lemma AtMostOneState(run: seq<Action>, i: nat, j: nat, r: nat)
    requires IsRun(Initial, run) && i < j < |Exec(Initial, run).log|
    requires Answers(Exec(Initial, run).log[i], r)
    ensures !Answers(Exec(Initial, run).log[j], r)
  {
    RunKeepsInv(Initial, run);
    assert Differ(Exec(Initial, run).log[i], Exec(Initial, run).log[j]);
  }

  /** An exited process is never left behind, unless an error cut the last round of reaping
      short: when the loop waits for its next event and no signal is pending, all exited
      processes have been reaped. */
  lemma NoZombieForgotten(run: seq<Action>)
    requires IsRun(Initial, run)
    ensures var st := Exec(Initial, run); st.loop == Select && !st.signalled && !st.failed ==> st.zombies == {}
  {
    RunKeepsInv(Initial, run);
  }

  /** After an error, exited processes can stay behind with no signal pending. */
  lemma ErrorLeavesZombie() returns (run: seq<Action>)
    ensures IsRun(Initial, run)
    ensures var st := Exec(Initial, run); st.loop == Select && !st.signalled && st.zombies == {1}
  {
    var s1 := Apply(Initial, Adopt(1));
    var s2 := Apply(s1, Exit(1));
    var s3 := Apply(s2, Signal);
    run := [Adopt(1), Exit(1), Signal, Fail];
    assert run[1..] == [Exit(1), Signal, Fail] && run[1..][1..] == [Signal, Fail] && run[1..][1..][1..] == [Fail];
    assert IsRun(s3, [Fail]) && Exec(s3, [Fail]) == Apply(s3, Fail);
    assert IsRun(s2, [Signal, Fail]) && Exec(s2, [Signal, Fail]) == Apply(s3, Fail);
    assert IsRun(s1, [Exit(1), Signal, Fail]) && Exec(s1, [Exit(1), Signal, Fail]) == Apply(s3, Fail);
  }

  /** A signal is on its way if it is needed. */
  predicate WillSee(st: State)
  {
    st.zombies != {} ==> st.signalled || st.loop == Reaping
  }

  /** If the loop waits and no signal is pending, every exited process has been reaped. */
  predicate Accounted(st: State)
  {
    st.loop == Select && !st.signalled ==> st.zombies == {}
  }

  predicate AlwaysAccounted(st: State, run: seq<Action>)
    requires IsRun(st, run)
    decreases |run|
  {
    Accounted(st) && (run == [] || AlwaysAccounted(Apply(st, run[0]), run[1..]))
  }

  /** Waiting for children only fails when no exited child is left or when a further signal
      is pending. */
  predicate FailsInTime(st: State, run: seq<Action>)
    requires IsRun(st, run)
    decreases |run|
  {
    run == [] || ((run[0].Fail? ==> st.zombies == {} || st.signalled) && FailsInTime(Apply(st, run[0]), run[1..]))
  }

  /** Exactly when processes are left behind: over every run, no exited process is left with
      the loop waiting and no signal pending, if and only if every error of the wait call
      finds no exited child or leaves a further signal pending. */
  lemma {:induction false} AccountedIff(st: State, run: seq<Action>)
    requires WillSee(st) && IsRun(st, run)
    ensures AlwaysAccounted(st, run) <==> FailsInTime(st, run)
    decreases |run|
  {
    if run != [] {
      var next := Apply(st, run[0]);
      if WillSee(next) {
        AccountedIff(next, run[1..]);
      } else {
        assert run[0].Fail? && !Accounted(next);
      }
    }
  }

  /** A step of the loop itself. */
  predicate ByLoop(a: Action)
  {
    a.Take? || a.Signal? || a.Reap? || a.Done?
  }

  lemma Cons(st: State, a: Action, rest: seq<Action>)
    requires Enabled(st, a) && IsRun(Apply(st, a), rest)
    ensures IsRun(st, [a] + rest) && Exec(st, [a] + rest) == Exec(Apply(st, a), rest)
  {
    assert ([a] + rest)[1..] == rest;
  }

  /** From any point of a run at which no client holds the lock, the loop can by its own
      steps reap every exited process of which it will be told. */
  lemma {:induction false} LoopReapsAll(st: State) returns (run: seq<Action>)
    requires Inv(st) && !st.held && WillSee(st)
    ensures IsRun(st, run) && Exec(st, run).zombies == {} && Exec(st, run).loop == Select
    ensures forall i :: 0 <= i < |run| ==> ByLoop(run[i])
    decreases |st.zombies|, if st.loop == Reaping then 0 else if st.loop == Select then 1 else 2
  {
    var a: Action;
    if st.loop == Locked {
      a := Take;
    } else if st.loop == Select {
      if st.zombies == {} {
        return [];
      }
      a := Signal;
    } else if st.zombies == {} {
      assert IsRun(Apply(st, Done), []);
      run := [Done];
      return;
    } else {
      var pid :| pid in st.zombies;
      a := Reap(pid);
    }
    LockStep(st, a);
    SignalStep(st, a);
    OnceStep(st, a);
    var rest := LoopReapsAll(Apply(st, a));
    run := [a] + rest;
    Cons(st, a, rest);
  }

  lemma {:induction false} UnusedPid(used: set<Pid>) returns (pid: Pid)
    ensures pid > 0 && forall p :: p in used ==> p < pid
  {
    if used == {} {
      return 1;
    }
    var p :| p in used;
    var q := UnusedPid(used - {p});
    pid := if p < q then q else p + 1;
    forall r | r in used ensures r < pid {
      assert r == p || r in used - {p};
    }
  }

  /** From any point of a run at which no client holds the lock, every exited process can
      still be reaped: by the loop alone, or, after an error, once another child exits. */
  lemma CanReapAll(st: State) returns (run: seq<Action>)
    requires Inv(st) && !st.held
    ensures IsRun(st, run) && Exec(st, run).zombies == {} && Exec(st, run).loop == Select
    ensures WillSee(st) ==> forall i :: 0 <= i < |run| ==> ByLoop(run[i])
  {
    if WillSee(st) {
      run := LoopReapsAll(st);
      return;
    }
    var pid := UnusedPid(st.running + st.zombies);
    var s1 := Apply(st, Adopt(pid));
    LockStep(st, Adopt(pid));
    SignalStep(st, Adopt(pid));
    OnceStep(st, Adopt(pid));
    var s2 := Apply(s1, Exit(pid));
    LockStep(s1, Exit(pid));
    SignalStep(s1, Exit(pid));
    OnceStep(s1, Exit(pid));
    var rest := LoopReapsAll(s2);
    Cons(s1, Exit(pid), rest);
    Cons(st, Adopt(pid), [Exit(pid)] + rest);
    run := [Adopt(pid)] + ([Exit(pid)] + rest);
  }
}
