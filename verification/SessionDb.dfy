/** The broker's sessions, by instance and by service name. */
module SessionDb {
  import opened Basics

  type Id = string
  type Service = string

  /** `number` tells apart sessions registered under the same id. */
  datatype Session = Session(id: Id, service: Service, number: nat)

  datatype Instance = Instance(sessions: map<Id, Session>, services: map<Service, set<Id>>)

  const EMPTY := Instance(map[], map[])

  function Members(inst: Instance, service: Service): set<Id>
  {
    if service in inst.services then inst.services[service] else {}
  }

  function Register(inst: Instance, s: Session): Instance
  {
    Instance(inst.sessions[s.id := s],
             if s.service != "" then inst.services[s.service := Members(inst, s.service) + {s.id}] else inst.services)
  }

  function Remove(inst: Instance, s: Session): Instance
  {
    var left := Members(inst, s.service) - {s.id};
    Instance(inst.sessions - {s.id},
             if s.service == "" then inst.services
             else if left == {} then inst.services - {s.service}
             else inst.services[s.service := left])
  }

  predicate Serves(inst: Instance, id: Id, service: Service)
  {
    id in inst.sessions && inst.sessions[id].service == service
  }

  /** `service` lists exactly the sessions that have it as their service name. */
  ghost predicate Listed(inst: Instance, service: Service)
  {
    && (service in inst.services ==> inst.services[service] != {} && service != "")
    && (service != "" ==> forall id :: id in Members(inst, service) <==> Serves(inst, id, service))
  }

  /** The service index says the same as the sessions. */
  ghost predicate Consistent(inst: Instance)
  {
    && (forall service: Service :: Listed(inst, service))
    && Keyed(inst)
  }

  ghost predicate Keyed(inst: Instance)
  {
    forall id :: id in inst.sessions ==> inst.sessions[id].id == id
  }

  // ----- Which sessions there are -------------------------------------------------------------

  /** Registering puts the session under its id and removing leaves nothing there, whatever
      its service name; no other id is touched. */
  lemma SessionsAfter(inst: Instance, s: Session, id: Id)
    ensures Get(Register(inst, s).sessions, id) == if id == s.id then Some(s) else Get(inst.sessions, id)
    ensures Get(Remove(inst, s).sessions, id) == if id == s.id then None else Get(inst.sessions, id)
  {
  }

  // ----- When the index stays right ---------------------------------------------------------

  /** Registering over an existing session must not move it away from a service. */
  predicate KeepsService(inst: Instance, s: Session)
  {
    s.id !in inst.sessions || inst.sessions[s.id].service == "" || inst.sessions[s.id].service == s.service
  }

  lemma RegisterLists(inst: Instance, s: Session, service: Service)
    requires Consistent(inst) && KeepsService(inst, s)
    ensures Listed(Register(inst, s), service)
  {
    assert Listed(inst, service);
    var inst' := Register(inst, s);
    if service != "" {
      forall id ensures id in Members(inst', service) <==> Serves(inst', id, service) {
        assert id in Members(inst, service) <==> Serves(inst, id, service);
      }
    }
  }

  lemma RemoveLists(inst: Instance, s: Session, service: Service)
    requires Consistent(inst) && KeepsService(inst, s)
    ensures Listed(Remove(inst, s), service)
  {
    assert Listed(inst, service);
    var inst' := Remove(inst, s);
    if service != "" {
      forall id ensures id in Members(inst', service) <==> Serves(inst', id, service) {
        assert id in Members(inst, service) <==> Serves(inst, id, service);
      }
    }
  }

  /** Registering keeps the index right exactly when an existing session of that id has no
      service name or the same one. */
  lemma RegisterKeepsIff(inst: Instance, s: Session)
    requires Consistent(inst)
    ensures Consistent(Register(inst, s)) <==> KeepsService(inst, s)
  {
    if KeepsService(inst, s) {
      forall service: Service ensures Listed(Register(inst, s), service) {
        RegisterLists(inst, s, service);
      }
    } else {
      var service := inst.sessions[s.id].service;
      assert Listed(inst, service) && Serves(inst, s.id, service);
      assert s.id in Members(Register(inst, s), service) && !Listed(Register(inst, s), service);
    }
  }

  /** An id registered again under another service name stays listed under the first. */
  lemma RenamingBreaksIndex()
    ensures var inst := Register(EMPTY, Session("a", "web", 0));
      Consistent(inst) && !Consistent(Register(inst, Session("a", "db", 1)))
  {
    RegisterKeepsIff(EMPTY, Session("a", "web", 0));
    var inst := Register(EMPTY, Session("a", "web", 0));
    RegisterKeepsIff(inst, Session("a", "db", 1));
    assert inst.sessions["a"].service == "web" && "web"[0] != "db"[0];
  }

  /** Removing keeps the index right under the same condition. */
  lemma RemoveKeepsIff(inst: Instance, s: Session)
    requires Consistent(inst)
    ensures Consistent(Remove(inst, s)) <==> KeepsService(inst, s)
  {
    if KeepsService(inst, s) {
      forall service: Service ensures Listed(Remove(inst, s), service) {
        RemoveLists(inst, s, service);
      }
    } else {
      var service := inst.sessions[s.id].service;
      assert Listed(inst, service) && Serves(inst, s.id, service);
      assert s.id in Members(Remove(inst, s), service) && !Listed(Remove(inst, s), service);
    }
  }

  datatype Op = Add(session: Session) | Drop(session: Session)

  function Exec(inst: Instance, ops: seq<Op>): Instance
    decreases |ops|
  {
    if ops == [] then inst else Exec(Next(inst, ops[0]), ops[1..])
  }

  function Next(inst: Instance, op: Op): Instance
  {
    match op case Add(s) => Register(inst, s) case Drop(s) => Remove(inst, s)
  }

  /** What is registered under `id` after `ops`, if it was `was` before: the session last added
      under it, unless one was dropped since. */
  function LastUnder(was: Option<Session>, ops: seq<Op>, id: Id): Option<Session>
    decreases |ops|
  {
    if ops == [] then was
    else
      var now := if ops[0].session.id != id then was else if ops[0].Add? then Some(ops[0].session) else None;
      LastUnder(now, ops[1..], id)
  }

  /** Over every run, each id has the session last registered under it and not removed since. */
  lemma {:induction false} RunContents(inst: Instance, ops: seq<Op>, id: Id)
    ensures Get(Exec(inst, ops).sessions, id) == LastUnder(Get(inst.sessions, id), ops, id)
    decreases |ops|
  {
    if ops != [] {
      SessionsAfter(inst, ops[0].session, id);
      RunContents(Next(inst, ops[0]), ops[1..], id);
    }
  }

  /** At each point of the run the session added or dropped has the service name of the
      session then registered under its id, if that has one. */
  predicate KeepsServices(inst: Instance, ops: seq<Op>)
    decreases |ops|
  {
    ops == [] || (KeepsService(inst, ops[0].session) && KeepsServices(Next(inst, ops[0]), ops[1..]))
  }

  lemma NextKeepsIff(inst: Instance, op: Op)
    requires Consistent(inst)
    ensures Consistent(Next(inst, op)) <==> KeepsService(inst, op.session)
  {
    RegisterKeepsIff(inst, op.session);
    RemoveKeepsIff(inst, op.session);
  }

  /** The index is right at every point of the run. */
  ghost predicate AlwaysConsistent(inst: Instance, ops: seq<Op>)
    decreases |ops|
  {
    Consistent(inst) && (ops == [] || AlwaysConsistent(Next(inst, ops[0]), ops[1..]))
  }

  /** Over every run, the index stays right throughout if and only if no operation moves a
      registered session away from its service. */
  lemma {:induction false} RunKeepsIndexIff(inst: Instance, ops: seq<Op>)
    requires Consistent(inst)
    ensures AlwaysConsistent(inst, ops) <==> KeepsServices(inst, ops)
    ensures KeepsServices(inst, ops) ==> Consistent(Exec(inst, ops))
    decreases |ops|
  {
    if ops != [] {
      NextKeepsIff(inst, ops[0]);
      if KeepsService(inst, ops[0].session) {
        RunKeepsIndexIff(Next(inst, ops[0]), ops[1..]);
      }
    }
  }

  /** Every id keeps one service name for ever. */
  ghost predicate StableNames(inst: Instance, ops: seq<Op>, nameOf: Id -> Service)
  {
    && (forall id :: id in inst.sessions ==> inst.sessions[id].service == nameOf(id))
    && (forall i :: 0 <= i < |ops| ==> ops[i].session.service == nameOf(ops[i].session.id))
  }

  /** In particular, over any run in which ids keep their service names. */
  lemma {:induction false} RunKeepsIndex(inst: Instance, ops: seq<Op>, nameOf: Id -> Service)
    requires Consistent(inst) && StableNames(inst, ops, nameOf)
    ensures Consistent(Exec(inst, ops)) && KeepsServices(inst, ops)
    decreases |ops|
  {
    if ops != [] {
      NextKeepsIff(inst, ops[0]);
      RunKeepsIndex(Next(inst, ops[0]), ops[1..], nameOf);
    }
  }

  // ----- The database ---------------------------------------------------------------------------

  datatype Error = NotFound | NotAllowed | NoScheduler

  datatype Outcome = Created(session: Session) | AlreadyExists(session: Session) | Failed(error: Error)

  datatype Request = Request(id: Id, service: Service, forceNew: bool, disallowNew: bool)

  /** The sessions of a service are those its entry lists. */
  lemma ServiceSessions(inst: Instance, service: Service)
    requires Consistent(inst) && service != ""
    ensures forall s: Session :: s.id in Members(inst, service) && Get(inst.sessions, s.id) == Some(s) <==>
                        s.service == service && Get(inst.sessions, s.id) == Some(s)
  {
    assert Listed(inst, service);
    forall s: Session | Get(inst.sessions, s.id) == Some(s)
      ensures s.id in Members(inst, service) <==> s.service == service
    {
      assert s.id in Members(inst, service) <==> Serves(inst, s.id, service);
    }
  }

  /** The sessions of some ids, in any order; ids without a session are passed over. */
  method Collect(inst: Instance, ids: set<Id>) returns (found: seq<Session>)
    ensures Keyed(inst) ==>
      && (forall s: Session :: s in found <==> s.id in ids && Get(inst.sessions, s.id) == Some(s))
      && (forall i, j :: 0 <= i < j < |found| ==> found[i] != found[j])
  {
    found := [];
    var todo := ids;
    while todo != {}
      invariant todo <= ids
      invariant Keyed(inst) ==>
        && (forall s: Session :: s in found <==> s.id in ids - todo && Get(inst.sessions, s.id) == Some(s))
        && (forall i, j :: 0 <= i < j < |found| ==> found[i] != found[j])
      decreases todo
    {
      var id :| id in todo;
      todo := todo - {id};
      if id in inst.sessions {
        assert Keyed(inst) ==> inst.sessions[id] !in found;
        found := found + [inst.sessions[id]];
      }
    }
  }

  /** Some session of these ids, if there is one. */
  method FindAny(inst: Instance, ids: set<Id>) returns (r: Option<Session>)
    ensures r.None? <==> forall id :: id in ids ==> id !in inst.sessions
    ensures r.Some? ==> exists id :: id in ids && Get(inst.sessions, id) == r
  {
    var todo := ids;
    while todo != {}
      invariant todo <= ids && forall id :: id in ids - todo ==> id !in inst.sessions
      decreases todo
    {
      var id :| id in todo;
      if id in inst.sessions {
        return Some(inst.sessions[id]);
      }
      todo := todo - {id};
    }
    return None;
  }

  /** The request may join a running session of its service. */
  predicate MayJoin(inst: Instance, req: Request)
  {
    req.service != "" && !req.forceNew && exists id :: id in Members(inst, req.service) && id in inst.sessions
  }

  /** Which requests find a session, which get a new one, and which are refused. */
  ghost predicate AnswersRequest(inst: Instance, req: Request, hasScheduler: bool, r: Outcome)
  {
    if req.id != "" then
      r == if req.id in inst.sessions then AlreadyExists(inst.sessions[req.id]) else Failed(NotFound)
    else if MayJoin(inst, req) then
      r.AlreadyExists? && exists id :: id in Members(inst, req.service) && Get(inst.sessions, id) == Some(r.session)
    else if req.disallowNew && (hasScheduler || (req.service != "" && !req.forceNew)) then r == Failed(NotAllowed)
    else if !hasScheduler then r == Failed(NoScheduler)
    else r.Created? && r.session.id !in inst.sessions && r.session.service == req.service
  }

  /** With a right index, a request joins a session exactly when one has its service name,
      and the session it gets has it. */
  lemma JoinsByServiceName(inst: Instance, req: Request, hasScheduler: bool, r: Outcome)
    requires Consistent(inst) && req.id == "" && AnswersRequest(inst, req, hasScheduler, r)
    ensures r.AlreadyExists? <==> req.service != "" && !req.forceNew && exists id :: Serves(inst, id, req.service)
    ensures r.AlreadyExists? ==> r.session.service == req.service
  {
    assert Listed(inst, req.service);
  }

  /** Why a request gets the answer it gets. */
  lemma AnswerReasons(inst: Instance, req: Request, hasScheduler: bool, r: Outcome)
    requires AnswersRequest(inst, req, hasScheduler, r)
    ensures r == Failed(NotFound) <==> req.id != "" && req.id !in inst.sessions
    ensures req.id != "" && req.id in inst.sessions ==> r == AlreadyExists(inst.sessions[req.id])
    ensures r == Failed(NotAllowed) ==> req.id == "" && req.disallowNew
    ensures r == Failed(NoScheduler) ==> req.id == "" && !hasScheduler
    ensures r.Created? ==> req.id == "" && !req.disallowNew && hasScheduler
    ensures req.id == "" && !req.disallowNew && hasScheduler ==> r.Created? || r.AlreadyExists?
    ensures req.id == "" && req.disallowNew && hasScheduler && !r.AlreadyExists? ==> r == Failed(NotAllowed)
  {
  }

  class SessionDatabase {
    var instances: map<int, Instance>
    var count: nat

    constructor ()
      ensures instances == map[]
    {
      instances, count := map[], 0;
    }

    ghost function At(inst: int): Instance
      reads this
    {
      if inst in instances then instances[inst] else EMPTY
    }

    /** The instance, made on first use. */
    method GetInstance(inst: int) returns (r: Instance)
      modifies `instances
      ensures inst in instances && r == instances[inst] == old(At(inst))
      ensures instances == old(instances)[inst := r]
    {
      if inst !in instances {
        instances := instances[inst := EMPTY];
      }
      r := instances[inst];
    }

    method RegisterSession(inst: int, id: Id, service: Service) returns (s: Session)
      modifies this
      ensures s.id == id && s.service == service
      ensures instances == old(instances)[inst := Register(old(At(inst)), s)]
      ensures old(Consistent(At(inst))) ==> (Consistent(At(inst)) <==> old(KeepsService(At(inst), s)))
    {
      var r := GetInstance(inst);
      s := Session(id, service, count);
      count := count + 1;
      if Consistent(r) {
        RegisterKeepsIff(r, s);
      }
      var services := r.services;
      if service != "" {
        if service !in services {
          services := services[service := {}];
        }
        services := services[service := services[service] + {id}];
      }
      r := r.(services := services);
      r := r.(sessions := r.sessions[id := s]);
      assert r == Register(old(At(inst)), s);
      instances := instances[inst := r];
    }

    method RemoveSession(inst: int, s: Session)
      modifies `instances
      ensures instances == old(instances)[inst := Remove(old(At(inst)), s)]
      ensures old(Consistent(At(inst))) ==> (Consistent(At(inst)) <==> old(KeepsService(At(inst), s)))
    {
      var r := GetInstance(inst);
      if Consistent(r) {
        RemoveKeepsIff(r, s);
      }
      r := r.(sessions := r.sessions - {s.id});
      if s.service != "" {
        if s.service in r.services {
          r := r.(services := r.services[s.service := r.services[s.service] - {s.id}]);
        }
        if s.service !in r.services || r.services[s.service] == {} {
          r := r.(services := r.services - {s.service});
        }
      }
      assert r == Remove(old(At(inst)), s);
      instances := instances[inst := r];
    }

    /** Lists each session of a service once, in any order. */
    method ListSessionForService(inst: int, service: Service) returns (found: seq<Session>)
      modifies `instances
      ensures At(inst) == old(At(inst))
      ensures Consistent(At(inst)) ==>
        && (forall s: Session :: s in found <==> s.service == service != "" && Get(At(inst).sessions, s.id) == Some(s))
        && (forall i, j :: 0 <= i < j < |found| ==> found[i] != found[j])
    {
      var r := GetInstance(inst);
      found := [];
      if Consistent(r) {
        assert Listed(r, service);
        if service != "" {
          ServiceSessions(r, service);
        }
      }
      if service !in r.services {
        return;
      }
      found := Collect(r, r.services[service]);
    }

    /** `candidates` are the ids the generator comes up with. */
    method AddSession(inst: int, req: Request, hasScheduler: bool, candidates: seq<Id>) returns (r: Outcome)
      requires exists i :: 0 <= i < |candidates| && candidates[i] !in At(inst).sessions
      modifies this
      ensures old(Consistent(At(inst))) ==> Consistent(At(inst))
      ensures !r.Created? ==> At(inst) == old(At(inst))
      ensures AnswersRequest(old(At(inst)), req, hasScheduler, r)
      ensures r.Created? ==> At(inst) == Register(old(At(inst)), r.session)
    {
      var i := GetInstance(inst);
      if req.id != "" {
        return if req.id in i.sessions then AlreadyExists(i.sessions[req.id]) else Failed(NotFound);
      }
      if req.service != "" && !req.forceNew {
        if req.service in i.services {
          var s := FindAny(i, i.services[req.service]);
          if s.Some? {
            return AlreadyExists(s.value);
          }
        }
        if req.disallowNew {
          return Failed(NotAllowed);
        }
      }
      if !hasScheduler {
        return Failed(NoScheduler);
      }
      if req.disallowNew {
        return Failed(NotAllowed);
      }
      var k := 0;
      while candidates[k] in i.sessions
        invariant 0 <= k < |candidates| && forall j :: 0 <= j < k ==> candidates[j] in i.sessions
        decreases |candidates| - k
      {
        k := k + 1;
      }
      var s := RegisterSession(inst, candidates[k], req.service);
      return Created(s);
    }
  }
}
