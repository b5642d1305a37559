/** Runs of any number of agents against one Consul.

    Requests of one agent come one after the other, but those of different agents
    overlap: a registration is several steps, and between any two of them any other
    agent may do anything. The refreshes of a lease tick interleave with all of that
    one by one, and Consul may reap an instance at any moment. */
module Fleet {
  import opened Model
  import opened Consul
  import opened Registry
  import opened InstanceId

  /** How far the registration an agent is busy with has come: about to check the
      route document, about to register the service, about to lease and enter it. */
  datatype Pending =
    | Idle
    | Routing(request: RegisterRequest)
    | Enlisting(request: RegisterRequest)
    | Adopting(service: LocalService)

  /** One agent run: its table, the services whose lease the current tick has yet to
      refresh, and the registration it is busy with. */
  datatype Agent = Agent(settings: Settings, locals: Locals, queue: seq<LocalService>, pending: Pending)

  /** A registration Consul once accepted, as it was made. */
  datatype Record = Record(settings: Settings, service: LocalService) {
    function RunId(): string { service.agentRunId }
    function Key(): string { KeyOfService(service) }
    function Ref(): string { RefOf(settings, service.request) }
    ghost function Meaning(): RouteDocument { DocumentFor(service.request, 0).Meaning() }
    function Registration(): Registration { RegistrationFor(settings, service) }
  }

  datatype World = World(store: Store, agents: map<string, Agent>, history: map<string, Record>) {
    function WithAgent(run: string, agent: Agent): World {
      this.(agents := agents[run := agent])
    }

    function WithEntry(run: string, key: string, entry: LocalService): World
      requires run in agents
    {
      WithAgent(run, agents[run].(locals := agents[run].locals[key := entry]))
    }

    function WithStore(s: Store): World {
      this.(store := s)
    }

    function WithPending(run: string, pending: Pending): World
      requires run in agents
    {
      WithAgent(run, agents[run].(pending := pending))
    }
  }

  const INITIAL := World(EMPTY, map[], map[])

  // ------------------------------------------------------------- invariant

  /** An entry stripped of what its life cycle may change. */
  function Core(service: LocalService): LocalService {
    service.(state := Registered, updatedAt := 0, drainDeadline := None)
  }

  ghost predicate RecordOk(w: World, id: string) {
    id in w.history &&
    var record := w.history[id];
    && IsInstanceId(id)
    && record.RunId() in w.agents
    && w.agents[record.RunId()].settings == record.settings
    && record.service.request.Valid()
    && record.service
    == NewService(record.settings, record.RunId(), record.service.request, id, record.service.registeredAt)
    && record.Ref() in w.store.kv
    && w.store.kv[record.Ref()].Meaning() == record.Meaning()
  }

  ghost predicate InstanceOk(w: World, id: string) {
    && id in w.history && id in w.store.instances
    && w.store.instances[id] == w.history[id].Registration()
  }

  ghost predicate EntryOk(w: World, run: string, key: string) {
    run in w.agents && key in w.agents[run].locals &&
    var entry := w.agents[run].locals[key];
    && key == KeyOfService(entry)
    && entry.instanceId in w.history
    && Core(entry) == Core(w.history[entry.instanceId].service)
    && entry.agentRunId == run
    && entry.state in {Serving, Draining, Deregistered}
    && StateShows(w.store, entry)
  }

  /** Consul has forgotten a deregistered instance, and a draining one, if Consul
      still has it, is in maintenance. */
  predicate StateShows(store: Store, entry: LocalService) {
    && (entry.state == Deregistered ==> entry.instanceId !in store.instances)
    && (entry.state == Draining && entry.instanceId in store.instances ==> entry.instanceId in store.maintenance)
  }

  /** The instance is the one its own run holds, actively, under its own key. */
  ghost predicate Owned(w: World, id: string) {
    id in w.history &&
    var run, key := w.history[id].RunId(), w.history[id].Key();
    && run in w.agents
    && Active(w.agents[run].locals, key)
    && w.agents[run].locals[key].instanceId == id
  }

  ghost predicate QueuedOk(w: World, run: string, service: LocalService) {
    && service.instanceId in w.history
    && service.leaseCheckId == LeaseCheckIdFor(service.instanceId)
    && w.history[service.instanceId].RunId() == run
    && (service.instanceId in w.store.instances ==> Owned(w, service.instanceId))
  }

  /** The route document a request asks for is in place. */
  ghost predicate Routed(w: World, run: string, request: RegisterRequest) {
    run in w.agents &&
    var ref := RefOf(w.agents[run].settings, request);
    ref in w.store.kv && w.store.kv[ref].Meaning() == DocumentFor(request, 0).Meaning()
  }

  /** No active entry is in the way of the service, nor does any hold its instance. */
  predicate HasRoom(locals: Locals, service: LocalService) {
    !Active(locals, KeyOfService(service))
    && forall key :: key in locals ==> locals[key].instanceId != service.instanceId
  }

  /** What a registration under way may rely on when it goes on. */
  ghost predicate PendingOk(w: World, run: string) {
    run in w.agents &&
    var agent := w.agents[run];
    match agent.pending
    case Idle => true
    case Routing(request) => request.Valid() && !Active(agent.locals, LocalKey(request.name, request.port))
    case Enlisting(request) =>
      request.Valid() && !Active(agent.locals, LocalKey(request.name, request.port)) && Routed(w, run, request)
    case Adopting(service) =>
      && service.instanceId in w.history && w.history[service.instanceId] == Record(agent.settings, service)
      && service.agentRunId == run && HasRoom(agent.locals, service)
  }

  ghost predicate RecordsOk(w: World) {
    forall id :: id in w.history ==> RecordOk(w, id)
  }

  ghost predicate InstancesOk(w: World) {
    forall id :: id in w.store.instances ==> InstanceOk(w, id)
  }

  predicate MarksOk(w: World) {
    w.store.leased <= w.store.instances.Keys && w.store.maintenance <= w.store.instances.Keys
  }

  ghost predicate LeasesOwned(w: World) {
    forall id :: id in w.store.leased ==> Owned(w, id)
  }

  ghost predicate EntriesOk(w: World) {
    forall run, key :: run in w.agents && key in w.agents[run].locals ==> EntryOk(w, run, key)
  }

  ghost predicate QueuesOk(w: World) {
    forall run, s :: run in w.agents && s in w.agents[run].queue ==> QueuedOk(w, run, s)
  }

  ghost predicate PendingsOk(w: World) {
    forall run :: run in w.agents ==> PendingOk(w, run)
  }

  ghost predicate Inv(w: World) {
    RecordsOk(w) && InstancesOk(w) && MarksOk(w) && LeasesOwned(w) && EntriesOk(w) && QueuesOk(w) && PendingsOk(w)
  }

  // -------------------------------------------------------------- progress

  predicate OnItsWay(w: World, run: string, id: string) {
    run in w.agents && w.agents[run].pending.Adopting? && w.agents[run].pending.service.instanceId == id
  }

  /** How far the life of an instance ID has come: not issued or not yet entered,
      serving, draining, deregistered, or no longer on record in the table. */
  function Phase(w: World, id: string): nat {
    if id !in w.history || OnItsWay(w, w.history[id].RunId(), id) then 0
    else
      var run, key := w.history[id].RunId(), w.history[id].Key();
      if run in w.agents && key in w.agents[run].locals && w.agents[run].locals[key].instanceId == id then
        match w.agents[run].locals[key].state
        case Registered => 1
        case Serving => 1
        case Draining => 2
        case Deregistered => 3
      else 4
  }

  ghost predicate RecordsStay(w: World, w': World) {
    && (forall id :: id in w.history ==> id in w'.history && w'.history[id] == w.history[id])
    && (forall run :: run in w.agents ==> run in w'.agents && w'.agents[run].settings == w.agents[run].settings)
  }

  ghost predicate RoutesStay(w: World, w': World) {
    forall key :: key in w.store.kv ==> key in w'.store.kv && w'.store.kv[key].Meaning() == w.store.kv[key].Meaning()
  }

  ghost predicate PhasesGrow(w: World, w': World) {
    forall id :: Phase(w, id) <= Phase(w', id)
  }

  /** Nothing is undone: phases only grow, records and runs stay, and a route key
      keeps the meaning it first got. */
  ghost predicate Advances(w: World, w': World) {
    RecordsStay(w, w') && RoutesStay(w, w') && PhasesGrow(w, w')
  }

  lemma AdvancesIsReflexive(w: World)
    ensures Advances(w, w)
  {
    hide RouteDocument.Meaning, Phase;
  }

  lemma AdvancesIsTransitive(u: World, v: World, w: World)
    requires Advances(u, v) && Advances(v, w)
    ensures Advances(u, w)
  {
    forall id
      ensures Phase(u, id) <= Phase(w, id)
    {
      assert Phase(u, id) <= Phase(v, id) <= Phase(w, id);
    }
  }

  // ----------------------------------------------------- elementary changes

  lemma LeaseCheckIdIsInjective(a: string, b: string)
    requires IsInstanceId(a) && IsInstanceId(b)
    requires LeaseCheckIdFor(a) == LeaseCheckIdFor(b)
    ensures a == b
  {
    InstanceIdIsTrimmed(a);
    InstanceIdIsTrimmed(b);
    assert a == LeaseCheckIdFor(a)[8..44];
    assert b == LeaseCheckIdFor(b)[8..44];
  }

  lemma RecordFacts(w: World, id: string)
    requires RecordOk(w, id)
    ensures w.history[id].service.instanceId == id
    ensures w.history[id].service.leaseCheckId == LeaseCheckIdFor(id)
    ensures InstanceOk(w, id) ==> w.store.instances[id].leaseCheckId == LeaseCheckIdFor(id)
    ensures IsInstanceId(id)
  {
    hide RouteDocument.Meaning, Record.Meaning;
  }

  lemma InstanceIsOnRecord(w: World, id: string)
    requires InstanceOk(w, id)
    ensures id in w.history
  {
  }

  /** A lease check belongs to the one instance it was made for. */
  lemma HoldersOfLease(w: World, id: string)
    requires RecordsOk(w) && InstancesOk(w) && id in w.history
    ensures w.store.Holders(LeaseCheckIdFor(id)) == if id in w.store.instances then {id} else {}
  {
    hide RecordOk, InstanceOk, LeaseCheckIdFor;
    RecordFacts(w, id);
    forall h | h in w.store.instances
      ensures w.store.instances[h].leaseCheckId == LeaseCheckIdFor(id) <==> h == id
    {
      assert InstanceOk(w, h);
      InstanceIsOnRecord(w, h);
      assert RecordOk(w, h);
      RecordFacts(w, h);
      if w.store.instances[h].leaseCheckId == LeaseCheckIdFor(id) {
        LeaseCheckIdIsInjective(h, id);
      }
    }
  }

  // What one part of the state needs from the others to stay well formed.

  lemma RecordsFrame(w: World, w': World)
    requires RecordsOk(w) && w'.history == w.history && RecordsStay(w, w') && RoutesStay(w, w')
    ensures RecordsOk(w')
  {
    hide RouteDocument.Meaning, Record.Meaning, RouteConfigRef, NewService;
    forall id | id in w'.history
      ensures RecordOk(w', id)
    {
      assert RecordOk(w, id);
    }
  }

  lemma InstancesFrame(w: World, w': World)
    requires InstancesOk(w) && RecordsStay(w, w')
    requires forall id :: id in w'.store.instances ==>
               id in w.store.instances && w'.store.instances[id] == w.store.instances[id]
    ensures InstancesOk(w')
  {
    hide RegistrationFor;
    forall id | id in w'.store.instances
      ensures InstanceOk(w', id)
    {
      assert InstanceOk(w, id);
    }
  }

  /** The table keeps its instances under their keys and what it has let go of. */
  predicate Settles(before: Locals, after: Locals) {
    forall key :: key in after ==>
      && key in before && after[key].instanceId == before[key].instanceId
      && (before[key].state == Deregistered ==> after[key].state == Deregistered)
  }

  lemma SettlesItself(locals: Locals)
    ensures Settles(locals, locals)
  {
  }

  lemma OneEntrySettles(locals: Locals, key: string, entry: LocalService)
    requires key in locals && entry.instanceId == locals[key].instanceId
    requires locals[key].state == Deregistered ==> entry.state == Deregistered
    ensures Settles(locals, locals[key := entry])
  {
  }

  lemma PendingsFrame(w: World, w': World)
    requires PendingsOk(w) && RecordsStay(w, w') && RoutesStay(w, w')
    requires forall run :: run in w'.agents && w'.agents[run].pending != Idle ==>
               && run in w.agents && w'.agents[run].pending == w.agents[run].pending
               && Settles(w.agents[run].locals, w'.agents[run].locals)
    ensures PendingsOk(w')
  {
    hide RouteDocument.Meaning, RouteConfigRef, DocumentFor, LocalKey;
    forall run | run in w'.agents
      ensures PendingOk(w', run)
    {
      if w'.agents[run].pending != Idle {
        assert PendingOk(w, run);
      }
    }
  }

  /** Consul may lose registrations and marks, gain marks, and gain route documents
      or rewrite them with the same meaning; a new lease needs an owner. */
  lemma StoreChanges(w: World, s: Store)
    requires Inv(w)
    requires forall id :: id in s.instances ==> id in w.store.instances && s.instances[id] == w.store.instances[id]
    requires MarksOk(w.WithStore(s))
    requires forall id :: id in w.store.maintenance && id in s.instances ==> id in s.maintenance
    requires forall id :: id in s.leased && id !in w.store.leased ==> Owned(w, id)
    requires RoutesStay(w, w.WithStore(s))
    ensures Inv(w.WithStore(s)) && Advances(w, w.WithStore(s))
  {
    hide RecordOk, InstanceOk, PendingOk, LocalKey, Core, RoutesStay;
    var w' := w.WithStore(s);
    RecordsFrame(w, w');
    InstancesFrame(w, w');
    PendingsFrame(w, w');
    assert EntriesOk(w') by {
      forall run, k | run in w'.agents && k in w'.agents[run].locals
        ensures EntryOk(w', run, k)
      {
        assert EntryOk(w, run, k);
      }
    }
    assert QueuesOk(w') by {
      forall run, service | run in w'.agents && service in w'.agents[run].queue
        ensures QueuedOk(w', run, service)
      {
        assert QueuedOk(w, run, service);
      }
    }
  }

  /** Consul may lose any instances at any time. */
  lemma LosesInstances(w: World, ids: set<string>)
    requires Inv(w)
    ensures var w' := w.WithStore(w.store.RemoveAll(ids)); Inv(w') && Advances(w, w')
  {
    hide RecordOk, InstanceOk, EntryOk, QueuedOk, PendingOk, Owned, RouteDocument.Meaning;
    StoreChanges(w, w.store.RemoveAll(ids));
  }

  /** A route document whose meaning is allowed may be written. */
  lemma WritesRoute(w: World, key: string, document: RouteDocument)
    requires Inv(w) && RouteAllows(w.store.kv, key, document)
    ensures var w' := w.WithStore(w.store.PutRoute(key, document.Canonicalized())); Inv(w') && Advances(w, w')
  {
    hide RecordOk, InstanceOk, EntryOk, QueuedOk, PendingOk, Owned, RouteDocument.Meaning,
         RouteDocument.Canonicalized;
    CanonicalizedKeepsMeaning(document);
    StoreChanges(w, w.store.PutRoute(key, document.Canonicalized()));
  }

  /** A lease may be passed for an instance that is owned, or no longer there. */
  lemma PassesLease(w: World, id: string)
    requires Inv(w) && id in w.history
    requires id in w.store.instances ==> Owned(w, id)
    ensures var w' := w.WithStore(w.store.Lease(LeaseCheckIdFor(id))); Inv(w') && Advances(w, w')
  {
    hide RecordOk, InstanceOk, EntryOk, QueuedOk, PendingOk, Owned, RouteDocument.Meaning, LeaseCheckIdFor;
    HoldersOfLease(w, id);
    StoreChanges(w, w.store.Lease(LeaseCheckIdFor(id)));
  }

  lemma Maintains(w: World, id: string)
    requires Inv(w) && id in w.store.instances
    ensures var w' := w.WithStore(w.store.Maintain(id)); Inv(w') && Advances(w, w')
  {
    hide RecordOk, InstanceOk, EntryOk, QueuedOk, PendingOk, Owned, RouteDocument.Meaning;
    StoreChanges(w, w.store.Maintain(id));
  }

  function Rank(state: ServiceState): nat {
    match state
    case Registered => 1
    case Serving => 1
    case Draining => 2
    case Deregistered => 3
  }

  /** An entry may move forward in its life cycle; it counts as deregistered only
      once Consul no longer has it. */
  lemma MovesEntry(w: World, run: string, key: string, entry: LocalService)
    requires Inv(w) && run in w.agents && key in w.agents[run].locals
    requires Core(entry) == Core(w.agents[run].locals[key])
    requires entry.state in {Serving, Draining, Deregistered}
    requires Rank(w.agents[run].locals[key].state) <= Rank(entry.state)
    requires StateShows(w.store, entry)
    ensures Inv(w.WithEntry(run, key, entry)) && Advances(w, w.WithEntry(run, key, entry))
  {
    hide RecordOk, InstanceOk, EntryOk, QueuedOk, PendingOk, Settles, Owned, Core, KeyOfService, RoutesStay, Phase;
    var w' := w.WithEntry(run, key, entry);
    CoreIsShared(entry, w.agents[run].locals[key]);
    RoutesStayRefl(w, w');
    RecordsFrame(w, w');
    InstancesFrame(w, w');
    OneEntrySettles(w.agents[run].locals, key, entry);
    forall r | r in w.agents
      ensures Settles(w.agents[r].locals, w.agents[r].locals)
    {
      SettlesItself(w.agents[r].locals);
    }
    PendingsFrame(w, w');
    assert EntryOk(w, run, key);
    EntryMoved(w, run, key, entry);
    PhasesMoved(w, run, key, entry);
    OwnersKept(w, run, key, entry);
  }

  lemma EntryMoved(w: World, run: string, key: string, entry: LocalService)
    requires EntriesOk(w) && run in w.agents && key in w.agents[run].locals
    requires Core(entry) == Core(w.agents[run].locals[key])
    requires entry.state in {Serving, Draining, Deregistered}
    requires StateShows(w.store, entry)
    ensures EntriesOk(w.WithEntry(run, key, entry))
  {
    hide KeyOfService, Core;
    var w' := w.WithEntry(run, key, entry);
    CoreIsShared(entry, w.agents[run].locals[key]);
    assert EntryOk(w, run, key);
    forall r, k | r in w'.agents && k in w'.agents[r].locals
      ensures EntryOk(w', r, k)
    {
      if r != run || k != key { assert EntryOk(w, r, k); }
    }
  }

  lemma PhasesMoved(w: World, run: string, key: string, entry: LocalService)
    requires run in w.agents && key in w.agents[run].locals
    requires entry.instanceId == w.agents[run].locals[key].instanceId
    requires Rank(w.agents[run].locals[key].state) <= Rank(entry.state)
    ensures PhasesGrow(w, w.WithEntry(run, key, entry))
  {
    hide KeyOfService;
  }

  lemma OwnersKept(w: World, run: string, key: string, entry: LocalService)
    requires run in w.agents && key in w.agents[run].locals
    requires entry.instanceId == w.agents[run].locals[key].instanceId
    requires entry.state == Deregistered ==> entry.instanceId !in w.store.instances
    requires MarksOk(w) && LeasesOwned(w) && QueuesOk(w)
    ensures LeasesOwned(w.WithEntry(run, key, entry)) && QueuesOk(w.WithEntry(run, key, entry))
  {
    hide KeyOfService, LeaseCheckIdFor;
    var w' := w.WithEntry(run, key, entry);
    forall id | id in w'.store.instances && Owned(w, id)
      ensures Owned(w', id)
    {
    }
    forall r, s | r in w'.agents && s in w'.agents[r].queue
      ensures QueuedOk(w', r, s)
    {
      assert QueuedOk(w, r, s);
    }
  }

  lemma RoutesStayRefl(w: World, w': World)
    requires w'.store == w.store
    ensures RoutesStay(w, w')
  {
  }

  lemma CoreIsShared(a: LocalService, b: LocalService)
    requires Core(a) == Core(b)
    ensures a.request == b.request && a.instanceId == b.instanceId && a.agentRunId == b.agentRunId
    ensures a.leaseCheckId == b.leaseCheckId
    ensures KeyOfService(a) == KeyOfService(b)
  {
    assert a.request == Core(a).request && b.request == Core(b).request;
    assert a.instanceId == Core(a).instanceId && b.instanceId == Core(b).instanceId;
    assert a.agentRunId == Core(a).agentRunId && b.agentRunId == Core(b).agentRunId;
    assert a.leaseCheckId == Core(a).leaseCheckId && b.leaseCheckId == Core(b).leaseCheckId;
  }

  /** Consul has accepted a registration nobody holds yet. */
  function Enlisted(w: World, run: string, service: LocalService): World
    requires run in w.agents
  {
    w.(store := w.store.Add(RegistrationFor(w.agents[run].settings, service)),
       history := w.history[service.instanceId := Record(w.agents[run].settings, service)])
  }

  /** The service is what a Register call of this run creates under a fresh ID. */
  ghost predicate Fresh(w: World, run: string, service: LocalService) {
    && run in w.agents && service.request.Valid()
    && IsInstanceId(service.instanceId) && service.instanceId !in w.history
    && service == NewService(w.agents[run].settings, run, service.request, service.instanceId, service.registeredAt)
  }

  lemma Enlists(w: World, run: string, service: LocalService)
    requires Inv(w) && Fresh(w, run, service) && Routed(w, run, service.request)
    ensures Inv(Enlisted(w, run, service)) && Advances(w, Enlisted(w, run, service))
  {
    hide EntryOk, QueuedOk, PendingOk, Owned, RecordOk, InstanceOk, Phase, RegistrationFor, RouteDocument.Meaning,
         NewService, Routed;
    RecordEnlisted(w, run, service);
    InstanceEnlisted(w, run, service);
    OthersIgnoreEnlisting(w, run, service);
    EnlistingKeepsRoutes(w, run, service);
    PendingsFrame(w, Enlisted(w, run, service));
  }

  lemma EnlistingKeepsRoutes(w: World, run: string, service: LocalService)
    requires run in w.agents && service.instanceId !in w.history && MarksOk(w)
    ensures RoutesStay(w, Enlisted(w, run, service)) && MarksOk(Enlisted(w, run, service))
  {
    hide RouteDocument.Meaning;
  }

  lemma RecordEnlisted(w: World, run: string, service: LocalService)
    requires RecordsOk(w) && Fresh(w, run, service) && Routed(w, run, service.request)
    ensures RecordsOk(Enlisted(w, run, service))
  {
    hide RouteDocument.Meaning, DocumentFor, RouteConfigRef, RegistrationFor, NewService;
    var w' := Enlisted(w, run, service);
    NewRecordOk(w, run, service);
    forall id | id in w'.history
      ensures RecordOk(w', id)
    {
      if id != service.instanceId { assert RecordOk(w, id); }
    }
  }

  lemma NewRecordOk(w: World, run: string, service: LocalService)
    requires Fresh(w, run, service) && Routed(w, run, service.request)
    ensures RecordOk(Enlisted(w, run, service), service.instanceId)
  {
    hide RouteDocument.Meaning, DocumentFor, RouteConfigRef, RegistrationFor;
  }

  lemma InstanceEnlisted(w: World, run: string, service: LocalService)
    requires InstancesOk(w) && run in w.agents && service.instanceId !in w.history
    ensures InstancesOk(Enlisted(w, run, service))
  {
    var w' := Enlisted(w, run, service);
    assert w'.history[service.instanceId].Registration().id == service.instanceId;
    hide RegistrationFor;
    forall id | id in w'.store.instances
      ensures InstanceOk(w', id)
    {
      if id != service.instanceId { assert InstanceOk(w, id); }
    }
  }

  lemma OthersIgnoreEnlisting(w: World, run: string, service: LocalService)
    requires LeasesOwned(w) && EntriesOk(w) && QueuesOk(w)
    requires run in w.agents && service.instanceId !in w.history
    ensures var w' := Enlisted(w, run, service);
            LeasesOwned(w') && EntriesOk(w') && QueuesOk(w') && PhasesGrow(w, w')
  {
    hide KeyOfService, Core, LeaseCheckIdFor;
    var w' := Enlisted(w, run, service);
    forall x | Owned(w, x)
      ensures Owned(w', x)
    {
    }
    forall r, k | r in w'.agents && k in w'.agents[r].locals
      ensures EntryOk(w', r, k)
    {
      assert EntryOk(w, r, k);
    }
    forall r, s | r in w'.agents && s in w'.agents[r].queue
      ensures QueuedOk(w', r, s)
    {
      assert QueuedOk(w, r, s);
    }
  }

  /** The run that enlisted an instance leases it and enters it into its table. */
  function Adopted(w: World, run: string, entry: LocalService): World
    requires run in w.agents
  {
    w.WithStore(w.store.Lease(entry.leaseCheckId)).WithEntry(run, KeyOfService(entry), entry)
  }

  /** Adopting is safe when no active entry is in the way. */
  lemma Adopts(w: World, run: string, entry: LocalService)
    requires Inv(w) && run in w.agents && entry.instanceId in w.store.instances && entry.instanceId in w.history
    requires Core(entry) == Core(w.history[entry.instanceId].service) && w.history[entry.instanceId].RunId() == run
    requires entry.state == Serving && w.agents[run].pending == Idle
    requires !Active(w.agents[run].locals, KeyOfService(entry))
    ensures Inv(Adopted(w, run, entry))
    ensures RecordsStay(w, Adopted(w, run, entry)) && RoutesStay(w, Adopted(w, run, entry))
    ensures forall id :: id != entry.instanceId ==> Phase(w, id) <= Phase(Adopted(w, run, entry), id)
    ensures Phase(Adopted(w, run, entry), entry.instanceId) == 1
  {
    hide EntryOk, QueuedOk, PendingOk, Owned, RecordOk, InstanceOk, Core, RouteDocument.Meaning, Phase,
         LeaseCheckIdFor, KeyOfService;
    var w' := Adopted(w, run, entry);
    CoreIsShared(entry, w.history[entry.instanceId].service);
    RecordFacts(w, entry.instanceId);
    HoldersOfLease(w, entry.instanceId);
    assert RoutesStay(w, w');
    RecordsFrame(w, w');
    InstancesFrame(w, w');
    PendingsFrame(w, w');
    AdoptedEntry(w, w', run, entry);
    AdoptedPhases(w, w', run, entry);
    AdoptedOwners(w, w', run, entry);
  }

  lemma AdoptedEntry(w: World, w': World, run: string, entry: LocalService)
    requires EntriesOk(w) && run in w.agents && entry.instanceId in w.store.instances && entry.instanceId in w.history
    requires Core(entry) == Core(w.history[entry.instanceId].service) && w.history[entry.instanceId].RunId() == run
    requires entry.state == Serving
    requires w' == w.WithStore(w'.store).WithEntry(run, KeyOfService(entry), entry)
    requires w'.store.instances == w.store.instances && w'.store.maintenance == w.store.maintenance
    ensures EntriesOk(w')
  {
    hide Core, KeyOfService;
    CoreIsShared(entry, w.history[entry.instanceId].service);
    forall r, k | r in w'.agents && k in w'.agents[r].locals
      ensures EntryOk(w', r, k)
    {
      if r != run || k != KeyOfService(entry) { assert EntryOk(w, r, k); }
    }
  }

  lemma AdoptedPhases(w: World, w': World, run: string, entry: LocalService)
    requires run in w.agents && entry.instanceId in w.history
    requires w.history[entry.instanceId].RunId() == run && w.history[entry.instanceId].Key() == KeyOfService(entry)
    requires entry.state == Serving && !Active(w.agents[run].locals, KeyOfService(entry))
               && w.agents[run].pending == Idle
    requires w' == w.WithStore(w'.store).WithEntry(run, KeyOfService(entry), entry)
    ensures forall id :: id != entry.instanceId ==> Phase(w, id) <= Phase(w', id)
    ensures Phase(w', entry.instanceId) == 1
  {
    hide KeyOfService;
  }

  lemma AdoptedOwners(w: World, w': World, run: string, entry: LocalService)
    requires LeasesOwned(w) && QueuesOk(w) && run in w.agents && entry.instanceId in w.history
    requires w.history[entry.instanceId].RunId() == run && w.history[entry.instanceId].Key() == KeyOfService(entry)
    requires entry.state == Serving && !Active(w.agents[run].locals, KeyOfService(entry))
    requires w' == w.WithStore(w'.store).WithEntry(run, KeyOfService(entry), entry)
    requires w'.store.instances == w.store.instances && w'.store.leased <= w.store.leased + {entry.instanceId}
    ensures LeasesOwned(w') && QueuesOk(w')
  {
    hide KeyOfService, LeaseCheckIdFor;
    assert Owned(w', entry.instanceId);
    forall id | Owned(w, id)
      ensures Owned(w', id)
    {
    }
    forall r, s | r in w'.agents && s in w'.agents[r].queue
      ensures QueuedOk(w', r, s)
    {
      assert QueuedOk(w, r, s);
    }
  }

  // --------------------------------------------------- registrations under way

  /** A registration may go on or be given up. */
  lemma PendingMoves(w: World, run: string, pending: Pending)
    requires Inv(w) && run in w.agents && PendingOk(w.WithPending(run, pending), run)
    ensures Inv(w.WithPending(run, pending))
    ensures RecordsStay(w, w.WithPending(run, pending)) && RoutesStay(w, w.WithPending(run, pending))
    ensures forall id :: !(pending.Adopting? && pending.service.instanceId == id) ==>
              Phase(w, id) <= Phase(w.WithPending(run, pending), id)
  {
    hide RecordOk, InstanceOk, EntryOk, QueuedOk, PendingOk, Owned, Core, RouteDocument.Meaning, Phase, KeyOfService,
         LeaseCheckIdFor;
    var w' := w.WithPending(run, pending);
    RoutesStayRefl(w, w');
    RecordsFrame(w, w');
    InstancesFrame(w, w');
    TablesIgnorePending(w, run, pending);
    PhasesOfPending(w, run, pending);
    OthersStayPending(w, run, pending);
  }

  lemma TablesIgnorePending(w: World, run: string, pending: Pending)
    requires run in w.agents && LeasesOwned(w) && EntriesOk(w) && QueuesOk(w)
    ensures var w' := w.WithPending(run, pending); LeasesOwned(w') && EntriesOk(w') && QueuesOk(w')
  {
    hide KeyOfService, Core, LeaseCheckIdFor;
    var w' := w.WithPending(run, pending);
    assert forall id :: Owned(w, id) ==> Owned(w', id);
    forall r, k | r in w'.agents && k in w'.agents[r].locals
      ensures EntryOk(w', r, k)
    {
      assert EntryOk(w, r, k);
    }
    forall r, s | r in w'.agents && s in w'.agents[r].queue
      ensures QueuedOk(w', r, s)
    {
      assert QueuedOk(w, r, s);
    }
  }

  lemma PhasesOfPending(w: World, run: string, pending: Pending)
    requires run in w.agents
    ensures forall id :: !(pending.Adopting? && pending.service.instanceId == id) ==>
              Phase(w, id) <= Phase(w.WithPending(run, pending), id)
  {
    hide KeyOfService;
  }

  lemma OthersStayPending(w: World, run: string, pending: Pending)
    requires PendingsOk(w) && run in w.agents && PendingOk(w.WithPending(run, pending), run)
    ensures PendingsOk(w.WithPending(run, pending))
  {
    hide RouteDocument.Meaning, RouteConfigRef, DocumentFor, LocalKey;
    var w' := w.WithPending(run, pending);
    forall r | r in w'.agents
      ensures PendingOk(w', r)
    {
      if r != run { assert PendingOk(w, r); }
    }
  }
}
