/** The steps of a fleet, the invariant over all runs, and what follows from it. */
module FleetRuns {
  import opened Model
  import opened Consul
  import opened Registry
  import opened InstanceId
  import opened Fleet

  /** A run of an agent starts; a registration looks the service up, checks the route
      document, registers the service, leases and enters it; another request is
      handled; a lease tick takes its snapshot of active services or does its next
      refresh; an agent shuts down, getting through the first `done` services; an
      agent cleans up after earlier runs, getting through `removed`; Consul reaps an
      instance. */
  datatype Event =
    | Boot(run: string, settings: Settings)
    | RegisterBegins(run: string, register: RegisterRequest, lease: bool, deregister: bool, updatedAt: int)
    | RegisterRoutes(run: string, get: bool, put: bool, documentAt: int)
    | RegisterEnlists(run: string, instanceId: Option<string>, up: bool, registeredAt: int)
    | RegisterAdopts(run: string, up: bool, updatedAt: int)
    | DrainCall(run: string, drain: DrainRequest, up: bool, startedAt: int, updatedAt: int)
    | DeregisterCall(run: string, deregisterRequest: DeregisterRequest, up: bool, updatedAt: int)
    | TickBegins(run: string, order: seq<string>)
    | TickRefreshes(run: string, up: bool)
    | ShutdownCall(run: string, order: seq<string>, clock: nat -> int, done: nat)
    | CleanupCall(run: string, removed: set<string>)
    | Reap(id: string)

  /** An agent that is free to take the next request. */
  predicate Ready(w: World, run: string) {
    run in w.agents && w.agents[run].pending == Idle
  }

  /** The ID generator answers fresh IDs, if it answers. */
  ghost predicate FreshId(w: World, instanceId: Option<string>) {
    instanceId.Some? ==> IsInstanceId(instanceId.value) && instanceId.value !in w.history
  }

  ghost predicate Enabled(w: World, e: Event) {
    match e
    case Boot(run, _) => run !in w.agents
    case RegisterBegins(run, _, _, _, _) => Ready(w, run)
    case RegisterRoutes(run, _, _, _) => run in w.agents && w.agents[run].pending.Routing?
    case RegisterEnlists(run, instanceId, _, _) =>
      run in w.agents && w.agents[run].pending.Enlisting? && FreshId(w, instanceId)
    case RegisterAdopts(run, _, _) => run in w.agents && w.agents[run].pending.Adopting?
    case DrainCall(run, _, _, _, _) => Ready(w, run)
    case DeregisterCall(run, _, _, _) => Ready(w, run)
    case TickBegins(run, order) =>
      run in w.agents && w.agents[run].queue == [] && ActiveOrder(w.agents[run].locals, order)
    case TickRefreshes(run, _) => run in w.agents && w.agents[run].queue != []
    case ShutdownCall(run, order, _, done) =>
      // Shutdown waits for the lease loop to end first
      Ready(w, run) && w.agents[run].queue == []
      && ActiveOrder(w.agents[run].locals, order) && done <= |order|
    case CleanupCall(run, removed) =>
      run in w.agents && removed <= Stale(w.store, BuildAgentId(w.agents[run].settings), run)
    case Reap(_) => true
  }

  function WithOutcome(w: World, run: string, outcome: Outcome): World
    requires run in w.agents
  {
    w.WithStore(outcome.store).WithAgent(run, w.agents[run].(locals := outcome.locals))
  }

  /** The lookup of a registration: a replay ends here, a changed request takes the
      old instance down, and what is new goes on to the route document. */
  ghost function Begun(w: World, run: string, request: RegisterRequest, lease: bool, deregister: bool, now: int): World
    requires run in w.agents
  {
    var key, locals := LocalKey(request.name, request.port), w.agents[run].locals;
    if !request.Valid() then w
    else if !Active(locals, key) then w.WithPending(run, Routing(request))
    else if SameRequest(locals[key].request, request) then
      WithOutcome(w, run, Replay(locals, w.store, locals[key], lease, now))
    else if !deregister then w
    else Retired(w, run, key, now).WithPending(run, Routing(request))
  }

  /** The old instance of a changed request goes. */
  ghost function Retired(w: World, run: string, key: string, updatedAt: int): World
    requires run in w.agents && key in w.agents[run].locals
  {
    w.WithStore(w.store.Remove(w.agents[run].locals[key].instanceId))
     .WithEntry(run, key, w.agents[run].locals[key].(state := Deregistered, updatedAt := updatedAt))
  }

  /** Reading the route document a registration found in the KV. */
  ghost predicate RouteRead(w: World, run: string, request: RegisterRequest, now: int)
    requires run in w.agents
  {
    RouteAllows(w.store.kv, RefOf(w.agents[run].settings, request), DocumentFor(request, now))
  }

  /** Writing the route document, once it was read as allowed. */
  ghost function RouteWritten(w: World, run: string, request: RegisterRequest, now: int): World
    requires run in w.agents
  {
    w.WithStore(w.store.PutRoute(RefOf(w.agents[run].settings, request), DocumentFor(request, now).Canonicalized()))
     .WithPending(run, Enlisting(request))
  }

  /** The route check as one step. */
  ghost function RouteChecked(w: World, run: string, get: bool, put: bool, now: int): World
    requires run in w.agents && w.agents[run].pending.Routing?
  {
    var request := w.agents[run].pending.request;
    if get && RouteRead(w, run, request, now) && put then RouteWritten(w, run, request, now)
    else w.WithPending(run, Idle)
  }

  ghost function ServiceRegistered(w: World, run: string, instanceId: Option<string>, up: bool, now: int): World
    requires run in w.agents && w.agents[run].pending.Enlisting?
  {
    if instanceId.None? || !up then w.WithPending(run, Idle)
    else
      var service := NewService(w.agents[run].settings, run, w.agents[run].pending.request, instanceId.value, now);
      Enlisted(w, run, service).WithPending(run, Adopting(service))
  }

  function LeasedAndEntered(w: World, run: string, up: bool, now: int): World
    requires run in w.agents && w.agents[run].pending.Adopting?
  {
    var service := w.agents[run].pending.service;
    if !(up && w.store.Holders(service.leaseCheckId) != {}) then w.WithPending(run, Idle)
    else Adopted(w.WithPending(run, Idle), run, service.(state := Serving, updatedAt := now))
  }

  ghost function Step(w: World, e: Event): World
    requires Enabled(w, e)
  {
    match e
    case Boot(run, settings) => w.WithAgent(run, Agent(settings, map[], [], Idle))
    case RegisterBegins(run, request, lease, deregister, updatedAt) =>
      Begun(w, run, request, lease, deregister, updatedAt)
    case RegisterRoutes(run, get, put, documentAt) => RouteChecked(w, run, get, put, documentAt)
    case RegisterEnlists(run, instanceId, up, registeredAt) => ServiceRegistered(w, run, instanceId, up, registeredAt)
    case RegisterAdopts(run, up, updatedAt) => LeasedAndEntered(w, run, up, updatedAt)
    case DrainCall(run, request, up, startedAt, updatedAt) =>
      WithOutcome(w, run, DrainOutcome(w.agents[run].locals, w.store, request, up, startedAt, updatedAt))
    case DeregisterCall(run, request, up, updatedAt) =>
      WithOutcome(w, run, DeregisterOutcome(w.agents[run].locals, w.store, request, up, updatedAt))
    case TickBegins(run, order) =>
      w.WithAgent(run, w.agents[run].(queue := Lookup(w.agents[run].locals, order)))
    case TickRefreshes(run, up) =>
      w.WithStore(Refreshed(w.store, w.agents[run].queue[0].leaseCheckId, up))
       .WithAgent(run, w.agents[run].(queue := w.agents[run].queue[1..]))
    case ShutdownCall(run, order, clock, done) =>
      w.WithStore(ShutdownStore(w.agents[run].locals, w.store, order, done))
       .WithAgent(run, w.agents[run].(locals := ShutdownLocals(w.agents[run].locals, order, clock, done)))
    case CleanupCall(_, removed) => w.WithStore(w.store.RemoveAll(removed))
    case Reap(id) => w.WithStore(w.store.Remove(id))
  }

  /** The world after a list of events, if they can happen one after the other. */
  ghost function Follow(w: World, events: seq<Event>): Option<World> {
    if events == [] then Some(w)
    else
      var before, last := Follow(w, events[..|events| - 1]), events[|events| - 1];
      if before.Some? && Enabled(before.value, last) then Some(Step(before.value, last)) else None
  }

  // --------------------------------------------- each step keeps the invariant

  lemma BootKeeps(w: World, run: string, settings: Settings)
    requires Inv(w) && run !in w.agents
    ensures Inv(Step(w, Boot(run, settings))) && Advances(w, Step(w, Boot(run, settings)))
  {
    hide RecordOk, InstanceOk, EntryOk, QueuedOk, PendingOk, Owned, Phase, RouteDocument.Meaning;
    var w' := Step(w, Boot(run, settings));
    assert RecordsStay(w, w') && RoutesStay(w, w');
    BootPhases(w, run, settings);
    RecordsFrame(w, w');
    InstancesFrame(w, w');
    PendingsFrame(w, w');
    BootTables(w, run, settings);
  }

  lemma BootTables(w: World, run: string, settings: Settings)
    requires LeasesOwned(w) && EntriesOk(w) && QueuesOk(w) && run !in w.agents
    ensures var w' := Step(w, Boot(run, settings)); LeasesOwned(w') && EntriesOk(w') && QueuesOk(w')
  {
    hide KeyOfService, Core, LeaseCheckIdFor;
    var w' := Step(w, Boot(run, settings));
    assert forall id :: Owned(w, id) ==> Owned(w', id);
    forall r, k | r in w'.agents && k in w'.agents[r].locals
      ensures EntryOk(w', r, k)
    {
      assert EntryOk(w, r, k);
    }
    forall r, s | r in w'.agents && s in w'.agents[r].queue
      ensures QueuedOk(w', r, s)
    {
      assert QueuedOk(w, r, s);
    }
  }

  lemma BootPhases(w: World, run: string, settings: Settings)
    requires RecordsOk(w) && run !in w.agents
    ensures PhasesGrow(w, Step(w, Boot(run, settings)))
  {
    hide NewService, KeyOfService, RouteDocument.Meaning, Record.Meaning, RouteConfigRef;
    assert forall id :: id in w.history ==> RecordOk(w, id);
  }

  /** Once the route check has passed, the document is in place. */
  lemma RouteStage(w: World, run: string, request: RegisterRequest, now: int)
    requires Inv(w) && run in w.agents && RouteRead(w, run, request, now)
    ensures var w' := w.WithStore(w.store.PutRoute(RefOf(w.agents[run].settings, request),
                                                   DocumentFor(request, now).Canonicalized()));
            Inv(w') && Advances(w, w') && Routed(w', run, request)
  {
    hide RecordOk, InstanceOk, EntryOk, QueuedOk, PendingOk, Owned, RouteDocument.Meaning,
         RouteDocument.Canonicalized, DocumentFor, RouteConfigRef, Phase;
    WritesRoute(w, RefOf(w.agents[run].settings, request), DocumentFor(request, now));
    CanonicalizedKeepsMeaning(DocumentFor(request, now));
    SameRouteMeaning(request, request, now, 0);
  }

  lemma ThenAdvances(u: World, v: World, w: World, id: string)
    requires Advances(u, v) && RecordsStay(v, w) && RoutesStay(v, w) && Phase(u, id) == 0
    requires forall x :: x != id ==> Phase(v, x) <= Phase(w, x)
    ensures Advances(u, w)
  {
    hide Phase, RouteDocument.Meaning;
    forall x
      ensures Phase(u, x) <= Phase(w, x)
    {
      if x != id { assert Phase(u, x) <= Phase(v, x) <= Phase(w, x); }
    }
  }

  /** A registration is given up. */
  lemma GivesUp(w: World, run: string)
    requires Inv(w) && run in w.agents
    ensures Inv(w.WithPending(run, Idle)) && Advances(w, w.WithPending(run, Idle))
  {
    hide Inv, Phase, RecordsStay, RoutesStay;
    PendingMoves(w, run, Idle);
  }

  /** A registration whose way is free goes on to the route document. */
  lemma GoesRouting(w: World, run: string, request: RegisterRequest)
    requires Inv(w) && run in w.agents && request.Valid()
    requires !Active(w.agents[run].locals, LocalKey(request.name, request.port))
    ensures var w' := w.WithPending(run, Routing(request)); Inv(w') && Advances(w, w')
  {
    hide Inv, Phase, RecordsStay, RoutesStay, LocalKey;
    PendingMoves(w, run, Routing(request));
  }

  lemma RouteKeeps(w: World, run: string, get: bool, put: bool, now: int)
    requires Inv(w) && Enabled(w, RegisterRoutes(run, get, put, now))
    ensures var w' := Step(w, RegisterRoutes(run, get, put, now)); Inv(w') && Advances(w, w')
  {
    hide RecordsOk, InstancesOk, LeasesOwned, EntriesOk, QueuesOk, MarksOk, Phase, RecordsStay, RoutesStay, LocalKey,
         RouteRead, DocumentFor, RouteDocument.Canonicalized, RouteDocument.Meaning;
    var request := w.agents[run].pending.request;
    assert PendingOk(w, run);
    if get && RouteRead(w, run, request, now) && put {
      RouteStage(w, run, request, now);
      var ref, document := RefOf(w.agents[run].settings, request), DocumentFor(request, now);
      var w1 := w.WithStore(w.store.PutRoute(ref, document.Canonicalized()));
      PendingMoves(w1, run, Enlisting(request));
      AdvancesIsTransitive(w, w1, w1.WithPending(run, Enlisting(request)));
    } else {
      GivesUp(w, run);
    }
  }

  lemma FreshIsPending(w: World, run: string, service: LocalService)
    requires RecordsOk(w) && EntriesOk(w) && Fresh(w, run, service)
    requires !Active(w.agents[run].locals, KeyOfService(service))
    ensures PendingOk(Enlisted(w, run, service).WithPending(run, Adopting(service)), run)
  {
    hide LocalKey, RouteConfigRef, LeaseCheckIdFor, BuildAgentId, RoutePrefixes, RecordOk, StateShows;
    forall key | key in w.agents[run].locals
      ensures w.agents[run].locals[key].instanceId != service.instanceId
    {
      assert EntryOk(w, run, key);
    }
  }

  lemma EnlistKeeps(w: World, run: string, instanceId: Option<string>, up: bool, now: int)
    requires Inv(w) && Enabled(w, RegisterEnlists(run, instanceId, up, now))
    ensures var w' := Step(w, RegisterEnlists(run, instanceId, up, now)); Inv(w') && Advances(w, w')
  {
    hide RecordsOk, InstancesOk, LeasesOwned, EntriesOk, QueuesOk, MarksOk, RecordsStay, RoutesStay, LocalKey,
         Enlisted, RouteConfigRef, LeaseCheckIdFor, BuildAgentId, RoutePrefixes, Routed;
    assert PendingOk(w, run);
    if instanceId.Some? && up {
      var service := NewService(w.agents[run].settings, run, w.agents[run].pending.request, instanceId.value, now);
      assert Phase(w, service.instanceId) == 0;
      hide Phase;
      assert Fresh(w, run, service);
      Enlists(w, run, service);
      var w1 := Enlisted(w, run, service);
      FreshIsPending(w, run, service);
      assert run in w1.agents by { EnlistedKeepsAgents(w, run, service); }
      hide NewService;
      PendingMoves(w1, run, Adopting(service));
      ThenAdvances(w, w1, w1.WithPending(run, Adopting(service)), service.instanceId);
    } else {
      GivesUp(w, run);
    }
  }

  lemma EnlistedKeepsAgents(w: World, run: string, service: LocalService)
    requires run in w.agents
    ensures Enlisted(w, run, service).agents == w.agents
  {
  }

  lemma AdoptKeeps(w: World, run: string, up: bool, now: int)
    requires Inv(w) && Enabled(w, RegisterAdopts(run, up, now))
    ensures var w' := Step(w, RegisterAdopts(run, up, now)); Inv(w') && Advances(w, w')
  {
    hide MarksOk, LeasesOwned, EntriesOk, QueuesOk, RecordsStay, RoutesStay, KeyOfService, Adopted, RecordOk,
         InstanceOk, LeaseCheckIdFor;
    assert PendingOk(w, run);
    GivesUp(w, run);
    var service, w0 := w.agents[run].pending.service, w.WithPending(run, Idle);
    assert Phase(w, service.instanceId) == 0;
    if up && w.store.Holders(service.leaseCheckId) != {} {
      assert RecordOk(w, service.instanceId);
      RecordFacts(w, service.instanceId);
      HoldersOfLease(w, service.instanceId);
      var entry := service.(state := Serving, updatedAt := now);
      SameKey(entry, service);
      CoreWhenServing(service, now);
      hide Phase;
      Adopts(w0, run, entry);
      ThenAdvances(w, w0, Adopted(w0, run, entry), service.instanceId);
    }
  }

  lemma CoreWhenServing(service: LocalService, now: int)
    ensures Core(service.(state := Serving, updatedAt := now)) == Core(service)
  {
  }

  lemma InstancesAreOnRecord(w: World)
    requires InstancesOk(w)
    ensures w.store.instances.Keys <= w.history.Keys
  {
    forall id | id in w.store.instances
      ensures id in w.history
    {
      assert InstanceOk(w, id);
    }
  }

  /** What the invariant says of a table entry. */
  lemma EntryFacts(w: World, run: string, key: string)
    requires RecordsOk(w) && EntriesOk(w) && run in w.agents && key in w.agents[run].locals
    ensures var entry := w.agents[run].locals[key];
            && key == KeyOfService(entry)
            && entry.instanceId in w.history
            && entry.leaseCheckId == LeaseCheckIdFor(entry.instanceId)
            && w.history[entry.instanceId].RunId() == run
            && w.history[entry.instanceId].Key() == key
            && entry.state in {Serving, Draining, Deregistered}
            && StateShows(w.store, entry)
            && (entry.state != Deregistered ==> Owned(w, entry.instanceId))
  {
    hide LeaseCheckIdFor, RecordOk, KeyOfService, Core;
    assert EntryOk(w, run, key);
    var entry := w.agents[run].locals[key];
    RecordFacts(w, entry.instanceId);
    CoreIsShared(entry, w.history[entry.instanceId].service);
  }

  lemma SameWorld(w: World, run: string, outcome: Outcome)
    requires run in w.agents && outcome.locals == w.agents[run].locals && outcome.store == w.store
    ensures WithOutcome(w, run, outcome) == w
  {
  }

  lemma ReplayKeeps(w: World, run: string, key: string, up: bool, updatedAt: int)
    requires Inv(w) && run in w.agents && Active(w.agents[run].locals, key)
    ensures var locals := w.agents[run].locals;
            var w' := WithOutcome(w, run, Replay(locals, w.store, locals[key], up, updatedAt));
            Inv(w') && Advances(w, w') && w'.store.instances == w.store.instances
  {
    hide RecordsOk, InstancesOk, LeasesOwned, EntriesOk, QueuesOk, Advances, LeaseCheckIdFor, KeyOfService, Owned;
    var locals := w.agents[run].locals;
    var existing := locals[key];
    var outcome := Replay(locals, w.store, existing, up, updatedAt);
    if outcome.result.Err? {
      SameWorld(w, run, outcome);
      AdvancesIsReflexive(w);
    } else {
      EntryFacts(w, run, key);
      PassesLease(w, existing.instanceId);
      var w1 := w.WithStore(w.store.Lease(existing.leaseCheckId));
      var touched := existing.(updatedAt := updatedAt);
      MovesEntry(w1, run, key, touched);
      var w2 := w1.WithEntry(run, key, touched);
      CoreIsShared(existing, touched);
      assert WithOutcome(w, run, outcome) == w2;
      AdvancesIsTransitive(w, w1, w2);
    }
  }

  lemma RetiringKeeps(w: World, run: string, key: string, entry: LocalService)
    requires Inv(w) && run in w.agents && key in w.agents[run].locals
    requires Core(entry) == Core(w.agents[run].locals[key]) && entry.state == Deregistered
    ensures var w' := w.WithStore(w.store.Remove(w.agents[run].locals[key].instanceId)).WithEntry(run, key, entry);
            Inv(w') && Advances(w, w')
  {
    hide RecordsOk, InstancesOk, LeasesOwned, EntriesOk, QueuesOk, Advances, LeaseCheckIdFor, Owned;
    var id := w.agents[run].locals[key].instanceId;
    LosesInstances(w, {id});
    var w1 := w.WithStore(w.store.Remove(id));
    CoreIsShared(entry, w.agents[run].locals[key]);
    MovesEntry(w1, run, key, entry);
    AdvancesIsTransitive(w, w1, w1.WithEntry(run, key, entry));
  }

  lemma BeginKeeps(w: World, run: string, request: RegisterRequest, lease: bool, deregister: bool, now: int)
    requires Inv(w) && Enabled(w, RegisterBegins(run, request, lease, deregister, now))
    ensures var w' := Step(w, RegisterBegins(run, request, lease, deregister, now)); Inv(w') && Advances(w, w')
  {
    hide RecordOk, InstanceOk, EntryOk, QueuedOk, PendingOk, LeasesOwned, MarksOk, InstancesOk, QueuesOk, PendingsOk,
         Advances, LocalKey, Replay, SameRequest, StateShows;
    var key, locals := LocalKey(request.name, request.port), w.agents[run].locals;
    AdvancesIsReflexive(w);
    if request.Valid() && !Active(locals, key) {
      GoesRouting(w, run, request);
    } else if request.Valid() && SameRequest(locals[key].request, request) {
      ReplayKeeps(w, run, key, lease, now);
    } else if request.Valid() && deregister {
      EntryFacts(w, run, key);
      CoreIgnoresState(locals[key], now);
      RetiringKeeps(w, run, key, locals[key].(state := Deregistered, updatedAt := now));
      var w1 := Retired(w, run, key, now);
      GoesRouting(w1, run, request);
      AdvancesIsTransitive(w, w1, w1.WithPending(run, Routing(request)));
    }
  }

  lemma DrainKeeps(w: World, run: string, request: DrainRequest, up: bool, startedAt: int, updatedAt: int)
    requires Inv(w) && Ready(w, run)
    ensures var w' := Step(w, DrainCall(run, request, up, startedAt, updatedAt)); Inv(w') && Advances(w, w')
  {
    hide RecordsOk, InstancesOk, LeasesOwned, EntriesOk, QueuesOk, Advances, LeaseCheckIdFor, Owned, LocalKey;
    var locals := w.agents[run].locals;
    var key := LocalKey(request.name, request.port);
    var outcome := DrainOutcome(locals, w.store, request, up, startedAt, updatedAt);
    if outcome.result.Err? {
      SameWorld(w, run, outcome);
      AdvancesIsReflexive(w);
    } else {
      // a deregistered entry is unknown to Consul, so maintenance fails on it
      EntryFacts(w, run, key);
      var drained := outcome.result.value;
      Maintains(w, drained.instanceId);
      var w1 := w.WithStore(w.store.Maintain(drained.instanceId));
      MovesEntry(w1, run, key, drained);
      AdvancesIsTransitive(w, w1, w1.WithEntry(run, key, drained));
      assert WithOutcome(w, run, outcome) == w1.WithEntry(run, key, drained);
    }
  }

  lemma DeregisterKeeps(w: World, run: string, request: DeregisterRequest, up: bool, updatedAt: int)
    requires Inv(w) && Ready(w, run)
    ensures var w' := Step(w, DeregisterCall(run, request, up, updatedAt)); Inv(w') && Advances(w, w')
  {
    hide RecordsOk, InstancesOk, LeasesOwned, EntriesOk, QueuesOk, MarksOk, Advances, LeaseCheckIdFor, Owned,
         LocalKey;
    var locals := w.agents[run].locals;
    var key := LocalKey(request.name, request.port);
    var outcome := DeregisterOutcome(locals, w.store, request, up, updatedAt);
    if outcome.result.Err? {
      SameWorld(w, run, outcome);
      AdvancesIsReflexive(w);
    } else {
      var gone := outcome.result.value;
      RetiringKeeps(w, run, key, gone);
      assert WithOutcome(w, run, outcome)
          == w.WithStore(w.store.Remove(gone.instanceId)).WithEntry(run, key, gone);
    }
  }

  lemma QueueChanges(w: World, run: string, queue: seq<LocalService>)
    requires Inv(w) && run in w.agents
    requires forall s :: s in queue ==> QueuedOk(w, run, s)
    ensures var w' := w.WithAgent(run, w.agents[run].(queue := queue)); Inv(w') && Advances(w, w')
  {
    hide RecordOk, InstanceOk, EntryOk, QueuedOk, Owned, RouteDocument.Meaning, Phase;
    var w' := w.WithAgent(run, w.agents[run].(queue := queue));
    RoutesStayRefl(w, w');
    RecordsFrame(w, w');
    InstancesFrame(w, w');
    PendingsFrame(w, w');
    QueueTables(w, run, queue);
    QueuePhases(w, run, queue);
  }

  lemma QueuePhases(w: World, run: string, queue: seq<LocalService>)
    requires run in w.agents
    ensures PhasesGrow(w, w.WithAgent(run, w.agents[run].(queue := queue)))
  {
    hide KeyOfService;
  }

  lemma QueueTables(w: World, run: string, queue: seq<LocalService>)
    requires LeasesOwned(w) && EntriesOk(w) && QueuesOk(w) && run in w.agents
    requires forall s :: s in queue ==> QueuedOk(w, run, s)
    ensures var w' := w.WithAgent(run, w.agents[run].(queue := queue));
            LeasesOwned(w') && EntriesOk(w') && QueuesOk(w')
  {
    hide KeyOfService, Core, LeaseCheckIdFor;
    var w' := w.WithAgent(run, w.agents[run].(queue := queue));
    assert forall id :: Owned(w, id) ==> Owned(w', id);
    forall r, k | r in w'.agents && k in w'.agents[r].locals
      ensures EntryOk(w', r, k)
    {
      assert EntryOk(w, r, k);
    }
    forall r, s | r in w'.agents && s in w'.agents[r].queue
      ensures QueuedOk(w', r, s)
    {
      assert QueuedOk(w, r, s);
    }
  }

  lemma TickBeginsKeeps(w: World, run: string, order: seq<string>)
    requires Inv(w) && Enabled(w, TickBegins(run, order))
    ensures var w' := Step(w, TickBegins(run, order)); Inv(w') && Advances(w, w')
  {
    hide RecordsOk, InstancesOk, LeasesOwned, EntriesOk, QueuesOk, Advances, LeaseCheckIdFor, Owned, KeyOfService;
    var queue := Lookup(w.agents[run].locals, order);
    forall s | s in queue
      ensures QueuedOk(w, run, s)
    {
      var i :| 0 <= i < |queue| && queue[i] == s;
      assert order[i] in order;
      EntryFacts(w, run, order[i]);
    }
    QueueChanges(w, run, queue);
  }

  lemma TickRefreshesKeeps(w: World, run: string, up: bool)
    requires Inv(w) && Enabled(w, TickRefreshes(run, up))
    ensures var w' := Step(w, TickRefreshes(run, up)); Inv(w') && Advances(w, w')
  {
    hide RecordsOk, InstancesOk, LeasesOwned, EntriesOk, Advances, LeaseCheckIdFor, Owned, KeyOfService;
    var queue := w.agents[run].queue;
    assert queue[0] in queue && forall s :: s in queue[1..] ==> s in queue;
    assert QueuedOk(w, run, queue[0]);
    var w1 := w.WithStore(Refreshed(w.store, queue[0].leaseCheckId, up));
    if up {
      PassesLease(w, queue[0].instanceId);
    } else {
      assert w1 == w;
      AdvancesIsReflexive(w);
    }
    QueueChanges(w1, run, queue[1..]);
    AdvancesIsTransitive(w, w1, Step(w, TickRefreshes(run, up)));
  }

  // ---------------------------------------------------------------- shutdown

  /** A shutdown that got through `n` services has not touched the others. */
  lemma {:induction false} ShutdownSpares(locals: Locals, order: seq<string>, clock: nat -> int, n: nat, key: string)
    requires WellKeyed(locals) && n <= |order| && forall k :: k in order ==> k in locals
    requires key !in order[..n]
    ensures var after := ShutdownLocals(locals, order, clock, n);
            (key in after <==> key in locals) && (key in locals ==> after[key] == locals[key])
  {
    hide KeyOfService;
    if n > 0 {
      var last := order[n - 1];
      assert order[..n] == order[..n - 1] + [last];
      ShutdownSpares(locals, order, clock, n - 1, key);
      assert last in order && last == KeyOfService(locals[last]);
      SameKey(locals[last].(state := Deregistered, updatedAt := clock(n - 1)), locals[last]);
    }
  }

  /** A shutdown has deregistered each service it got through. */
  lemma {:induction false} ShutdownRetires(locals: Locals, order: seq<string>, clock: nat -> int, n: nat, i: nat)
    requires WellKeyed(locals) && i < n <= |order| && forall k :: k in order ==> k in locals
    requires forall i, j :: 0 <= i < j < |order| ==> order[i] != order[j]
    ensures order[i] in order && order[i] in ShutdownLocals(locals, order, clock, n)
    ensures ShutdownLocals(locals, order, clock, n)[order[i]]
         == locals[order[i]].(state := Deregistered, updatedAt := clock(i))
  {
    hide KeyOfService;
    var last := order[n - 1];
    assert order[i] in order && last in order && last == KeyOfService(locals[last]);
    SameKey(locals[last].(state := Deregistered, updatedAt := clock(n - 1)), locals[last]);
    if i < n - 1 {
      ShutdownRetires(locals, order, clock, n - 1, i);
      assert order[i] != last;
    }
  }

  lemma SameKey(a: LocalService, b: LocalService)
    requires a.request == b.request
    ensures KeyOfService(a) == KeyOfService(b)
  {
  }

  /** The instance IDs found under the first `n` keys. */
  function IdsUnder(locals: Locals, order: seq<string>, n: nat): set<string>
    requires n <= |order| && forall key :: key in order ==> key in locals
  {
    set i | 0 <= i < n :: (assert order[i] in order; locals[order[i]].instanceId)
  }

  lemma {:induction false} ShutdownStoreExactly(locals: Locals, store: Store, order: seq<string>, n: nat)
    requires n <= |order| && forall key :: key in order ==> key in locals
    ensures ShutdownStore(locals, store, order, n) == store.RemoveAll(IdsUnder(locals, order, n))
  {
    if n == 0 {
      assert IdsUnder(locals, order, 0) == {};
    } else {
      ShutdownStoreExactly(locals, store, order, n - 1);
      var ids := IdsUnder(locals, order, n - 1);
      assert order[n - 1] in order;
      var id := locals[order[n - 1]].instanceId;
      assert IdsUnder(locals, order, n) == ids + {id};
      assert (store.instances - ids) - {id} == store.instances - (ids + {id});
      assert (store.leased - ids) - {id} == store.leased - (ids + {id});
      assert (store.maintenance - ids) - {id} == store.maintenance - (ids + {id});
    }
  }

  lemma EntriesAreWellKeyed(w: World, run: string)
    requires RecordsOk(w) && EntriesOk(w) && run in w.agents
    ensures WellKeyed(w.agents[run].locals)
  {
    hide KeyOfService, EntryOk, RecordOk, Owned;
    forall key | key in w.agents[run].locals
      ensures key == KeyOfService(w.agents[run].locals[key])
    {
      EntryFacts(w, run, key);
    }
  }

  lemma {:induction false} ShutdownKeeps(w: World, run: string, order: seq<string>, clock: nat -> int, n: nat)
    requires Inv(w) && Enabled(w, ShutdownCall(run, order, clock, n))
    ensures var w' := Step(w, ShutdownCall(run, order, clock, n)); Inv(w') && Advances(w, w')
  {
    hide RecordsOk, InstancesOk, LeasesOwned, EntriesOk, QueuesOk, MarksOk, Advances, KeyOfService, Core;
    var locals := w.agents[run].locals;
    var w' := Step(w, ShutdownCall(run, order, clock, n));
    EntriesAreWellKeyed(w, run);
    if n == 0 {
      assert w' == w;
      AdvancesIsReflexive(w);
    } else {
      ShutdownKeeps(w, run, order, clock, n - 1);
      var w1 := Step(w, ShutdownCall(run, order, clock, n - 1));
      var key := order[n - 1];
      assert key in order && key !in order[..n - 1];
      ShutdownSpares(locals, order, clock, n - 1, key);
      ShutdownStep(w, w1, run, order, clock, n);
      AdvancesIsTransitive(w, w1, w');
    }
  }

  lemma ShutdownStep(w: World, w1: World, run: string, order: seq<string>, clock: nat -> int, n: nat)
    requires Enabled(w, ShutdownCall(run, order, clock, n)) && 0 < n && WellKeyed(w.agents[run].locals)
    requires w1 == Step(w, ShutdownCall(run, order, clock, n - 1))
    requires order[n - 1] in w.agents[run].locals && order[n - 1] in w1.agents[run].locals
    requires w1.agents[run].locals[order[n - 1]] == w.agents[run].locals[order[n - 1]]
    requires Inv(w1)
    ensures var w' := Step(w, ShutdownCall(run, order, clock, n)); Inv(w') && Advances(w1, w')
  {
    hide Inv, Advances, KeyOfService, Core, ActiveOrder;
    var key := order[n - 1];
    var entry := w.agents[run].locals[key];
    var gone := entry.(state := Deregistered, updatedAt := clock(n - 1));
    SameKey(gone, entry);
    CoreIgnoresState(entry, clock(n - 1));
    RetiringKeeps(w1, run, key, gone);
    assert Step(w, ShutdownCall(run, order, clock, n))
        == w1.WithStore(w1.store.Remove(entry.instanceId)).WithEntry(run, key, gone);
  }

  lemma CoreIgnoresState(service: LocalService, updatedAt: int)
    ensures Core(service.(state := Deregistered, updatedAt := updatedAt)) == Core(service)
  {
  }

  // --------------------------------------------------------------- all steps

  lemma StepKeeps(w: World, e: Event)
    requires Inv(w) && Enabled(w, e)
    ensures Inv(Step(w, e)) && Advances(w, Step(w, e))
  {
    hide Inv, Advances;
    match e
    case Boot(run, settings) => BootKeeps(w, run, settings);
    case RegisterBegins(run, request, lease, deregister, updatedAt) =>
      BeginKeeps(w, run, request, lease, deregister, updatedAt);
    case RegisterRoutes(run, get, put, documentAt) => RouteKeeps(w, run, get, put, documentAt);
    case RegisterEnlists(run, instanceId, up, registeredAt) => EnlistKeeps(w, run, instanceId, up, registeredAt);
    case RegisterAdopts(run, up, updatedAt) => AdoptKeeps(w, run, up, updatedAt);
    case DrainCall(run, request, up, startedAt, updatedAt) => DrainKeeps(w, run, request, up, startedAt, updatedAt);
    case DeregisterCall(run, request, up, updatedAt) => DeregisterKeeps(w, run, request, up, updatedAt);
    case TickBegins(run, order) => TickBeginsKeeps(w, run, order);
    case TickRefreshes(run, up) => TickRefreshesKeeps(w, run, up);
    case ShutdownCall(run, order, clock, done) => ShutdownKeeps(w, run, order, clock, done);
    case CleanupCall(run, removed) => LosesInstances(w, removed);
    case Reap(id) => LosesInstances(w, {id});
  }

  /** Every world a fleet can reach satisfies the invariant. */
  lemma {:induction false} RunsKeepInvariant(events: seq<Event>)
    requires Follow(INITIAL, events).Some?
    ensures Inv(Follow(INITIAL, events).value)
  {
    hide Inv, Enabled, Step;
    if events == [] {
      assert Inv(INITIAL) by { InitialIsFine(); }
    } else {
      var init := events[..|events| - 1];
      RunsKeepInvariant(init);
      StepKeeps(Follow(INITIAL, init).value, events[|events| - 1]);
    }
  }

  lemma InitialIsFine()
    ensures Inv(INITIAL)
  {
  }

  /** From any point of a run to any later point, the life of every instance ID
      only moves on, and every route key keeps its meaning. */
  lemma {:induction false} RunsAdvance(start: seq<Event>, more: seq<Event>)
    requires Follow(INITIAL, start + more).Some?
    ensures Follow(INITIAL, start).Some?
    ensures Advances(Follow(INITIAL, start).value, Follow(INITIAL, start + more).value)
  {
    hide Inv, Enabled, Step, Advances;
    if more == [] {
      assert start + more == start;
      AdvancesIsReflexive(Follow(INITIAL, start).value);
    } else {
      var init := more[..|more| - 1];
      assert (start + more)[..|start + more| - 1] == start + init;
      RunsAdvance(start, init);
      RunsKeepInvariant(start + init);
      var before := Follow(INITIAL, start + init).value;
      StepKeeps(before, more[|more| - 1]);
      AdvancesIsTransitive(Follow(INITIAL, start).value, before, Follow(INITIAL, start + more).value);
    }
  }
}
