/** What holds of the registry in every world a fleet can reach. */
module Guarantees {
  import opened Text
  import opened Model
  import opened Consul
  import opened Registry
  import opened Fleet
  import opened FleetRuns
  import opened Stages

  // -------------------------------------------------- instances and entries

  /** The entry holds the instance and has not let go of it. */
  predicate Holds(w: World, run: string, key: string, id: string) {
    run in w.agents && Active(w.agents[run].locals, key) && w.agents[run].locals[key].instanceId == id
  }

  /** Every instance whose lease was ever passed is the instance of exactly one
      entry that is serving or draining, an entry of the run that registered it
      under the key of its name and port. */
  lemma LeasedInstanceHasOneHolder(w: World, id: string)
    requires Reachable(w) && id in w.store.leased
    ensures id in w.store.instances
    ensures var registration := w.store.instances[id];
            var key := LocalKey(registration.name, registration.port);
            && Holds(w, registration.meta.agentRunId, key, id)
            && w.agents[registration.meta.agentRunId].locals[key].state in {Serving, Draining}
            && forall r, k :: Holds(w, r, k, id) ==> r == registration.meta.agentRunId && k == key
  {
    hide RecordOk, EntryOk, QueuedOk, LocalKey;
    ReachableIsFine(w);
    RegistrationReads(w, id);
    assert Owned(w, id);
    var run, key := w.history[id].RunId(), w.history[id].Key();
    EntryFacts(w, run, key);
    forall r, k | Holds(w, r, k, id)
      ensures r == run && k == key
    {
      EntryFacts(w, r, k);
    }
  }

  lemma RegistrationReads(w: World, id: string)
    requires Inv(w) && id in w.store.instances
    ensures id in w.history
    ensures w.store.instances[id].meta.agentRunId == w.history[id].RunId()
    ensures LocalKey(w.store.instances[id].name, w.store.instances[id].port) == w.history[id].Key()
  {
    hide RecordOk, EntryOk, QueuedOk, Owned, LocalKey;
    assert InstanceOk(w, id);
  }

  /** One run never has two leased instances for the same name and port. */
  lemma OneLeasedInstancePerNameAndPort(w: World, a: string, b: string)
    requires Reachable(w) && a in w.store.leased && b in w.store.leased
    requires a in w.store.instances && b in w.store.instances
    requires w.store.instances[a].meta.agentRunId == w.store.instances[b].meta.agentRunId
    requires TrimSpace(w.store.instances[a].name) == TrimSpace(w.store.instances[b].name)
    requires w.store.instances[a].port == w.store.instances[b].port
    ensures a == b
  {
    LeasedInstanceHasOneHolder(w, a);
    LeasedInstanceHasOneHolder(w, b);
    LocalKeyIsInjective(w.store.instances[a].name, w.store.instances[a].port,
                        w.store.instances[b].name, w.store.instances[b].port);
  }

  /** Every entry sits under the key of its own request; Consul has forgotten the
      instance of every deregistered one and has every draining one, if at all, in
      maintenance. */
  lemma EntriesMatchConsul(w: World, run: string, key: string)
    requires Reachable(w) && run in w.agents && key in w.agents[run].locals
    ensures var entry := w.agents[run].locals[key];
            && key == LocalKey(entry.request.name, entry.request.port)
            && entry.state in {Serving, Draining, Deregistered}
            && (entry.state == Deregistered ==> entry.instanceId !in w.store.instances)
            && (entry.state == Draining && entry.instanceId in w.store.instances ==>
                  entry.instanceId in w.store.maintenance)
            && (entry.instanceId in w.store.instances ==>
                  w.store.instances[entry.instanceId] == RegistrationFor(w.agents[run].settings, entry))
  {
    hide QueuedOk, Owned, RouteDocument.Meaning, Record.Meaning, NewService, RouteConfigRef;
    ReachableIsFine(w);
    var entry := w.agents[run].locals[key];
    assert EntryOk(w, run, key) && RecordOk(w, entry.instanceId);
    if entry.instanceId in w.store.instances {
      assert InstanceOk(w, entry.instanceId);
      RegistrationIgnoresState(w.agents[run].settings, entry, w.history[entry.instanceId].service);
    }
  }

  lemma RegistrationIgnoresState(settings: Settings, a: LocalService, b: LocalService)
    requires Core(a) == Core(b)
    ensures RegistrationFor(settings, a) == RegistrationFor(settings, b)
  {
    assert RegistrationFor(settings, Core(a)) == RegistrationFor(settings, a);
    assert RegistrationFor(settings, Core(b)) == RegistrationFor(settings, b);
  }

  /** A service that once drained never serves again under the same instance ID,
      and one that was deregistered is never picked up again. */
  lemma LifeOnlyMovesOn(start: seq<Event>, more: seq<Event>, run: string, key: string, key': string)
    requires Follow(INITIAL, start + more).Some?
    requires Follow(INITIAL, start).Some?
    requires var w := Follow(INITIAL, start).value; run in w.agents && key in w.agents[run].locals
    requires var w' := Follow(INITIAL, start + more).value; run in w'.agents && key' in w'.agents[run].locals
    requires var w, w' := Follow(INITIAL, start).value, Follow(INITIAL, start + more).value;
             w.agents[run].locals[key].instanceId == w'.agents[run].locals[key'].instanceId
    ensures key == key'
    ensures var before := Follow(INITIAL, start).value.agents[run].locals[key];
            var after := Follow(INITIAL, start + more).value.agents[run].locals[key];
            && (before.state == Deregistered ==> after.state == Deregistered)
            && (before.state == Draining ==> after.state in {Draining, Deregistered})
            && after == before.(state := after.state, updatedAt := after.updatedAt,
                                drainDeadline := after.drainDeadline)
  {
    hide Enabled, Step, RecordOk, InstanceOk, QueuedOk, Owned, KeyOfService;
    RunsAdvance(start, more);
    RunsKeepInvariant(start);
    RunsKeepInvariant(start + more);
    var w, w' := Follow(INITIAL, start).value, Follow(INITIAL, start + more).value;
    EntryFacts(w, run, key);
    EntryFacts(w', run, key');
    var id := w.agents[run].locals[key].instanceId;
    assert Phase(w, id) <= Phase(w', id);
    assert EntryOk(w, run, key) && EntryOk(w', run, key');
  }

  /** Replaying a registration changes nothing but the time of the last update:
      not the instance, not the state, not the other entries, not the instances
      in Consul. */
  lemma ReplayKeepsTheEntry(w: World, run: string, request: RegisterRequest, calls: RegisterCalls)
    requires Reachable(w) && run in w.agents && request.Valid()
    requires var key := LocalKey(request.name, request.port);
             Active(w.agents[run].locals, key) && SameRequest(w.agents[run].locals[key].request, request)
    ensures var key, agent := LocalKey(request.name, request.port), w.agents[run];
            var outcome := RegisterOutcome(agent.settings, run, agent.locals, w.store, request, calls);
            && outcome.locals.Keys == agent.locals.Keys
            && (forall k :: k in agent.locals && k != key ==> outcome.locals[k] == agent.locals[k])
            && outcome.locals[key].(updatedAt := 0) == agent.locals[key].(updatedAt := 0)
            && outcome.store.instances == w.store.instances && outcome.store.kv == w.store.kv
            && (outcome.result.Ok? <==> calls.lease && agent.locals[key].instanceId in w.store.instances)
            && (outcome.result.Ok? ==> outcome.result.value == outcome.locals[key])
  {
    hide RecordOk, InstanceOk, QueuedOk, Owned, LocalKey, LeaseCheckIdFor, SameRequest, EntryOk;
    ReachableIsFine(w);
    var key, agent := LocalKey(request.name, request.port), w.agents[run];
    EntryFacts(w, run, key);
    HoldersOfLease(w, agent.locals[key].instanceId);
    SameKey(agent.locals[key].(updatedAt := calls.updatedAt), agent.locals[key]);
  }

  // ------------------------------------------------------------ route meaning

  /** Whatever was ever registered under one route reference agrees on service,
      namespace, version, port, protocol and set of methods. */
  lemma OneMeaningPerRoute(w: World, a: string, b: string)
    requires Reachable(w) && a in w.history && b in w.history
    requires w.history[a].Ref() == w.history[b].Ref()
    ensures var x, y := w.history[a].service.request, w.history[b].service.request;
            && x.name == y.name && x.namespace == y.namespace && x.version == y.version
            && x.port == y.port && x.protocol == y.protocol && NonBlank(x.methods) == NonBlank(y.methods)
  {
    hide InstanceOk, EntryOk, QueuedOk, Owned, RouteDocument.Meaning, RouteConfigRef, NewService;
    ReachableIsFine(w);
    assert RecordOk(w, a) && RecordOk(w, b);
    SameRouteMeaning(w.history[a].service.request, w.history[b].service.request, 0, 0);
  }

  /** Once written, a route key keeps its meaning for good. */
  lemma RoutesAreWrittenOnce(start: seq<Event>, more: seq<Event>, key: string)
    requires Follow(INITIAL, start + more).Some? && Follow(INITIAL, start).Some?
    requires key in Follow(INITIAL, start).value.store.kv
    ensures key in Follow(INITIAL, start + more).value.store.kv
    ensures Follow(INITIAL, start + more).value.store.kv[key].Meaning()
         == Follow(INITIAL, start).value.store.kv[key].Meaning()
  {
    hide Enabled, Step, PhasesGrow, RecordsStay, RouteDocument.Meaning;
    RunsAdvance(start, more);
  }

  /** When a registration of a service that is not a replay goes through. */
  ghost predicate AllGoesThrough(w: World, run: string, request: RegisterRequest, calls: RegisterCalls)
    requires run in w.agents
  {
    && calls.kvGet && calls.kvPut && calls.instanceId.Some? && calls.register && calls.lease
    && RouteAllows(w.store.kv, RefOf(w.agents[run].settings, request), DocumentFor(request, calls.documentAt))
  }

  lemma AnewSucceedsExactlyWhen(
    settings: Settings, run: string, locals: Locals, store: Store, request: RegisterRequest, calls: RegisterCalls)
    ensures RegisterAnew(settings, run, locals, store, request, calls).result.Ok?
       <==> && calls.kvGet && calls.kvPut && calls.instanceId.Some? && calls.register && calls.lease
            && RouteAllows(store.kv, RefOf(settings, request), DocumentFor(request, calls.documentAt))
  {
    hide RouteAllows, RouteDocument.Canonicalized, DocumentFor, RouteConfigRef, LeaseCheckIdFor;
    if calls.kvGet && calls.kvPut && calls.instanceId.Some? && calls.register
       && RouteAllows(store.kv, RefOf(settings, request), DocumentFor(request, calls.documentAt))
    {
      var id := calls.instanceId.value;
      var service := NewService(settings, run, request, id, calls.registeredAt);
      var added := store.PutRoute(RefOf(settings, request), DocumentFor(request, calls.documentAt).Canonicalized())
                        .Add(RegistrationFor(settings, service));
      assert id in added.Holders(service.leaseCheckId);
    }
  }

  /** Register succeeds exactly when the request is valid and either it replays a
      service Consul still knows, or the old instance could be removed, the route
      document allows the request, and every call goes through. */
  lemma RegisterSucceedsExactlyWhen(w: World, run: string, request: RegisterRequest, calls: RegisterCalls)
    requires Reachable(w) && run in w.agents
    ensures var key, agent := LocalKey(request.name, request.port), w.agents[run];
            var outcome := RegisterOutcome(agent.settings, run, agent.locals, w.store, request, calls);
            (outcome.result.Ok? <==>
               && request.Valid()
               && if Active(agent.locals, key) && SameRequest(agent.locals[key].request, request)
                  then calls.lease && agent.locals[key].instanceId in w.store.instances
                  else (Active(agent.locals, key) ==> calls.deregister) && AllGoesThrough(w, run, request, calls))
  {
    hide RegisterAnew, Replay, SameRequest, LocalKey, RouteAllows, DocumentFor, RouteConfigRef, Reachable;
    var key, agent := LocalKey(request.name, request.port), w.agents[run];
    if request.Valid() && Active(agent.locals, key) && SameRequest(agent.locals[key].request, request) {
      ReplayKeepsTheEntry(w, run, request, calls);
    } else if Active(agent.locals, key) {
      AnewSucceedsExactlyWhen(
        agent.settings, run,
        Stored(agent.locals, agent.locals[key].(state := Deregistered, updatedAt := calls.updatedAt)),
        w.store.Remove(agent.locals[key].instanceId), request, calls);
    } else {
      AnewSucceedsExactlyWhen(agent.settings, run, agent.locals, w.store, request, calls);
    }
  }

  /** Changing the route meaning of an active service under the same reference
      always fails, and takes the service down: if the old instance could be
      removed, it is gone from Consul and its entry is deregistered. */
  lemma ChangedMeaningAlwaysFails(w: World, run: string, request: RegisterRequest, calls: RegisterCalls)
    requires Reachable(w) && run in w.agents && request.Valid()
    requires var key := LocalKey(request.name, request.port);
             && Active(w.agents[run].locals, key)
             && RefOf(w.agents[run].settings, request)
                == RefOf(w.agents[run].settings, w.agents[run].locals[key].request)
             && DocumentFor(request, 0).Meaning() != DocumentFor(w.agents[run].locals[key].request, 0).Meaning()
    ensures var key, agent := LocalKey(request.name, request.port), w.agents[run];
            var outcome := RegisterOutcome(agent.settings, run, agent.locals, w.store, request, calls);
            && outcome.result.Err?
            && outcome.store.kv == w.store.kv
            && (!calls.deregister ==> outcome.locals == agent.locals && outcome.store == w.store)
            && (calls.deregister ==>
                  && outcome.locals
                  == agent.locals[key := agent.locals[key].(state := Deregistered, updatedAt := calls.updatedAt)]
                  && outcome.store == w.store.Remove(agent.locals[key].instanceId))
  {
    hide InstanceOk, QueuedOk, Owned, NewService, LocalKey, RouteConfigRef, RegistrationFor, RouteDocument.Meaning,
         DocumentFor;
    ReachableIsFine(w);
    var key, agent := LocalKey(request.name, request.port), w.agents[run];
    var existing := agent.locals[key];
    assert EntryOk(w, run, key);
    CoreIsShared(existing, w.history[existing.instanceId].service);
    assert RecordOk(w, existing.instanceId);
    assert !SameRequest(existing.request, request) by {
      if SameRequest(existing.request, request) {
        SameRouteMeaning(existing.request, request, 0, 0);
      }
    }
    MeaningIgnoresTime(request, calls.documentAt);
    SameKey(existing.(state := Deregistered, updatedAt := calls.updatedAt), existing);
  }

  /** In an interleaved run, the route check of a registration goes on exactly when both
      calls go through and the request means what was registered under its reference
      before; otherwise the registration is over and nothing else has changed. */
  lemma RouteCheckGoesOnExactlyWhen(w: World, run: string, id: string, get: bool, put: bool, now: int)
    requires Reachable(w) && run in w.agents && w.agents[run].pending.Routing? && id in w.history
    requires w.history[id].Ref() == RefOf(w.agents[run].settings, w.agents[run].pending.request)
    ensures var w', request := Step(w, RegisterRoutes(run, get, put, now)), w.agents[run].pending.request;
            && run in w'.agents
            && (if get && put && w.history[id].Meaning() == DocumentFor(request, 0).Meaning()
                then w'.agents[run].pending == Enlisting(request)
                else w' == w.WithPending(run, Idle))
  {
    hide InstanceOk, EntryOk, QueuedOk, PendingOk, Owned, NewService, RouteConfigRef, RouteDocument.Meaning,
         DocumentFor, RouteDocument.Canonicalized, Reachable;
    ReachableIsFine(w);
    assert RecordOk(w, id);
    MeaningIgnoresTime(w.agents[run].pending.request, now);
  }

  /** So a request that changes the meaning of a service its agent ever ran does not get
      past the route check, whatever happens between its stages. */
  lemma ChangedMeaningNeverGoesOn(w: World, v: World, run: string, key: string, get: bool, put: bool, now: int)
    requires Reachable(w) && Reaches(w, v) && run in w.agents && key in w.agents[run].locals
    requires run in v.agents && v.agents[run].pending.Routing?
    requires var before, changed := w.agents[run].locals[key].request, v.agents[run].pending.request;
             && RefOf(w.agents[run].settings, changed) == RefOf(w.agents[run].settings, before)
             && DocumentFor(changed, 0).Meaning() != DocumentFor(before, 0).Meaning()
    ensures Step(v, RegisterRoutes(run, get, put, now)) == v.WithPending(run, Idle)
  {
    hide RecordOk, InstanceOk, QueuedOk, PendingOk, Owned, RouteConfigRef, RouteDocument.Meaning, DocumentFor,
         Reachable, Reaches, Step, KeyOfService, Phase;
    ReachableIsFine(w);
    ReachesAdvances(w, v);
    ReachableOn(w, v);
    assert EntryOk(w, run, key);
    var id := w.agents[run].locals[key].instanceId;
    CoreIsShared(w.agents[run].locals[key], w.history[id].service);
    EntryFacts(w, run, key);
    RecordSettings(w, id);
    RouteCheckGoesOnExactlyWhen(v, run, id, get, put, now);
  }

  lemma RecordSettings(w: World, id: string)
    requires RecordsOk(w) && id in w.history
    ensures w.history[id].RunId() in w.agents && w.agents[w.history[id].RunId()].settings == w.history[id].settings
  {
    hide RouteDocument.Meaning, Record.Meaning, RouteConfigRef, NewService;
    assert RecordOk(w, id);
  }

  lemma MeaningIgnoresTime(request: RegisterRequest, now: int)
    ensures DocumentFor(request, now).Meaning() == DocumentFor(request, 0).Meaning()
  {
  }

  /** Every active entry is as it was, and so is what Consul has of its instance. */
  predicate LeavesServicesAlone(locals: Locals, store: Store, locals': Locals, store': Store) {
    forall key :: key in locals && Active(locals, key) ==>
      && key in locals' && locals'[key] == locals[key]
      && SameInConsul(store, store', locals[key].instanceId)
  }

  predicate SameInConsul(store: Store, store': Store, id: string) {
    && (id in store.instances <==> id in store'.instances)
    && (id in store.instances ==> store'.instances[id] == store.instances[id])
    && (id in store.leased <==> id in store'.leased)
    && (id in store.maintenance <==> id in store'.maintenance)
  }

  /** A Register that fails leaves the running services alone exactly when it was not
      a valid request that changes an active service whose removal went through.
      Whatever fails after that, the service is down. */
  lemma FailureLeavesServicesAloneExactlyWhen(w: World, run: string, request: RegisterRequest, calls: RegisterCalls)
    requires Reachable(w) && CanRegister(w, run, calls)
    requires RegisterOutcome(w.agents[run].settings, run, w.agents[run].locals, w.store, request, calls).result.Err?
    ensures var key, agent := LocalKey(request.name, request.port), w.agents[run];
            var outcome := RegisterOutcome(agent.settings, run, agent.locals, w.store, request, calls);
            (LeavesServicesAlone(agent.locals, w.store, outcome.locals, outcome.store) <==>
               !(&& request.Valid() && Active(agent.locals, key)
                 && !SameRequest(agent.locals[key].request, request) && calls.deregister))
  {
    hide RecordOk, InstanceOk, QueuedOk, Owned, LocalKey, SameRequest, Reachable, RegisterAnew, SameInConsul, EntryOk,
         PendingOk;
    ReachableIsFine(w);
    var key, agent := LocalKey(request.name, request.port), w.agents[run];
    var outcome := RegisterOutcome(agent.settings, run, agent.locals, w.store, request, calls);
    if request.Valid() && Active(agent.locals, key) && !SameRequest(agent.locals[key].request, request)
       && calls.deregister
    {
      EntryFacts(w, run, key);
      var gone := agent.locals[key].(state := Deregistered, updatedAt := calls.updatedAt);
      SameKey(gone, agent.locals[key]);
      AnewFailsAfterwards(agent.settings, run, Stored(agent.locals, gone), w.store.Remove(gone.instanceId),
                          request, calls);
    } else {
      forall k | Active(agent.locals, k)
        ensures outcome.locals == agent.locals && SameInConsul(w.store, outcome.store, agent.locals[k].instanceId)
      {
        EntryFacts(w, run, k);
        NothingChanges(w.store, agent.locals[k].instanceId);
        AnewFailsAfterwards(agent.settings, run, agent.locals, w.store, request, calls);
        AnewSparesOthers(agent.settings, run, agent.locals, w.store, request, calls, agent.locals[k].instanceId);
      }
    }
  }

  lemma NothingChanges(store: Store, id: string)
    ensures SameInConsul(store, store, id)
  {
  }

  lemma AnewFailsAfterwards(
    settings: Settings, run: string, locals: Locals, store: Store, request: RegisterRequest, calls: RegisterCalls)
    ensures var outcome := RegisterAnew(settings, run, locals, store, request, calls);
            outcome.result.Err? ==> outcome.locals == locals
  {
    hide EnsureRouteDocument, NewService, RegistrationFor;
  }

  lemma AnewSparesOthers(
    settings: Settings, run: string, locals: Locals, store: Store, request: RegisterRequest, calls: RegisterCalls,
    id: string)
    requires calls.instanceId != Some(id)
    ensures var outcome := RegisterAnew(settings, run, locals, store, request, calls);
            outcome.result.Err? ==> SameInConsul(store, outcome.store, id)
  {
    hide RouteAllows, DocumentFor, RouteDocument.Canonicalized, RouteConfigRef, LeaseCheckIdFor;
  }

  // ----------------------------------------------------- shutdown and restart

  /** A shutdown that gets through all active services leaves every entry
      deregistered and no leased instance of this run in Consul. */
  lemma ShutdownComplete(w: World, run: string, order: seq<string>, clock: nat -> int)
    requires Reachable(w) && Enabled(w, ShutdownCall(run, order, clock, |order|))
    ensures var w' := Step(w, ShutdownCall(run, order, clock, |order|));
            && w'.agents[run].locals.Keys == w.agents[run].locals.Keys
            && (forall key :: key in w'.agents[run].locals ==> w'.agents[run].locals[key].state == Deregistered)
            && (forall id :: id in w'.store.leased ==>
                  id in w'.store.instances && w'.store.instances[id].meta.agentRunId != run)
  {
    hide RecordOk, InstanceOk, EntryOk, QueuedOk, KeyOfService, Step;
    ReachableIsFine(w);
    var w' := Step(w, ShutdownCall(run, order, clock, |order|));
    StepKeeps(w, ShutdownCall(run, order, clock, |order|));
    ShutdownExactly(w, run, order, clock, |order|);
    forall key | key in w'.agents[run].locals
      ensures w'.agents[run].locals[key].state == Deregistered
    {
      assert order[..|order|] == order;
      if key in order {
        var i :| 0 <= i < |order| && order[i] == key;
      }
    }
    forall id | id in w'.store.leased
      ensures id in w'.store.instances && w'.store.instances[id].meta.agentRunId != run
    {
      RegistrationReads(w', id);
      assert Owned(w', id);
    }
  }

  /** A shutdown that got through `done` services has deregistered exactly those
      and removed exactly their instances. */
  lemma ShutdownExactly(w: World, run: string, order: seq<string>, clock: nat -> int, done: nat)
    requires Inv(w) && Enabled(w, ShutdownCall(run, order, clock, done))
    ensures var w' := Step(w, ShutdownCall(run, order, clock, done));
            && run in w'.agents && w'.agents[run].locals.Keys == w.agents[run].locals.Keys
            && (forall i :: 0 <= i < done ==>
                  && order[i] in w.agents[run].locals
                  && w'.agents[run].locals[order[i]]
                  == w.agents[run].locals[order[i]].(state := Deregistered, updatedAt := clock(i)))
            && (forall key :: key in w.agents[run].locals && key !in order[..done] ==>
                  w'.agents[run].locals[key] == w.agents[run].locals[key])
            && (forall r :: r in w.agents && r != run ==> r in w'.agents && w'.agents[r] == w.agents[r])
            && w'.store == w.store.RemoveAll(IdsUnder(w.agents[run].locals, order, done))
  {
    hide Inv, KeyOfService;
    assert Inv(w);
    var locals := w.agents[run].locals;
    EntriesAreWellKeyedIn(w, run);
    ShutdownStoreExactly(locals, w.store, order, done);
    forall i | 0 <= i < done
      ensures order[i] in locals && order[i] in ShutdownLocals(locals, order, clock, done)
      ensures ShutdownLocals(locals, order, clock, done)[order[i]]
           == locals[order[i]].(state := Deregistered, updatedAt := clock(i))
    {
      ShutdownRetires(locals, order, clock, done, i);
    }
    forall key
      ensures key in ShutdownLocals(locals, order, clock, done) <==> key in locals
      ensures key in locals && key !in order[..done] ==> ShutdownLocals(locals, order, clock, done)[key] == locals[key]
    {
      if key in order[..done] {
        var i :| 0 <= i < done && order[i] == key;
        ShutdownRetires(locals, order, clock, done, i);
      } else {
        ShutdownSpares(locals, order, clock, done, key);
      }
    }
  }

  /** Those are the instances of the services it got through, and removing them takes them
      away with their marks and nothing else. */
  lemma ShutdownTakes(locals: Locals, store: Store, order: seq<string>, done: nat)
    requires done <= |order| && forall key :: key in order ==> key in locals
    ensures var ids := IdsUnder(locals, order, done);
            && (forall id :: id in ids <==>
                  exists i :: 0 <= i < done && order[i] in locals && locals[order[i]].instanceId == id)
            && store.RemoveAll(ids) == store.(instances := store.instances - ids, leased := store.leased - ids,
                                              maintenance := store.maintenance - ids)
  {
    forall i | 0 <= i < done
      ensures order[i] in locals && locals[order[i]].instanceId in IdsUnder(locals, order, done)
    {
      assert order[i] in order;
    }
  }

  lemma EntriesAreWellKeyedIn(w: World, run: string)
    requires Inv(w) && run in w.agents
    ensures WellKeyed(w.agents[run].locals)
  {
    hide RecordsOk, InstancesOk, LeasesOwned, EntriesOk, QueuesOk, MarksOk;
    EntriesAreWellKeyed(w, run);
  }
}
