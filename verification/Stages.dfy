/** Which worlds a fleet can reach, and that a whole registration is its four stages
    in a row. */
module Stages {
  import opened Model
  import opened Consul
  import opened Registry
  import opened Fleet
  import opened FleetRuns

  // ------------------------------------------------------------ reachability

  ghost predicate Reaches(w: World, w': World) {
    exists events :: Follow(w, events) == Some(w')
  }

  ghost predicate Reachable(w: World) {
    Reaches(INITIAL, w)
  }

  lemma ReachableIsFine(w: World)
    requires Reachable(w)
    ensures Inv(w)
  {
    hide Inv, Enabled, Step;
    var events :| Follow(INITIAL, events) == Some(w);
    RunsKeepInvariant(events);
  }

  lemma ReachesItself(w: World)
    ensures Reaches(w, w)
  {
    hide Enabled, Step;
    assert Follow(w, []) == Some(w);
  }

  lemma ReachesNext(w: World, v: World, e: Event)
    requires Reaches(w, v) && Enabled(v, e)
    ensures Reaches(w, Step(v, e))
  {
    hide Enabled, Step;
    var events :| Follow(w, events) == Some(v);
    assert (events + [e])[..|events|] == events;
    assert Follow(w, events + [e]) == Some(Step(v, e));
  }

  lemma {:induction false} FollowConcat(w: World, a: seq<Event>, b: seq<Event>)
    requires Follow(w, a).Some? && Follow(Follow(w, a).value, b).Some?
    ensures Follow(w, a + b) == Follow(Follow(w, a).value, b)
  {
    hide Enabled, Step;
    if b == [] {
      assert a + b == a;
    } else {
      assert (a + b)[..|a + b| - 1] == a + b[..|b| - 1];
      FollowConcat(w, a, b[..|b| - 1]);
    }
  }

  lemma ReachesOn(u: World, v: World, w: World)
    requires Reaches(u, v) && Reaches(v, w)
    ensures Reaches(u, w)
  {
    hide Follow;
    var a :| Follow(u, a) == Some(v);
    var b :| Follow(v, b) == Some(w);
    FollowConcat(u, a, b);
  }

  lemma ReachableOn(w: World, w': World)
    requires Reachable(w) && Reaches(w, w')
    ensures Reachable(w')
  {
    hide Reaches;
    ReachesOn(INITIAL, w, w');
  }

  lemma {:induction false} FollowKeeps(w: World, events: seq<Event>)
    requires Inv(w) && Follow(w, events).Some?
    ensures Inv(Follow(w, events).value) && Advances(w, Follow(w, events).value)
  {
    hide Inv, Enabled, Step, Advances;
    if events == [] {
      AdvancesIsReflexive(w);
    } else {
      FollowKeeps(w, events[..|events| - 1]);
      var before := Follow(w, events[..|events| - 1]).value;
      StepKeeps(before, events[|events| - 1]);
      AdvancesIsTransitive(w, before, Follow(w, events).value);
    }
  }

  lemma ReachesAdvances(w: World, w': World)
    requires Inv(w) && Reaches(w, w')
    ensures Inv(w') && Advances(w, w')
  {
    hide Inv, Advances, Follow;
    var events :| Follow(w, events) == Some(w');
    FollowKeeps(w, events);
  }

  // ------------------------------------------------------ whole registrations

  /** Records the registration a Register call got through, if it did. */
  ghost function WithRecord(w: World, before: Store, run: string, request: RegisterRequest, calls: RegisterCalls): World
    requires run in w.agents
  {
    if calls.instanceId.Some? && calls.instanceId.value in w.store.instances
       && calls.instanceId.value !in before.instances
    then
      w.(history := w.history[calls.instanceId.value := Record(
           w.agents[run].settings,
           NewService(w.agents[run].settings, run, request, calls.instanceId.value, calls.registeredAt))])
    else w
  }

  ghost predicate CanRegister(w: World, run: string, calls: RegisterCalls) {
    Ready(w, run) && FreshId(w, calls.instanceId)
  }

  /** The world after a Register call that nothing came in between. */
  ghost function AfterRegister(w: World, run: string, request: RegisterRequest, calls: RegisterCalls): World
    requires run in w.agents
  {
    var agent := w.agents[run];
    WithRecord(WithOutcome(w, run, RegisterOutcome(agent.settings, run, agent.locals, w.store, request, calls)),
               w.store, run, request, calls)
  }

  /** The same for the part of it after the lookup. */
  ghost function SecondHalf(w: World, run: string, request: RegisterRequest, calls: RegisterCalls): World
    requires run in w.agents
  {
    var agent := w.agents[run];
    WithRecord(WithOutcome(w, run, RegisterAnew(agent.settings, run, agent.locals, w.store, request, calls)),
               w.store, run, request, calls)
  }

  lemma PendingIsReplaced(w: World, run: string, p: Pending, q: Pending)
    requires run in w.agents
    ensures w.WithPending(run, p).WithPending(run, q) == w.WithPending(run, q)
    ensures w.agents[run].pending == q ==> w.WithPending(run, p).WithPending(run, q) == w
  {
    assert w.agents[run := w.agents[run]] == w.agents;
  }

  /** The last stage, from a service Consul has just accepted. */
  lemma LastStage(w: World, run: string, service: LocalService, calls: RegisterCalls)
    requires run in w.agents && w.agents[run].pending == Adopting(service)
    ensures var idle := w.WithPending(run, Idle);
            var serving := service.(state := Serving, updatedAt := calls.updatedAt);
            && Enabled(w, RegisterAdopts(run, calls.lease, calls.updatedAt))
            && Step(w, RegisterAdopts(run, calls.lease, calls.updatedAt))
            == if !(calls.lease && w.store.Holders(service.leaseCheckId) != {}) then idle
               else idle.WithStore(w.store.Lease(service.leaseCheckId))
                        .WithAgent(run, idle.agents[run].(locals := Stored(w.agents[run].locals, serving)))
  {
    hide KeyOfService;
  }

  /** The stages after the lookup, in a row, are the second half of Register. */
  lemma AnewIsItsStages(w: World, run: string, request: RegisterRequest, calls: RegisterCalls)
    requires Inv(w) && run in w.agents && w.agents[run].pending == Routing(request) && FreshId(w, calls.instanceId)
    ensures Reaches(w, SecondHalf(w.WithPending(run, Idle), run, request, calls))
  {
    hide Inv, KeyOfService, NewService, RouteAllows, DocumentFor, RouteDocument.Canonicalized, RegistrationFor,
         RouteConfigRef, Follow, Reaches;
    var idle, agent := w.WithPending(run, Idle), w.agents[run];
    var e := RegisterRoutes(run, calls.kvGet, calls.kvPut, calls.documentAt);
    ReachesItself(w);
    ReachesNext(w, w, e);
    var w2 := Step(w, e);
    var written := w.store.PutRoute(RefOf(agent.settings, request),
        DocumentFor(request, calls.documentAt).Canonicalized());
    InstancesOnRecord(w);
    if w2.agents[run].pending == Idle {
      assert SecondHalf(idle, run, request, calls) == idle by { SameAgents(idle, run); }
    } else {
      var e' := RegisterEnlists(run, calls.instanceId, calls.register, calls.registeredAt);
      assert w2 == w.WithStore(written).WithPending(run, Enlisting(request));
      ReachesNext(w, w2, e');
      var w3 := Step(w2, e');
      PendingIsReplaced(w.WithStore(written), run, Enlisting(request), Idle);
      if calls.instanceId.None? || !calls.register {
        assert SecondHalf(idle, run, request, calls) == idle.WithStore(written) by { SameAgents(idle, run); }
      } else {
        ReachesNext(w, w3, RegisterAdopts(run, calls.lease, calls.updatedAt));
        EnlistedThenLast(w, run, request, calls, written);
      }
    }
  }

  lemma SameAgents(w: World, run: string)
    requires run in w.agents
    ensures w.WithAgent(run, w.agents[run].(locals := w.agents[run].locals)) == w
  {
    assert w.agents[run := w.agents[run]] == w.agents;
  }

  lemma InstancesOnRecord(w: World)
    requires Inv(w)
    ensures w.store.instances.Keys <= w.history.Keys
  {
    InstancesAreOnRecord(w);
  }

  /** What the last two stages leave. */
  lemma EnlistedThenLast(w: World, run: string, request: RegisterRequest, calls: RegisterCalls, written: Store)
    requires run in w.agents && w.agents[run].pending == Routing(request) && FreshId(w, calls.instanceId)
    requires calls.instanceId.Some? && calls.register && calls.instanceId.value !in w.store.instances
    requires EnsureRouteDocument(w.store, RefOf(w.agents[run].settings, request),
                                 DocumentFor(request, calls.documentAt), calls.kvGet, calls.kvPut) == Ok(written)
    requires written.instances == w.store.instances
    ensures var w2 := w.WithStore(written).WithPending(run, Enlisting(request));
            var e := RegisterEnlists(run, calls.instanceId, calls.register, calls.registeredAt);
            Enabled(w2, e) &&
            var w3, e' := Step(w2, e), RegisterAdopts(run, calls.lease, calls.updatedAt);
            Enabled(w3, e') && Step(w3, e') == SecondHalf(w.WithPending(run, Idle), run, request, calls)
  {
    hide KeyOfService, RouteAllows, DocumentFor, RouteDocument.Canonicalized, RouteConfigRef, LeaseCheckIdFor,
         EnsureRouteDocument, BuildAgentId, RoutePrefixes;
    var idle, agent := w.WithPending(run, Idle), w.agents[run];
    var service := NewService(agent.settings, run, request, calls.instanceId.value, calls.registeredAt);
    assert RegistrationFor(agent.settings, service).id == calls.instanceId.value;
    assert service.instanceId == calls.instanceId.value;
    hide NewService, RegistrationFor;
    var w2 := w.WithStore(written).WithPending(run, Enlisting(request));
    var w3 := Step(w2, RegisterEnlists(run, calls.instanceId, calls.register, calls.registeredAt));
    assert w3 == Enlisted(w2, run, service).WithPending(run, Adopting(service));
    LastStage(w3, run, service, calls);
    assert w3.WithPending(run, Idle).agents == idle.agents;
    var added := written.Add(RegistrationFor(agent.settings, service));
    assert w3.store == added;
    SameAgents(idle, run);
    hide Step, Enlisted;
    assert idle.agents[run].locals == agent.locals && idle.agents[run].settings == agent.settings;
    assert w3.history == w.history[service.instanceId := Record(agent.settings, service)];
  }

  /** Register as one call is its stages in a row: what holds of every reachable
      world holds of the world after a call that nothing came in between. */
  lemma RegisterIsItsStages(w: World, run: string, request: RegisterRequest, calls: RegisterCalls)
    requires Inv(w) && CanRegister(w, run, calls)
    ensures Reaches(w, AfterRegister(w, run, request, calls))
  {
    hide Inv, LocalKey, RegisterAnew, SameRequest, Follow, Reaches, Begun, AfterRegister, SecondHalf;
    var e := RegisterBegins(run, request, calls.lease, calls.deregister, calls.updatedAt);
    ReachesItself(w);
    ReachesNext(w, w, e);
    var w1 := Step(w, e);
    StepKeeps(w, e);
    InstancesOnRecord(w);
    LookedUp(w, run, request, calls);
    if w1.agents[run].pending == Idle {
      assert AfterRegister(w, run, request, calls) == w1;
    } else {
      AnewIsItsStages(w1, run, request, calls);
      ReachesOn(w, w1, AfterRegister(w, run, request, calls));
    }
  }

  /** The lookup either ends the call or leaves its second half. */
  lemma LookedUp(w: World, run: string, request: RegisterRequest, calls: RegisterCalls)
    requires Inv(w) && CanRegister(w, run, calls) && w.store.instances.Keys <= w.history.Keys
    ensures var w1 := Begun(w, run, request, calls.lease, calls.deregister, calls.updatedAt);
            && run in w1.agents && w1.history == w.history
            && if w1.agents[run].pending == Idle then AfterRegister(w, run, request, calls) == w1
               else && w1.agents[run].pending == Routing(request)
                    && AfterRegister(w, run, request, calls)
                       == SecondHalf(w1.WithPending(run, Idle), run, request, calls)
  {
    hide RecordsOk, InstancesOk, EntriesOk, QueuesOk, PendingsOk, LeasesOwned, MarksOk, RegisterAnew, SameRequest,
         LocalKey;
    var key, agent := LocalKey(request.name, request.port), w.agents[run];
    SameAgents(w, run);
    PendingIsReplaced(w, run, Routing(request), Idle);
    if request.Valid() && Active(agent.locals, key) {
      EntryFacts(w, run, key);
      if !SameRequest(agent.locals[key].request, request) && calls.deregister {
        RetiredThenRest(w, run, request, calls);
      }
    }
  }

  lemma OutcomeIgnoresTable(w: World, run: string, store: Store, locals: Locals, outcome: Outcome)
    requires run in w.agents
    ensures var v := w.WithStore(store).WithAgent(run, w.agents[run].(locals := locals));
            WithOutcome(v, run, outcome) == WithOutcome(w, run, outcome)
  {
  }

  lemma RetiredIs(w: World, run: string, key: string, updatedAt: int)
    requires run in w.agents && key in w.agents[run].locals && key == KeyOfService(w.agents[run].locals[key])
    ensures var gone := w.agents[run].locals[key].(state := Deregistered, updatedAt := updatedAt);
            var agent := w.agents[run].(locals := Stored(w.agents[run].locals, gone));
            Retired(w, run, key, updatedAt) == w.WithStore(w.store.Remove(gone.instanceId)).WithAgent(run, agent)
  {
    hide LocalKey;
  }

  lemma RetiredThenRest(w: World, run: string, request: RegisterRequest, calls: RegisterCalls)
    requires Ready(w, run) && request.Valid()
    requires var key, locals := LocalKey(request.name, request.port), w.agents[run].locals;
             && Active(locals, key) && key == KeyOfService(locals[key])
             && !SameRequest(locals[key].request, request) && calls.deregister
    requires FreshId(w, calls.instanceId) && w.store.instances.Keys <= w.history.Keys
    ensures var idle := Retired(w, run, LocalKey(request.name, request.port), calls.updatedAt);
            && run in idle.agents && idle.agents[run].pending == Idle
            && idle.WithPending(run, Routing(request)).WithPending(run, Idle) == idle
            && AfterRegister(w, run, request, calls) == SecondHalf(idle, run, request, calls)
  {
    hide RegisterAnew, SameRequest, LocalKey, RegisterRequest.Valid;
    var key, agent := LocalKey(request.name, request.port), w.agents[run];
    var idle := Retired(w, run, key, calls.updatedAt);
    PendingIsReplaced(idle, run, Routing(request), Idle);
    RetiredIs(w, run, key, calls.updatedAt);
    hide Retired, KeyOfService, Stored;
    var gone := agent.locals[key].(state := Deregistered, updatedAt := calls.updatedAt);
    var outcome := RegisterAnew(agent.settings, run, idle.agents[run].locals, idle.store, request, calls);
    assert outcome == RegisterOutcome(agent.settings, run, agent.locals, w.store, request, calls);
    OutcomeIgnoresTable(w, run, idle.store, idle.agents[run].locals, outcome);
    hide WithOutcome, RegisterOutcome;
  }
}
