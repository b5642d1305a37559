/** Registrations that go through, as steps of longer scenarios. */
module Scenarios {
  import opened Text
  import opened Model
  import opened Consul
  import opened Registry
  import opened InstanceId
  import opened Fleet
  import opened FleetRuns
  import opened Stages
  import opened Guarantees

  /** What a second half that goes through adds. */
  lemma SecondHalfIs(w: World, run: string, request: RegisterRequest, calls: RegisterCalls)
    requires Inv(w) && CanRegister(w, run, calls) && request.Valid()
    requires AllGoesThrough(w, run, request, calls)
    ensures var key, id := LocalKey(request.name, request.port), calls.instanceId.value;
            var w', settings := SecondHalf(w, run, request, calls), w.agents[run].settings;
            var service := NewService(settings, run, request, id, calls.registeredAt);
            var document := DocumentFor(request, calls.documentAt);
            && id in w'.history && w'.history[id].RunId() == run && w'.history[id].Key() == key
            && w'.history == w.history[id := Record(settings, service)]
            && w'.store.instances == w.store.instances[id := w'.history[id].Registration()]
            && w'.store.maintenance == w.store.maintenance
            && w'.store.kv == w.store.kv[RefOf(settings, request) := document.Canonicalized()]
            && (forall x :: x in w.history ==> x in w'.history && w'.history[x] == w.history[x])
            && w'.store.leased == w.store.leased + {id}
            && w'.store.instances.Keys == w.store.instances.Keys + {id}
            && w'.agents.Keys == w.agents.Keys
            && (forall r :: r in w.agents && r != run ==> w'.agents[r] == w.agents[r])
            && w'.agents[run].settings == w.agents[run].settings && w'.agents[run].pending == w.agents[run].pending
            && w'.agents[run].queue == w.agents[run].queue
            && key in w'.agents[run].locals
            && w'.agents[run].locals == w.agents[run].locals[key := w'.agents[run].locals[key]]
            && w'.agents[run].locals[key].instanceId == id && w'.agents[run].locals[key].state == Serving
            && w'.agents[run].locals[key].request == request
  {
    hide Owned, EntryOk, QueuedOk, RecordOk, InstanceOk, Core, LocalKey, RouteDocument.Meaning,
         RouteDocument.Canonicalized, DocumentFor, RouteConfigRef, RouteAllows, LeaseCheckIdFor;
    var agent, id := w.agents[run], calls.instanceId.value;
    InstancesAreOnRecord(w);
    AnewSucceedsExactlyWhen(agent.settings, run, agent.locals, w.store, request, calls);
    var service := NewService(agent.settings, run, request, id, calls.registeredAt);
    var document := DocumentFor(request, calls.documentAt).Canonicalized();
    var added := w.store.PutRoute(RefOf(agent.settings, request), document)
                        .Add(RegistrationFor(agent.settings, service));
    assert added.Holders(service.leaseCheckId) == {id} by {
      NewLeaseCheckIsUnshared(w, added, id);
    }
  }

  lemma NewLeaseCheckIsUnshared(w: World, added: Store, id: string)
    requires RecordsOk(w) && InstancesOk(w) && IsInstanceId(id) && id !in w.history
    requires id in added.instances && added.instances[id].leaseCheckId == LeaseCheckIdFor(id)
    requires added.instances == w.store.instances[id := added.instances[id]]
    ensures added.Holders(LeaseCheckIdFor(id)) == {id}
  {
    hide LeaseCheckIdFor, RecordOk, InstanceOk;
    forall h | h in added.Holders(LeaseCheckIdFor(id))
      ensures h == id
    {
      if h != id {
        assert InstanceOk(w, h);
        InstanceIsOnRecord(w, h);
        RecordFacts(w, h);
        LeaseCheckIdIsInjective(h, id);
      }
    }
  }

  // ------------------------------------------------------- one after another

  function AllUp(id: string): RegisterCalls {
    RegisterCalls(true, true, true, Some(id), true, true, 0, 0, 0)
  }

  /** An agent that is free, a valid request for a service it does not run, a fresh ID,
      and a route document that allows the request. */
  ghost predicate CanGoThrough(w: World, run: string, request: RegisterRequest, id: string) {
    && Ready(w, run) && request.Valid() && IsInstanceId(id) && id !in w.history
    && !Active(w.agents[run].locals, LocalKey(request.name, request.port))
    && RouteRead(w, run, request, 0)
  }

  /** Registers a service with every call going through. */
  lemma GoesThrough(w: World, run: string, request: RegisterRequest, id: string) returns (w': World)
    requires Inv(w) && CanGoThrough(w, run, request, id)
    ensures Reaches(w, w') && Inv(w')
    ensures var settings := w.agents[run].settings;
            w'.history == w.history[id := Record(settings, NewService(settings, run, request, id, 0))]
    ensures w'.store.instances == w.store.instances[id := w'.history[id].Registration()]
    ensures w'.store.leased == w.store.leased + {id} && w'.store.maintenance == w.store.maintenance
    ensures w'.store.kv == w.store.kv[RefOf(w.agents[run].settings, request) := DocumentFor(request, 0).Canonicalized()]
    ensures w'.agents.Keys == w.agents.Keys && forall r :: r in w.agents && r != run ==> w'.agents[r] == w.agents[r]
    ensures w'.agents[run].settings == w.agents[run].settings && w'.agents[run].pending == Idle
    ensures var key := LocalKey(request.name, request.port);
            Active(w'.agents[run].locals, key) && w'.agents[run].locals[key].request == request
  {
    hide Inv, RegisterAnew, LocalKey, RouteConfigRef, DocumentFor, RouteDocument.Meaning, RouteDocument.Canonicalized,
         NewService, RegistrationFor, WithRecord, Reaches, IsInstanceId;
    var calls := AllUp(id);
    SecondHalfIs(w, run, request, calls);
    RegisterIsItsStages(w, run, request, calls);
    w' := SecondHalf(w, run, request, calls);
    assert AfterRegister(w, run, request, calls) == w';
    ReachesAdvances(w, w');
  }

  lemma Boots(w: World, run: string, settings: Settings) returns (w': World)
    requires Reachable(w) && run !in w.agents
    ensures w' == w.WithAgent(run, Agent(settings, map[], [], Idle)) && Reachable(w')
  {
    ReachesNext(INITIAL, w, Boot(run, settings));
    w' := Step(w, Boot(run, settings));
  }

  // ------------------------------------------------------------------ a cast

  const AUTH := RegisterRequest(
    "app", "app", "auth", "core", 80, "auth.internal", "prod", 1, "grpc", "go", "1", ["/auth/login"], "1")

  lemma AuthIsValid(port: GoInt)
    requires 0 < port <= 65535
    ensures AUTH.(port := port).Valid()
  {
    forall field | field in AUTH.RequiredFields()
      ensures TrimSpace(field) != ""
    {
      assert Trimmed(field);
      TrimSpaceFixes(field);
    }
    TrimSpaceFixes("/auth/login");
    assert AUTH.(port := port).RequiredFields() == AUTH.RequiredFields();
  }

  const ZEROS: seq<byte> := seq(BUFFER, _ => 0)
  const FIRST_ID: string := IdText(ZEROS, 0)
  const SECOND_ID: string := IdText(ZEROS, 1)

  lemma TwoIds()
    ensures IsInstanceId(FIRST_ID) && IsInstanceId(SECOND_ID) && FIRST_ID != SECOND_ID
  {
    hide IdText;
    IdHasTheLayout(ZEROS, 0);
    IdHasTheLayout(ZEROS, 1);
    EarlierIdsSortFirst(ZEROS, 0, ZEROS, 1);
    LessIsTotal(FIRST_ID, SECOND_ID);
  }

  /** Two agents have started and done nothing yet. */
  lemma TwoAgents(a: Settings, b: Settings) returns (w: World)
    ensures Reachable(w)
    ensures w == World(EMPTY, map["a" := Agent(a, map[], [], Idle), "b" := Agent(b, map[], [], Idle)], map[])
  {
    ReachesItself(INITIAL);
    w := Boots(INITIAL, "a", a);
    w := Boots(w, "b", b);
  }
}
