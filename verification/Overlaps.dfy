/** What happens when calls that the registry does not serialise overlap: two requests
    of one agent, or the two halves of a route check. */
module Overlaps {
  import opened Model
  import opened Registry
  import opened InstanceId
  import opened Fleet
  import opened FleetRuns
  import opened Stages
  import opened Guarantees
  import opened Scenarios

  // -------------------------------------------- two registrations of one agent

  /** Register holds no lock from its lookup to its store. A second half that goes
      through keeps every leased instance held exactly when the active entry that
      may have appeared meanwhile has no leased instance. */
  lemma SecondHalfKeepsHoldersExactlyWhen(w: World, run: string, request: RegisterRequest, calls: RegisterCalls)
    requires Reachable(w) && CanRegister(w, run, calls) && request.Valid()
    requires AllGoesThrough(w, run, request, calls)
    ensures LeasesOwned(SecondHalf(w, run, request, calls))
       <==> var key, locals := LocalKey(request.name, request.port), w.agents[run].locals;
            (Active(locals, key) ==> locals[key].instanceId !in w.store.leased)
  {
    hide RecordOk, InstanceOk, EntryOk, QueuedOk, LocalKey, NewService, RouteDocument.Meaning, DocumentFor,
         RouteConfigRef, RegistrationFor, RouteAllows, Reachable, RegisterAnew;
    ReachableIsFine(w);
    var key, locals, id := LocalKey(request.name, request.port), w.agents[run].locals, calls.instanceId.value;
    var w' := SecondHalf(w, run, request, calls);
    SecondHalfIs(w, run, request, calls);
    assert Owned(w', id);
    if Active(locals, key) && locals[key].instanceId in w.store.leased {
      EntryFacts(w, run, key);
      assert !Owned(w', locals[key].instanceId);
      assert locals[key].instanceId in w'.store.leased;
    } else {
      forall x | x in w'.store.leased
        ensures Owned(w', x)
      {
        if x != id { assert Owned(w, x); }
      }
    }
  }

  /** Two overlapping registrations of one service leave two leased instances, the
      first of them held by no entry. */
  lemma OverlappingRegistersLeak(
    w: World, run: string, request: RegisterRequest, first: RegisterCalls, second: RegisterCalls)
    requires Reachable(w) && CanRegister(w, run, first) && CanRegister(w, run, second)
    requires request.Valid() && !Active(w.agents[run].locals, LocalKey(request.name, request.port))
    requires AllGoesThrough(w, run, request, first) && AllGoesThrough(w, run, request, second)
    requires first.instanceId != second.instanceId
    ensures var w1 := AfterRegister(w, run, request, first);
            run in w1.agents &&
            var w2 := SecondHalf(w1, run, request, second);
            && first.instanceId.value in w2.store.leased && second.instanceId.value in w2.store.leased
            && forall r, k :: !Holds(w2, r, k, first.instanceId.value)
  {
    hide Inv, LocalKey, NewService, RouteDocument.Meaning, DocumentFor, RouteConfigRef, RegistrationFor, Reachable,
         Reaches, RegisterAnew, RouteAllows, AfterRegister, SecondHalf, AllGoesThrough, Holds;
    ReachableIsFine(w);
    var w1 := AfterRegister(w, run, request, first);
    RegisterIsItsStages(w, run, request, first);
    ReachesAdvances(w, w1);
    NothingActiveToLookUp(w, run, request, first);
    FreshStaysFresh(w, w1, run, request, first, second);
    SecondHalfTakesOver(w, w1, run, request, first, second);
  }

  lemma NothingActiveToLookUp(w: World, run: string, request: RegisterRequest, calls: RegisterCalls)
    requires run in w.agents && request.Valid() && !Active(w.agents[run].locals, LocalKey(request.name, request.port))
    ensures AfterRegister(w, run, request, calls) == SecondHalf(w, run, request, calls)
  {
    hide RegisterAnew, LocalKey;
  }

  lemma SecondHalfTakesOver(
    w: World, w1: World, run: string, request: RegisterRequest, first: RegisterCalls, second: RegisterCalls)
    requires Inv(w) && CanRegister(w, run, first) && request.Valid() && AllGoesThrough(w, run, request, first)
    requires w1 == SecondHalf(w, run, request, first) && Inv(w1)
    requires CanRegister(w1, run, second) && AllGoesThrough(w1, run, request, second)
    ensures var w2 := SecondHalf(w1, run, request, second);
            && first.instanceId.value in w2.store.leased && second.instanceId.value in w2.store.leased
            && forall r, k :: !Holds(w2, r, k, first.instanceId.value)
  {
    hide RecordOk, EntryOk, QueuedOk, PendingOk, Owned, InstanceOk, LocalKey, NewService, RouteDocument.Meaning,
         DocumentFor, RouteConfigRef, RegistrationFor, RegisterAnew, WithRecord, RouteAllows;
    SecondHalfIs(w, run, request, first);
    SecondHalfIs(w1, run, request, second);
    hide Inv, SecondHalf;
    var w2 := SecondHalf(w1, run, request, second);
    forall r, k
      ensures !Holds(w2, r, k, first.instanceId.value)
    {
      if Holds(w2, r, k, first.instanceId.value) {
        FreshIdsAreNotHeld(w, r, k, first.instanceId.value);
      }
    }
  }

  lemma FreshIdsAreNotHeld(w: World, run: string, key: string, id: string)
    requires Inv(w) && id !in w.history
    ensures !Holds(w, run, key, id)
  {
    hide RecordOk, InstanceOk, QueuedOk, Owned, KeyOfService, LeaseCheckIdFor;
    if Holds(w, run, key, id) {
      EntryFacts(w, run, key);
    }
  }

  /** The first registration leaves room for the second half of the other. */
  lemma FreshStaysFresh(
    w: World, w1: World, run: string, request: RegisterRequest, first: RegisterCalls, second: RegisterCalls)
    requires Inv(w) && CanRegister(w, run, first) && CanRegister(w, run, second)
    requires AllGoesThrough(w, run, request, first) && AllGoesThrough(w, run, request, second)
    requires first.instanceId != second.instanceId
    requires w1 == SecondHalf(w, run, request, first) && request.Valid()
    ensures CanRegister(w1, run, second) && AllGoesThrough(w1, run, request, second)
  {
    hide Inv, NewService, RouteDocument.Meaning, RouteDocument.Canonicalized, DocumentFor, RouteConfigRef,
         RegistrationFor, LeaseCheckIdFor, LocalKey;
    var agent := w.agents[run];
    AnewSucceedsExactlyWhen(agent.settings, run, agent.locals, w.store, request, first);
    CanonicalizedKeepsMeaning(DocumentFor(request, first.documentAt));
    MeaningIgnoresTime(request, first.documentAt);
    MeaningIgnoresTime(request, second.documentAt);
  }

  // ------------------------------------------------ a replay and another request

  /** A replay has read an entry and passed its lease; its store comes late, on the
      table as it is by then. */
  function StaleReplay(w: World, run: string, key: string, stale: LocalService, now: int): World
    requires run in w.agents
  {
    w.WithEntry(run, key, stale.(updatedAt := now))
  }

  /** The table still has the instance under the key, no further on in its life. */
  predicate StillAsRead(locals: Locals, key: string, stale: LocalService) {
    key in locals && locals[key].instanceId == stale.instanceId && Rank(locals[key].state) <= Rank(stale.state)
  }

  /** The late store of a replay undoes nothing, and leaves no leased instance without
      an entry, exactly when the table still holds the instance that was read, at no
      later state. */
  lemma StaleReplayIsSafeExactlyWhen(earlier: World, w: World, run: string, key: string, now: int)
    requires Reachable(earlier) && Reaches(earlier, w)
    requires run in earlier.agents && Active(earlier.agents[run].locals, key)
    ensures run in w.agents
    ensures var stale := earlier.agents[run].locals[key];
            var late := StaleReplay(w, run, key, stale, now);
            && (PhasesGrow(w, late) && LeasesOwned(late) <==> StillAsRead(w.agents[run].locals, key, stale))
            && (PhasesGrow(w, late) <==> StillAsRead(w.agents[run].locals, key, stale))
  {
    hide RecordOk, InstanceOk, EntryOk, QueuedOk, PendingOk, Reachable, Reaches, KeyOfService;
    ReachableIsFine(earlier);
    ReachesAdvances(earlier, w);
    EntryFacts(earlier, run, key);
    var stale, locals := earlier.agents[run].locals[key], w.agents[run].locals;
    var id, late := stale.instanceId, StaleReplay(w, run, key, stale, now);
    NotOnItsWay(earlier, run, key);
    assert Phase(earlier, id) == Rank(stale.state) && Phase(earlier, id) <= Phase(w, id);
    assert Phase(late, id) == Rank(stale.state);
    if StillAsRead(locals, key, stale) {
      forall x | x in late.store.leased
        ensures Owned(late, x)
      {
        assert Owned(w, x);
      }
    } else {
      assert Phase(w, id) > Phase(late, id);
    }
  }

  /** An instance of the table is not one that is still being registered. */
  lemma NotOnItsWay(w: World, run: string, key: string)
    requires PendingsOk(w) && run in w.agents && key in w.agents[run].locals
    ensures !OnItsWay(w, run, w.agents[run].locals[key].instanceId)
  {
    hide KeyOfService, RouteDocument.Meaning, RouteConfigRef, LocalKey;
    assert PendingOk(w, run);
  }

  /** And the leases: a stale replay strands a leased instance exactly when the table
      holds another one by then whose lease was passed. */
  lemma StaleReplayStrandsExactlyWhen(earlier: World, w: World, run: string, key: string, now: int)
    requires Reachable(earlier) && Reaches(earlier, w)
    requires run in earlier.agents && Active(earlier.agents[run].locals, key)
    ensures run in w.agents
    ensures var stale, locals := earlier.agents[run].locals[key], w.agents[run].locals;
            (!LeasesOwned(StaleReplay(w, run, key, stale, now)) <==>
               key in locals && locals[key].instanceId != stale.instanceId && locals[key].instanceId in w.store.leased)
  {
    hide RecordOk, InstanceOk, EntryOk, QueuedOk, PendingOk, Reachable, Reaches, KeyOfService, Phase;
    ReachableIsFine(earlier);
    ReachesAdvances(earlier, w);
    EntryFacts(earlier, run, key);
    var stale, locals := earlier.agents[run].locals[key], w.agents[run].locals;
    var late := StaleReplay(w, run, key, stale, now);
    if key in locals && locals[key].instanceId != stale.instanceId && locals[key].instanceId in w.store.leased {
      EntryFacts(w, run, key);
      assert !Owned(late, locals[key].instanceId);
    } else {
      forall x | x in late.store.leased
        ensures Owned(late, x)
      {
        assert Owned(w, x);
      }
    }
  }

  /** A drain that comes in between is undone: the entry serves again while Consul
      keeps the instance in maintenance. */
  lemma StaleReplayUndoesDrain(w: World, run: string, drain: DrainRequest, startedAt: int, drainedAt: int, now: int)
    requires Reachable(w) && Ready(w, run) && drain.Valid()
    requires var key, locals := LocalKey(drain.name, drain.port), w.agents[run].locals;
             key in locals && locals[key].state == Serving && locals[key].instanceId in w.store.instances
    ensures var key, e := LocalKey(drain.name, drain.port), DrainCall(run, drain, true, startedAt, drainedAt);
            var stale, drained := w.agents[run].locals[key], Step(w, e);
            && Reachable(drained) && run in drained.agents && drained.agents[run].locals[key].state == Draining
            && var late := StaleReplay(drained, run, key, stale, now);
               && late.agents[run].locals[key].state == Serving
               && stale.instanceId in late.store.maintenance && !PhasesGrow(drained, late)
  {
    hide Reachable, Reaches, Phase, LocalKey, Inv;
    var key, e := LocalKey(drain.name, drain.port), DrainCall(run, drain, true, startedAt, drainedAt);
    var drained := Step(w, e);
    assert Reachable(drained) by {
      assert Reaches(INITIAL, w) by { ReachableMeans(w); }
      ReachesNext(INITIAL, w, e);
      ReachableMeans(drained);
    }
    ReachesItself(w);
    ReachesNext(w, w, e);
    StaleReplayIsSafeExactlyWhen(w, drained, run, key, now);
  }

  // ----------------------------------------- a removal and another request

  /** A changed request, or a shutdown, has read an entry; its removal from Consul and
      its store come late. */
  function StaleRetire(w: World, run: string, key: string, stale: LocalService, now: int): World
    requires run in w.agents
  {
    w.WithStore(w.store.Remove(stale.instanceId))
     .WithEntry(run, key, stale.(state := Deregistered, updatedAt := now))
  }

  /** A late removal undoes nothing exactly when the table still holds the instance that
      was read. */
  lemma StaleRetireIsSafeExactlyWhen(earlier: World, w: World, run: string, key: string, now: int)
    requires Reachable(earlier) && Reaches(earlier, w)
    requires run in earlier.agents && Active(earlier.agents[run].locals, key)
    ensures run in w.agents
    ensures var stale, locals := earlier.agents[run].locals[key], w.agents[run].locals;
            PhasesGrow(w, StaleRetire(w, run, key, stale, now))
            <==> key in locals && locals[key].instanceId == stale.instanceId
  {
    hide RecordOk, InstanceOk, EntryOk, QueuedOk, PendingOk, Reachable, Reaches, KeyOfService;
    ReachableIsFine(earlier);
    ReachesAdvances(earlier, w);
    EntryFacts(earlier, run, key);
    var stale, locals := earlier.agents[run].locals[key], w.agents[run].locals;
    var id, late := stale.instanceId, StaleRetire(w, run, key, stale, now);
    NotOnItsWay(earlier, run, key);
    assert Phase(earlier, id) == Rank(stale.state) && Phase(earlier, id) <= Phase(w, id);
    assert Phase(late, id) == 3;
    if key !in locals || locals[key].instanceId != id {
      assert Phase(w, id) == 4;
    }
  }

  /** It strands a leased instance exactly when the table holds another one by then
      whose lease was passed. */
  lemma StaleRetireStrandsExactlyWhen(earlier: World, w: World, run: string, key: string, now: int)
    requires Reachable(earlier) && Reaches(earlier, w)
    requires run in earlier.agents && Active(earlier.agents[run].locals, key)
    ensures run in w.agents
    ensures var stale, locals := earlier.agents[run].locals[key], w.agents[run].locals;
            (!LeasesOwned(StaleRetire(w, run, key, stale, now)) <==>
               key in locals && locals[key].instanceId != stale.instanceId && locals[key].instanceId in w.store.leased)
  {
    hide RecordOk, InstanceOk, EntryOk, QueuedOk, PendingOk, Reachable, Reaches, KeyOfService, Phase;
    ReachableIsFine(earlier);
    ReachesAdvances(earlier, w);
    EntryFacts(earlier, run, key);
    var stale, locals := earlier.agents[run].locals[key], w.agents[run].locals;
    var late := StaleRetire(w, run, key, stale, now);
    if key in locals && locals[key].instanceId != stale.instanceId && locals[key].instanceId in w.store.leased {
      EntryFacts(w, run, key);
      assert !Owned(late, locals[key].instanceId);
    } else {
      forall x | x in late.store.leased
        ensures Owned(late, x)
      {
        assert Owned(w, x);
      }
    }
  }

  /** Two overlapping changes of one service strand an instance: the one that goes
      through is leased, and the late removal of the other leaves it without an entry. */
  lemma OverlappingChangesStrand(w: World, run: string, request: RegisterRequest, calls: RegisterCalls, now: int)
    requires Reachable(w) && CanRegister(w, run, calls) && request.Valid()
    requires var key, locals := LocalKey(request.name, request.port), w.agents[run].locals;
             Active(locals, key) && !SameRequest(locals[key].request, request)
    requires calls.deregister && AllGoesThrough(w, run, request, calls)
    ensures var key, changed := LocalKey(request.name, request.port), AfterRegister(w, run, request, calls);
            && Reachable(changed) && run in changed.agents
            && var late := StaleRetire(changed, run, key, w.agents[run].locals[key], now);
               calls.instanceId.value in late.store.leased && !LeasesOwned(late)
  {
    hide RecordOk, InstanceOk, EntryOk, QueuedOk, PendingOk, Owned, LocalKey, Reachable, Reaches, SecondHalf,
         AfterRegister, SameRequest, RouteAllows, DocumentFor, RouteConfigRef, NewService, RegistrationFor,
         RouteDocument.Canonicalized;
    ReachableIsFine(w);
    RegisterIsItsStages(w, run, request, calls);
    var key, changed := LocalKey(request.name, request.port), AfterRegister(w, run, request, calls);
    ReachableOn(w, changed);
    ChangeThenRest(w, run, request, calls);
    EntryFacts(w, run, key);
    StaleRetireStrandsExactlyWhen(w, changed, run, key, now);
  }

  /** What the change that goes through leaves. */
  lemma ChangeThenRest(w: World, run: string, request: RegisterRequest, calls: RegisterCalls)
    requires Inv(w) && CanRegister(w, run, calls) && request.Valid()
    requires var key, locals := LocalKey(request.name, request.port), w.agents[run].locals;
             Active(locals, key) && !SameRequest(locals[key].request, request)
    requires calls.deregister && AllGoesThrough(w, run, request, calls)
    ensures var key, changed := LocalKey(request.name, request.port), AfterRegister(w, run, request, calls);
            && run in changed.agents && key in changed.agents[run].locals
            && changed.agents[run].locals[key].instanceId == calls.instanceId.value
            && calls.instanceId.value in changed.store.leased
  {
    hide RecordOk, InstanceOk, EntryOk, QueuedOk, PendingOk, Owned, LocalKey, SecondHalf, AfterRegister, SameRequest,
         RouteAllows, DocumentFor, RouteConfigRef, NewService, RegistrationFor, RouteDocument.Canonicalized,
         LeasesOwned, InstancesOk, EntriesOk, QueuesOk, PendingsOk, MarksOk, RecordsOk;
    var key := LocalKey(request.name, request.port);
    var e := RegisterBegins(run, request, calls.lease, calls.deregister, calls.updatedAt);
    InstancesOnRecord(w);
    LookedUp(w, run, request, calls);
    BeginKeeps(w, run, request, calls.lease, calls.deregister, calls.updatedAt);
    var w1 := Step(w, e);
    assert w1 == Retired(w, run, key, calls.updatedAt).WithPending(run, Routing(request));
    GivesUp(w1, run);
    SecondHalfIs(w1.WithPending(run, Idle), run, request, calls);
  }

  /** And two changes may overlap like that: a service that runs, and a new weight. */
  lemma ChangesMayOverlap(settings: Settings) returns (w: World)
    ensures var key, request, calls := LocalKey(AUTH.name, AUTH.port), AUTH.(weight := 2), AllUp(SECOND_ID);
            && Reachable(w) && CanRegister(w, "a", calls) && request.Valid()
            && Active(w.agents["a"].locals, key) && !SameRequest(w.agents["a"].locals[key].request, request)
            && AllGoesThrough(w, "a", request, calls)
  {
    hide Reachable, Reaches, NewService, RegistrationFor, RouteDocument.Meaning, RouteDocument.Canonicalized,
         RouteConfigRef, DocumentFor, LocalKey, IsInstanceId, FIRST_ID, SECOND_ID, Inv;
    AuthIsValid(80);
    AuthListensOn80();
    TwoIds();
    var w0 := TwoAgents(settings, settings);
    ReachableIsFine(w0);
    w := GoesThrough(w0, "a", AUTH, FIRST_ID);
    ReachableOn(w0, w);
    CanonicalizedKeepsMeaning(DocumentFor(AUTH, 0));
    WeightIsNoRoute(settings);
  }

  lemma WeightIsNoRoute(settings: Settings)
    ensures AUTH.(weight := 2).Valid()
    ensures RefOf(settings, AUTH.(weight := 2)) == RefOf(settings, AUTH)
    ensures DocumentFor(AUTH.(weight := 2), 0) == DocumentFor(AUTH, 0)
  {
    AuthIsValid(80);
    assert AUTH.(weight := 2).RequiredFields() == AUTH.(port := 80).RequiredFields();
  }

  lemma ReachableMeans(w: World)
    ensures Reachable(w) <==> Reaches(INITIAL, w)
  {
  }

  // ---------------------------------------------- the two halves of a route check

  /** Writing a route document keeps the meaning of every route exactly when what is
      there at the moment of writing allows the document. */
  lemma LateWriteKeepsMeaningsExactlyWhen(w: World, run: string, request: RegisterRequest, now: int)
    requires run in w.agents
    ensures RoutesStay(w, RouteWritten(w, run, request, now)) <==> RouteRead(w, run, request, now)
  {
    hide RouteDocument.Meaning, RouteDocument.Canonicalized, RouteConfigRef, DocumentFor;
    CanonicalizedKeepsMeaning(DocumentFor(request, now));
  }

  /** And it keeps the records straight exactly when everything ever registered under
      the reference has the meaning of the request. */
  lemma LateWriteKeepsRecordsExactlyWhen(w: World, run: string, request: RegisterRequest, now: int)
    requires Reachable(w) && run in w.agents
    ensures RecordsOk(RouteWritten(w, run, request, now))
       <==> forall id :: id in w.history && w.history[id].Ref() == RefOf(w.agents[run].settings, request) ==>
              w.history[id].Meaning() == DocumentFor(request, 0).Meaning()
  {
    hide InstanceOk, EntryOk, QueuedOk, PendingOk, RouteDocument.Meaning, RouteDocument.Canonicalized, RouteConfigRef,
         DocumentFor, NewService, Reachable;
    ReachableIsFine(w);
    CanonicalizedKeepsMeaning(DocumentFor(request, now));
    SameRouteMeaning(request, request, now, 0);
    var ref, late := RefOf(w.agents[run].settings, request), RouteWritten(w, run, request, now);
    assert forall id :: id in w.history ==> RecordOk(w, id);
    assert late.store.kv[ref].Meaning() == DocumentFor(request, 0).Meaning();
    if RecordsOk(late) {
      forall id | id in w.history && w.history[id].Ref() == ref
        ensures w.history[id].Meaning() == DocumentFor(request, 0).Meaning()
      {
        assert RecordOk(late, id);
      }
    } else {
      var id :| id in late.history && !RecordOk(late, id);
      assert RecordOk(w, id);
      assert w.history[id].Ref() == ref;
    }
  }

  /** A world that a run reaches in which one route check was not one step: the
      document was read as allowed in one world and written in a later one. */
  ghost predicate ReachedWithLateWrite(w': World) {
    exists read, write, run, request, now ::
      && Reachable(read) && run in read.agents && read.agents[run].pending == Routing(request)
      && RouteRead(read, run, request, now)
      && Reaches(read, write) && run in write.agents && write.agents[run].pending == Routing(request)
      && Reaches(RouteWritten(write, run, request, now), w')
  }

  /** One late write is enough for two leased instances of one service that disagree
      on the port, under one route reference. */
  lemma LateWriteSplitsAService(settings: Settings) returns (w: World)
    ensures ReachedWithLateWrite(w) && FIRST_ID != SECOND_ID
    ensures {FIRST_ID, SECOND_ID} <= w.store.instances.Keys && {FIRST_ID, SECOND_ID} <= w.store.leased
    ensures w.history.Keys == {FIRST_ID, SECOND_ID} && w.store.maintenance == {}
    ensures w.history[FIRST_ID] == Record(settings, NewService(settings, "a", AUTH, FIRST_ID, 0))
    ensures w.history[SECOND_ID] == Record(settings, NewService(settings, "b", AUTH.(port := 81), SECOND_ID, 0))
    ensures w.store.instances[FIRST_ID] == w.history[FIRST_ID].Registration()
    ensures w.store.instances[SECOND_ID] == w.history[SECOND_ID].Registration()
    ensures w.history[FIRST_ID].Ref() == w.history[SECOND_ID].Ref()
    ensures w.history[FIRST_ID].Meaning() != w.history[SECOND_ID].Meaning()
  {
    hide Reachable, Reaches, NewService, RegistrationFor, RouteDocument.Meaning, RouteDocument.Canonicalized,
         RouteConfigRef, DocumentFor, LocalKey, IsInstanceId, AUTH, FIRST_ID, SECOND_ID, Inv, RegisterRequest.Valid,
         Step;
    var other := AUTH.(port := 81);
    AuthIsValid(80);
    AuthIsValid(81);
    assert AUTH.(port := 80) == AUTH by { AuthListensOn80(); }
    TwoIds();
    w := TwoAgents(settings, settings);
    var read := StartsRouting(w, "b", other);
    ReachableIsFine(read);
    var write := GoesThrough(read, "a", AUTH, FIRST_ID);
    var late := RouteWritten(write, "b", other, 0);
    w := EnlistsAndAdopts(late, "b", other, SECOND_ID);
    assert ReachedWithLateWrite(w);
    SameRouteMeaning(AUTH, other, 0, 0);
    AuthListensOn80();
    AuthRefIgnoresPort(settings);
    MeaningsOf(w, settings);
  }

  lemma AuthListensOn80()
    ensures AUTH.port == 80
  {
  }

  lemma AuthRefIgnoresPort(settings: Settings)
    ensures RefOf(settings, AUTH.(port := 81)) == RefOf(settings, AUTH)
  {
  }

  lemma MeaningsOf(w: World, settings: Settings)
    requires FIRST_ID in w.history && SECOND_ID in w.history
    requires w.history[FIRST_ID] == Record(settings, NewService(settings, "a", AUTH, FIRST_ID, 0))
    requires w.history[SECOND_ID] == Record(settings, NewService(settings, "b", AUTH.(port := 81), SECOND_ID, 0))
    ensures w.history[FIRST_ID].Meaning() == DocumentFor(AUTH, 0).Meaning()
    ensures w.history[SECOND_ID].Meaning() == DocumentFor(AUTH.(port := 81), 0).Meaning()
    ensures w.history[FIRST_ID].Ref() == RefOf(settings, AUTH)
              && w.history[SECOND_ID].Ref() == RefOf(settings, AUTH.(port := 81))
  {
    hide RouteDocument.Meaning, DocumentFor, RouteConfigRef;
  }

  lemma StartsRouting(w: World, run: string, request: RegisterRequest) returns (w': World)
    requires Reachable(w) && Ready(w, run) && request.Valid()
    requires !Active(w.agents[run].locals, LocalKey(request.name, request.port))
    ensures w' == w.WithPending(run, Routing(request)) && Reachable(w')
  {
    var e := RegisterBegins(run, request, true, true, 0);
    ReachesNext(INITIAL, w, e);
    w' := Step(w, e);
  }

  /** The rest of a registration, on any world, when its calls go through. */
  lemma EnlistsAndAdopts(w: World, run: string, request: RegisterRequest, id: string) returns (w': World)
    requires run in w.agents && w.agents[run].pending == Enlisting(request)
    requires IsInstanceId(id) && id !in w.history
    ensures Reaches(w, w') && w'.agents.Keys == w.agents.Keys
    ensures var settings := w.agents[run].settings;
            w'.history == w.history[id := Record(settings, NewService(settings, run, request, id, 0))]
    ensures w'.store.instances == w.store.instances[id := w'.history[id].Registration()]
    ensures w'.store.maintenance == w.store.maintenance && w'.store.kv == w.store.kv
    ensures w.store.leased + {id} <= w'.store.leased
  {
    hide Reaches, RouteConfigRef, RoutePrefixes, BuildAgentId, LeaseCheckIdFor, IsInstanceId, KeyOfService;
    var e, e' := RegisterEnlists(run, Some(id), true, 0), RegisterAdopts(run, true, 0);
    ReachesItself(w);
    ReachesNext(w, w, e);
    var w1 := Step(w, e);
    ReachesNext(w, w1, e');
    w' := Step(w1, e');
    var service := w1.agents[run].pending.service;
    assert id in w1.store.instances && w1.store.instances[id].leaseCheckId == service.leaseCheckId;
    assert id in w1.store.Holders(service.leaseCheckId);
  }
}
