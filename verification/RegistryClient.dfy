/** The registry client as the program runs it: one object per agent run, with
    its table of local services, talking to a shared Consul. */
module RegistryClient {
  import opened Text
  import opened Sorting
  import opened Model
  import opened Consul
  import opened Registry
  import opened Discovery

  class Client {
    const settings: Settings
    const agentId: string
    const agentRunId: string
    const consul: Server
    var localServices: Locals

    constructor (settings: Settings, agentRunId: string, consul: Server)
      ensures localServices == map[]
      ensures this.settings == settings && this.agentRunId == agentRunId && this.consul == consul
      ensures agentId == BuildAgentId(settings)
    {
      this.settings := settings;
      this.agentId := BuildAgentId(settings);
      this.agentRunId := agentRunId;
      this.consul := consul;
      this.localServices := map[];
    }

    ghost predicate Valid()
      reads this
    {
      agentId == BuildAgentId(settings)
    }

    // ------------------------------------------------------------- helpers

    method StoreLocalService(service: LocalService)
      modifies this`localServices
      ensures localServices == old(localServices)[LocalKey(service.request.name, service.request.port) := service]
    {
      localServices := localServices[LocalKey(service.request.name, service.request.port) := service];
    }

    /** The active entries, in whatever order the table yields them. */
    method ActiveLocalServices() returns (services: seq<LocalService>, ghost order: seq<string>)
      ensures ActiveOrder(localServices, order)
      ensures services == Lookup(localServices, order)
      ensures AreActive(localServices, services)
    {
      services, order := [], [];
      var left := localServices.Keys;
      while left != {}
        invariant left <= localServices.Keys
        invariant forall key :: key in order <==> Active(localServices, key) && key !in left
        invariant forall i, j :: 0 <= i < j < |order| ==> order[i] != order[j]
        invariant services == Lookup(localServices, order)
        decreases left
      {
        var key :| key in left;
        assert forall i :: 0 <= i < |order| ==> order[i] in order && order[i] != key;
        left := left - {key};
        var service := localServices[key];
        if service.state == Deregistered {
          continue;
        }
        services := services + [service];
        order := order + [key];
      }
      ActiveAreListed(localServices, order);
    }

    method PassLease(service: LocalService, up: bool) returns (ok: bool)
      modifies consul
      ensures ok <==> up && Known(old(consul.state), service.leaseCheckId)
      ensures consul.state == if ok then old(consul.state).Lease(service.leaseCheckId) else old(consul.state)
      ensures consul.state == Refreshed(old(consul.state), service.leaseCheckId, up)
    {
      KnownHasHolders(consul.state, service.leaseCheckId);
      ok := consul.UpdateTTL(service.leaseCheckId, up);
    }

    method EnsureRoute(key: string, document: RouteDocument, get: bool, put: bool) returns (error: Option<Error>)
      modifies consul
      ensures var outcome := EnsureRouteDocument(old(consul.state), key, document, get, put);
              if outcome.Ok? then error == None && consul.state == outcome.value
              else error == Some(outcome.error) && consul.state == old(consul.state)
      ensures var kv := old(consul.state).kv;
              (error == None <==>
                 get && put && (key in kv ==> kv[key].Meaning() == document.Meaning()))
      ensures error == Some(RouteConflict) <==>
                get && key in old(consul.state).kv && old(consul.state).kv[key].Meaning() != document.Meaning()
      ensures error == None ==>
                && key in consul.state.kv
                && consul.state == old(consul.state).(kv := old(consul.state).kv[key := consul.state.kv[key]])
                && consul.state.kv[key].Meaning() == document.Meaning()
                && consul.state.kv[key].Canonicalized() == consul.state.kv[key]
      ensures error != None ==> consul.state == old(consul.state)
    {
      hide RouteDocument.Meaning, RouteDocument.Canonicalized;
      CanonicalizedKeepsMeaning(document);
      var found := consul.Get(key, get);
      if found.Err? {
        return Some(found.error);
      }
      if found.value.Some? {
        var same := found.value.value.Equal(document);
        if !same {
          return Some(RouteConflict);
        }
      }
      var payload := document.Canonicalize();
      var ok := consul.Put(key, payload, put);
      return if ok then None else Some(CallFailed);
    }

    // ----------------------------------------------------------- operations

    method Register(request: RegisterRequest, calls: RegisterCalls) returns (result: Result<LocalService>)
      requires Valid()
      modifies this`localServices, consul
      ensures Outcome(localServices, consul.state, result)
           == RegisterOutcome(settings, agentRunId, old(localServices), old(consul.state), request, calls)
    {
      hide LocalKey, SameRequest, RegisterAnew, BuildAgentId;
      if !request.Valid() {
        return Err(InvalidRequest);
      }
      var key := LocalKey(request.name, request.port);
      if key in localServices && localServices[key].state != Deregistered {
        var existing := localServices[key];
        var same := SameRegisterRequest(existing.request, request);
        if same {
          var passed := PassLease(existing, calls.lease);
          if !passed {
            return Err(CallFailed);
          }
          existing := existing.(updatedAt := calls.updatedAt);
          StoreLocalService(existing);
          return Ok(existing);
        }
        var removed := consul.ServiceDeregister(existing.instanceId, calls.deregister);
        if !removed {
          return Err(CallFailed);
        }
        existing := existing.(state := Deregistered, updatedAt := calls.updatedAt);
        StoreLocalService(existing);
      }
      result := RegisterNew(request, calls);
    }

    /** The rest of Register, once no active entry is in the way. */
    method RegisterNew(request: RegisterRequest, calls: RegisterCalls) returns (result: Result<LocalService>)
      requires Valid()
      modifies this`localServices, consul
      ensures Outcome(localServices, consul.state, result)
           == RegisterAnew(settings, agentRunId, old(localServices), old(consul.state), request, calls)
    {
      hide LocalKey, RouteConfigRef, LeaseCheckIdFor, BuildAgentId, RegistrationFor, EnsureRouteDocument,
           RoutePrefixes, Canonical, TrimSpace;
      var routePrefixes := ExtractRoutePrefixes(request.methods);
      var routeConfigRef := RefOf(settings, request);
      var exactPaths := UniqueSortedStrings(request.methods);
      var routeDoc := RouteDocument(request.name, request.version, calls.documentAt, request.namespace,
                                    request.port, request.protocol, routePrefixes, exactPaths);
      var failure := EnsureRoute(routeConfigRef, routeDoc, calls.kvGet, calls.kvPut);
      if failure.Some? {
        return Err(failure.value);
      }
      if calls.instanceId.None? {
        return Err(CallFailed);
      }
      var service := LocalService(
        request, calls.instanceId.value, agentId, agentRunId, TrimSpace(settings.hostIp), TrimSpace(settings.zone),
        routePrefixes, routeConfigRef, LeaseCheckIdFor(calls.instanceId.value), Registered,
        calls.registeredAt, calls.registeredAt, None);
      assert service == NewService(settings, agentRunId, request, calls.instanceId.value, calls.registeredAt);
      hide NewService;
      var registered := consul.ServiceRegister(RegistrationFor(settings, service), calls.register);
      if !registered {
        return Err(CallFailed);
      }
      var leased := PassLease(service, calls.lease);
      if !leased {
        return Err(CallFailed);
      }
      service := service.(state := Serving, updatedAt := calls.updatedAt);
      StoreLocalService(service);
      return Ok(service);
    }

    method Drain(request: DrainRequest, up: bool, startedAt: int, updatedAt: int)
      returns (result: Result<LocalService>)
      modifies this`localServices, consul
      ensures Outcome(localServices, consul.state, result)
           == DrainOutcome(old(localServices), old(consul.state), request, up, startedAt, updatedAt)
      ensures var key, locals := LocalKey(request.name, request.port), old(localServices);
              && (result == Err(InvalidRequest) <==> !request.Valid())
              && (result == Err(NotFound) <==> request.Valid() && key !in locals)
              && (result.Ok? <==>
                    && request.Valid() && key in locals && up
                    && locals[key].instanceId in old(consul.state).instances)
      ensures result.Err? ==> localServices == old(localServices) && consul.state == old(consul.state)
      ensures result.Ok? ==>
                var key, locals := LocalKey(request.name, request.port), old(localServices);
                var grace := if request.gracePeriodRaw.Blank? then 20_000_000_000 else request.gracePeriodRaw.nanos;
                && result.value
                == locals[key].(state := Draining, updatedAt := updatedAt, drainDeadline := Some(startedAt + grace))
                && localServices == locals[key := result.value]
                && consul.state
                == old(consul.state).(maintenance := old(consul.state).maintenance + {locals[key].instanceId})
    {
      if !request.Valid() {
        return Err(InvalidRequest);
      }
      var gracePeriod := request.GracePeriod().value;
      var key := LocalKey(request.name, request.port);
      if key !in localServices {
        return Err(NotFound);
      }
      var service := localServices[key];
      var marked := consul.EnableServiceMaintenance(service.instanceId, up);
      if !marked {
        return Err(CallFailed);
      }
      service := service.(state := Draining, updatedAt := updatedAt, drainDeadline := Some(startedAt + gracePeriod));
      localServices := localServices[key := service];
      return Ok(service);
    }

    method Deregister(request: DeregisterRequest, up: bool, updatedAt: int) returns (result: Result<LocalService>)
      modifies this`localServices, consul
      ensures Outcome(localServices, consul.state, result)
           == DeregisterOutcome(old(localServices), old(consul.state), request, up, updatedAt)
      ensures var key, locals := LocalKey(request.name, request.port), old(localServices);
              && (result == Err(InvalidRequest) <==> !request.Valid())
              && (result == Err(NotFound) <==> request.Valid() && key !in locals)
              && (result.Ok? <==> request.Valid() && key in locals && up)
      ensures result.Err? ==> localServices == old(localServices) && consul.state == old(consul.state)
      ensures result.Ok? ==>
                var key, locals, store := LocalKey(request.name, request.port), old(localServices), old(consul.state);
                var id := locals[key].instanceId;
                && result.value == locals[key].(state := Deregistered, updatedAt := updatedAt, drainDeadline := None)
                && localServices == locals[key := result.value]
                && consul.state == store.(
                     instances := store.instances - {id}, leased := store.leased - {id},
                     maintenance := store.maintenance - {id})
    {
      if !request.Valid() {
        return Err(InvalidRequest);
      }
      var key := LocalKey(request.name, request.port);
      if key !in localServices {
        return Err(NotFound);
      }
      var service := localServices[key];
      var removed := consul.ServiceDeregister(service.instanceId, up);
      if !removed {
        return Err(CallFailed);
      }
      service := service.(state := Deregistered, updatedAt := updatedAt, drainDeadline := None);
      localServices := localServices[key := service];
      return Ok(service);
    }

    /** Removes the active services one by one and stops at the first failure.
        `order` is the order they were taken in and `done` how many went. */
    method Shutdown(up: nat -> bool, clock: nat -> int)
      returns (ok: bool, done: nat, ghost order: seq<string>)
      modifies this`localServices, consul
      ensures ActiveOrder(old(localServices), order)
      ensures done <= |order|
      ensures forall i: nat :: i < done ==> up(i)
      ensures if ok then done == |order| else done < |order| && !up(done)
      ensures localServices == ShutdownLocals(old(localServices), order, clock, done)
      ensures consul.state == ShutdownStore(old(localServices), old(consul.state), order, done)
    {
      hide LocalKey, AreActive;
      ghost var locals, store := localServices, consul.state;
      var services;
      services, order := ActiveLocalServices();
      done := 0;
      NothingShutDown(locals, store, order, clock);
      hide *;
      while done < |services|
        invariant done <= |services|
        invariant forall i: nat :: i < done ==> up(i)
        invariant ShutDown(locals, store, order, clock, done, localServices, consul.state)
      {
        NextToShutDown(locals, store, order, clock, done, localServices, consul.state);
        var service := services[done];
        var removed := consul.ServiceDeregister(service.instanceId, up(done));
        if !removed {
          ShutDownIs(locals, store, order, clock, done, localServices, consul.state);
          return false, done, order;
        }
        service := service.(state := Deregistered, updatedAt := clock(done));
        StoreLocalService(service);
        done := done + 1;
      }
      ShutDownIs(locals, store, order, clock, done, localServices, consul.state);
      ok := true;
    }

    /** One firing of the lease ticker: every refresh is tried, failures are only
        logged. */
    method LeaseTick(up: nat -> bool) returns (ghost order: seq<string>)
      modifies consul
      ensures ActiveOrder(localServices, order)
      ensures consul.state
           == RefreshedStore(old(consul.state), Lookup(localServices, order), up, |order|)
      ensures Ticked(old(consul.state), Lookup(localServices, order), up, consul.state)
    {
      var services;
      services, order := ActiveLocalServices();
      for n := 0 to |services|
        invariant consul.state == RefreshedStore(old(consul.state), services, up, n)
      {
        var passed := PassLease(services[n], up(n));
      }
      RefreshedStoreIsTicked(old(consul.state), services, up, |services|);
      assert services[..|services|] == services;
    }

    /** Removes what earlier runs of this agent left in Consul. The catalog query,
        the query for each service and each removal may fail. */
    method CleanupPreviousRuns(catalogUp: bool, queryUp: string -> bool, removeUp: string -> bool)
      returns (ok: bool, removed: set<string>)
      modifies consul
      ensures consul.state == old(consul.state).RemoveAll(removed)
      ensures removed <= Stale(old(consul.state), agentId, agentRunId)
      ensures ok ==> removed == Stale(old(consul.state), agentId, agentRunId)
      ensures forall id :: id in removed ==>
                && id in old(consul.state).instances
                && TrimSpace(old(consul.state).instances[id].meta.agentId) == agentId
                && TrimSpace(old(consul.state).instances[id].meta.agentRunId) != agentRunId
      ensures ok ==> forall id :: id in old(consul.state).instances && id !in removed ==>
                || TrimSpace(old(consul.state).instances[id].meta.agentId) != agentId
                || TrimSpace(old(consul.state).instances[id].meta.agentRunId) == agentRunId
      ensures !ok ==> || !catalogUp || SomeQueryFails(old(consul.state), queryUp)
                      || SomeRemovalFails(Stale(old(consul.state), agentId, agentRunId), removeUp)
    {
      removed := {};
      assert consul.state == consul.state.RemoveAll({});
      if !catalogUp {
        return false, removed;
      }
      var names := set id | id in consul.state.instances :: consul.state.instances[id].name;
      while names != {}
        invariant removed <= Stale(old(consul.state), agentId, agentRunId)
        invariant consul.state == old(consul.state).RemoveAll(removed)
        invariant forall id :: id in Stale(old(consul.state), agentId, agentRunId) ==>
                    id in removed || old(consul.state).instances[id].name in names
        decreases names
      {
        var name :| name in names;
        names := names - {name};
        if !queryUp(name) {
          return false, removed;
        }
        var entries := set id | id in consul.state.instances && consul.state.instances[id].name == name;
        while entries != {}
          invariant entries <= consul.state.instances.Keys
          invariant removed <= Stale(old(consul.state), agentId, agentRunId)
          invariant consul.state == old(consul.state).RemoveAll(removed)
          invariant forall id :: id in Stale(old(consul.state), agentId, agentRunId) ==>
                      id in removed || id in entries || old(consul.state).instances[id].name in names
          decreases entries
        {
          var id :| id in entries;
          entries := entries - {id};
          var meta := consul.state.instances[id].meta;
          if TrimSpace(meta.agentId) != agentId {
            continue;
          }
          if TrimSpace(meta.agentRunId) == agentRunId {
            continue;
          }
          var gone := consul.ServiceDeregister(id, removeUp(id));
          if !gone {
            return false, removed;
          }
          RemoveAllAccumulates(old(consul.state), removed, id);
          removed := removed + {id};
        }
      }
      ok := true;
    }

    /** The known services, ordered by name and then port. */
    method LocalServices() returns (result: seq<LocalService>)
      ensures IsServiceList(localServices, result)
      ensures forall i, j :: 0 <= i < j < |result| ==>
                var a, b := result[i].request, result[j].request;
                Less(a.name, b.name) || (a.name == b.name && a.port <= b.port)
    {
      result := [];
      ghost var keys: seq<string> := [];
      var left := localServices.Keys;
      while left != {}
        invariant left <= localServices.Keys
        invariant forall key :: key in keys <==> key in localServices && key !in left
        invariant forall i, j :: 0 <= i < j < |keys| ==> keys[i] != keys[j]
        invariant result == Lookup(localServices, keys)
        decreases left
      {
        var key :| key in left;
        assert forall i :: 0 <= i < |keys| ==> keys[i] in keys && keys[i] != key;
        left := left - {key};
        result := result + [localServices[key]];
        keys := keys + [key];
      }
      ListedAll(localServices, keys);
      NamePortIsOrder();
      result := SortFunc(result, NamePortOrder);
    }

    /** Reads the visible instances out of Consul: every name of the catalog, every
        entry of every name, in whatever order they come. */
    method Discover(passing: set<string>, nodes: map<string, string>, catalogUp: bool, queryUp: string -> bool)
      returns (result: Result<seq<ServiceInstance>>)
      ensures result.Ok? ==> View(consul.state, passing, nodes, settings.env).IsDiscovery(result.value)
      ensures result.Ok? ==> TextsAscend(result.value)
      ensures result.Err? ==> result.error == CallFailed
      ensures result.Err? ==> !catalogUp || SomeQueryFails(consul.state, queryUp)
    {
      hide View.Instances, InstanceFrom, TrimSpace, View.Found, SortKey, TextsAscend, ReadsAs, Usable;
      if !catalogUp {
        return Err(CallFailed);
      }
      ghost var view := View(consul.state, passing, nodes, settings.env);
      ghost var ids: seq<string> := [];
      NoInstances(view);
      var instances: seq<ServiceInstance> := [];
      var names := set id | id in consul.state.instances :: consul.state.instances[id].name;
      while names != {}
        invariant forall id :: id in consul.state.instances ==>
                    (id in ids <==> id in passing && consul.state.instances[id].name !in names)
        invariant forall id :: id in ids ==> id in consul.state.instances
        invariant forall i, j :: 0 <= i < j < |ids| ==> ids[i] != ids[j]
        invariant instances == view.Instances(ids)
        decreases names
      {
        var name :| name in names;
        if !queryUp(name) {
          return Err(CallFailed);
        }
        var entries := set id | id in consul.state.instances && id in passing
                                && consul.state.instances[id].name == name;
        ghost var before := ids;
        while entries != {}
          invariant entries <= consul.state.instances.Keys
          invariant forall id :: id in entries ==> id in passing && consul.state.instances[id].name == name
          invariant forall id :: id in consul.state.instances ==>
                      (id in ids <==> (id in before
                        || (id in passing && consul.state.instances[id].name == name && id !in entries)))
          invariant forall id :: id in ids ==> id in consul.state.instances
          invariant forall i, j :: 0 <= i < j < |ids| ==> ids[i] != ids[j]
          invariant instances == view.Instances(ids)
          decreases entries
        {
          var id :| id in entries;
          assert id !in ids;
          assert forall i :: 0 <= i < |ids| ==> ids[i] in ids;
          entries := entries - {id};
          var node := if id in nodes then Some(nodes[id]) else None;
          var entry := Some(ServiceEntry(Some(consul.state.instances[id]), node));
          var instance := ServiceInstanceFromEntry(entry);
          InstancesSnoc(view, ids, id);
          ids := ids + [id];
          if instance.None? {
            continue;
          }
          if TrimSpace(instance.value.env) != TrimSpace(settings.env) {
            continue;
          }
          instances := instances + [instance.value];
        }
        names := names - {name};
      }
      DiscoveredAll(view, ids);
      ByKeyIsOrder(SortKey);
      instances := SortFunc(instances, ByKey(SortKey));
      AscendsAsText(instances);
      return Ok(instances);
    }
  }

  /** The list holds every service that is not deregistered, and no others. */
  ghost predicate AreActive(locals: Locals, services: seq<LocalService>) {
    forall s :: s in services <==> exists key :: key in locals && locals[key] == s && s.state != Deregistered
  }

  lemma ActiveAreListed(locals: Locals, order: seq<string>)
    requires ActiveOrder(locals, order)
    ensures AreActive(locals, Lookup(locals, order))
  {
    var services := Lookup(locals, order);
    forall s
      ensures s in services <==> exists key :: key in locals && locals[key] == s && s.state != Deregistered
    {
      if s in services {
        var i :| 0 <= i < |services| && services[i] == s;
        assert order[i] in order;
      }
      if key :| key in locals && locals[key] == s && s.state != Deregistered {
        assert key in order;
        var i :| 0 <= i < |order| && order[i] == key;
        assert services[i] == s;
      }
    }
  }

  /** The query for a name of the catalog fails. */
  predicate SomeQueryFails(store: Store, queryUp: string -> bool) {
    exists id :: id in store.instances && !queryUp(store.instances[id].name)
  }

  predicate SomeRemovalFails(ids: set<string>, removeUp: string -> bool) {
    exists id :: id in ids && !removeUp(id)
  }

  /** Having gone through every passing instance once is having found them all. */
  lemma DiscoveredAll(v: View, ids: seq<string>)
    requires forall id :: id in ids <==> id in v.store.instances && id in v.passing
    requires forall i, j :: 0 <= i < j < |ids| ==> ids[i] != ids[j]
    ensures multiset(v.Instances(ids)) == multiset(v.Found())
  {
    hide View.Visible, View.Instances;
    var visible := OnlyVisible(v, ids);
    OnlyVisibleSuffices(v, ids);
    OnlyVisibleMembers(v, ids);
    var ascending := Ascending(v.VisibleIds());
    AscendingIsDistinct(v.VisibleIds());
    assert forall id :: id in visible <==> id in ascending by {
      VisibleIsPassing(v);
    }
    SameMembersSameMultiset(visible, ascending);
    InstancesRearrange(v, visible, ascending);
  }

  lemma VisibleIsPassing(v: View)
    ensures forall id :: v.Visible(id) ==> id in v.store.instances && id in v.passing
  {
  }

  ghost function OnlyVisible(v: View, ids: seq<string>): seq<string> {
    if ids == [] then []
    else OnlyVisible(v, ids[..|ids| - 1]) + (if v.Visible(ids[|ids| - 1]) then [ids[|ids| - 1]] else [])
  }

  lemma {:induction false} OnlyVisibleSuffices(v: View, ids: seq<string>)
    ensures v.Instances(OnlyVisible(v, ids)) == v.Instances(ids)
  {
    hide InstanceFrom, View.Visible, View.Instances;
    if ids == [] {
      assert OnlyVisible(v, ids) == ids;
    } else {
      var init, last := ids[..|ids| - 1], ids[|ids| - 1];
      OnlyVisibleSuffices(v, init);
      InstancesSnoc(v, OnlyVisible(v, init), last);
      InstancesSnoc(v, init, last);
      assert ids == init + [last];
      assert OnlyVisible(v, ids) == if v.Visible(last) then OnlyVisible(v, init) + [last] else OnlyVisible(v, init);
    }
  }

  lemma {:induction false} OnlyVisibleMembers(v: View, ids: seq<string>)
    requires forall i, j :: 0 <= i < j < |ids| ==> ids[i] != ids[j]
    ensures forall id :: id in OnlyVisible(v, ids) <==> id in ids && v.Visible(id)
    ensures forall i, j :: 0 <= i < j < |OnlyVisible(v, ids)| ==> OnlyVisible(v, ids)[i] != OnlyVisible(v, ids)[j]
  {
    hide View.Visible;
    if ids != [] {
      var init, last := ids[..|ids| - 1], ids[|ids| - 1];
      assert ids == init + [last];
      OnlyVisibleMembers(v, init);
      assert last !in init;
      assert forall i :: 0 <= i < |OnlyVisible(v, init)| ==> OnlyVisible(v, init)[i] in OnlyVisible(v, init);
    }
  }

  // ------------------------------------------------ the list of local services

  predicate NamePortOrder(a: LocalService, b: LocalService) {
    Less(a.request.name, b.request.name) || (a.request.name == b.request.name && a.request.port <= b.request.port)
  }

  lemma NamePortIsOrder()
    ensures IsOrder(NamePortOrder)
  {
    forall a, b
      ensures NamePortOrder(a, b) || NamePortOrder(b, a)
    {
      LessIsTotal(a.request.name, b.request.name);
    }
    forall a, b, c | NamePortOrder(a, b) && NamePortOrder(b, c)
      ensures NamePortOrder(a, c)
    {
      if Less(a.request.name, b.request.name) && Less(b.request.name, c.request.name) {
        LessIsTransitive(a.request.name, b.request.name, c.request.name);
      }
    }
  }

  /** The services of a table, ordered by name and port. */
  ghost predicate IsServiceList(locals: Locals, result: seq<LocalService>) {
    SortedBy(result, NamePortOrder) && multiset(result) == multiset(Lookup(locals, Ascending(locals.Keys)))
  }

  /** Whatever order the table yields its services in, the sorted list is the same:
      no two entries of a table share name and port. */
  lemma ServiceListIsUnique(locals: Locals, a: seq<LocalService>, b: seq<LocalService>)
    requires WellKeyed(locals)
    requires IsServiceList(locals, a) && IsServiceList(locals, b)
    ensures a == b
  {
    NamePortIsOrder();
    forall i, j | 0 <= i < |a| && 0 <= j < |a| && NamePortOrder(a[i], a[j]) && NamePortOrder(a[j], a[i])
      ensures a[i] == a[j]
    {
      LessIsTotal(a[i].request.name, a[j].request.name);
      assert KeyOfService(a[i]) == KeyOfService(a[j]);
      ListedUnderItsKey(locals, a, i);
      ListedUnderItsKey(locals, a, j);
    }
    SortedArrangementIsUnique(a, b, NamePortOrder);
  }

  lemma ListedUnderItsKey(locals: Locals, list: seq<LocalService>, i: nat)
    requires WellKeyed(locals) && IsServiceList(locals, list) && i < |list|
    ensures KeyOfService(list[i]) in locals && locals[KeyOfService(list[i])] == list[i]
  {
    hide KeyOfService;
    var ascending := Ascending(locals.Keys);
    var all := Lookup(locals, ascending);
    assert list[i] in multiset(all);
    var p :| 0 <= p < |all| && all[p] == list[i];
    assert ascending[p] in ascending;
  }

  /** Going through the table in any order lists its services. */
  lemma ListedAll(locals: Locals, keys: seq<string>)
    requires forall key :: key in keys <==> key in locals
    requires forall i, j :: 0 <= i < j < |keys| ==> keys[i] != keys[j]
    ensures multiset(Lookup(locals, keys)) == multiset(Lookup(locals, Ascending(locals.Keys)))
  {
    var ascending := Ascending(locals.Keys);
    AscendingIsDistinct(locals.Keys);
    SameMembersSameMultiset(keys, ascending);
    LookupRearranges(locals, keys, ascending);
  }

  lemma LookupTakesOut(locals: Locals, ys: seq<string>, k: nat)
    requires k < |ys| && forall key :: key in ys ==> key in locals
    ensures ys[k] in locals && forall key :: key in Without(ys, k) ==> key in locals
    ensures multiset(Lookup(locals, ys)) == multiset{locals[ys[k]]} + multiset(Lookup(locals, Without(ys, k)))
  {
    assert ys[k] in ys;
    var b := Lookup(locals, ys);
    assert b == b[..k] + [b[k]] + b[k + 1..];
    assert Lookup(locals, Without(ys, k)) == b[..k] + b[k + 1..];
  }

  lemma {:induction false} LookupRearranges(locals: Locals, xs: seq<string>, ys: seq<string>)
    requires multiset(xs) == multiset(ys)
    requires (forall key :: key in xs ==> key in locals) && (forall key :: key in ys ==> key in locals)
    ensures multiset(Lookup(locals, xs)) == multiset(Lookup(locals, ys))
  {
    if xs == [] {
      RearrangesEmpty(ys);
    } else {
      var k := FindHead(xs, ys);
      LookupTakesOut(locals, ys, k);
      LookupTakesOut(locals, xs, 0);
      assert Without(xs, 0) == xs[1..];
      LookupRearranges(locals, xs[1..], Without(ys, k));
    }
  }

  lemma RemoveAllAccumulates(store: Store, ids: set<string>, id: string)
    ensures store.RemoveAll(ids).Remove(id) == store.RemoveAll(ids + {id})
  {
    assert (store.instances - ids) - {id} == store.instances - (ids + {id});
    assert (store.leased - ids) - {id} == store.leased - (ids + {id});
    assert (store.maintenance - ids) - {id} == store.maintenance - (ids + {id});
  }
}
