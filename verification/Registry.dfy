/** The registry client: what each operation does to the agent's own table and
    to Consul, first as functions of both, then as the methods that do it. */
module Registry {
  import opened Text
  import opened Model
  import opened Consul

  datatype Settings = Settings(
    routeKvPrefix: string, clusterName: string, zone: string, hostIp: string, env: string)

  type Locals = map<string, LocalService>

  // ----------------------------------------------------------------- names

  function LocalKey(name: string, port: int): string {
    TrimSpace(name) + ":" + Decimal(port)
  }

  function KeyOfService(service: LocalService): string {
    LocalKey(service.request.name, service.request.port)
  }

  function TrimSlashes(s: string): string {
    if s != "" && s[0] == '/' then TrimSlashes(s[1..])
    else if s != "" && s[|s| - 1] == '/' then TrimSlashes(s[..|s| - 1])
    else s
  }

  function RouteConfigRef(kvPrefix: string, env: string, namespace: string, service: string): string {
    TrimSlashes(TrimSpace(kvPrefix)) + "/" + TrimSpace(env) + "/" + TrimSpace(namespace) + "/"
    + TrimSpace(service) + "/current"
  }

  function RefOf(settings: Settings, request: RegisterRequest): string {
    RouteConfigRef(settings.routeKvPrefix, request.env, request.namespace, request.name)
  }

  function BuildAgentId(settings: Settings): string {
    TrimSpace(settings.clusterName) + ":" + TrimSpace(settings.zone) + ":" + TrimSpace(settings.hostIp)
  }

  function LeaseCheckIdFor(instanceId: string): string {
    "service:" + TrimSpace(instanceId) + ":agent-lease"
  }

  function Join(parts: seq<string>, sep: string): string {
    if parts == [] then ""
    else if |parts| == 1 then parts[0]
    else parts[0] + sep + Join(parts[1..], sep)
  }

  function RegistrationFor(settings: Settings, service: LocalService): Registration {
    Registration(
      service.instanceId, service.request.name, service.address, service.request.port,
      ["cluster=" + TrimSpace(settings.clusterName)],
      Meta(service.request.appId, service.request.appName, service.agentId, service.agentRunId, service.address,
           service.request.namespace, service.request.dns, service.request.env, service.zone,
           Decimal(service.request.weight), Join(service.routePrefixes, ","), service.request.version,
           service.request.protocol, service.request.kernelLanguage, service.request.kernelVersion,
           service.routeConfigRef, service.instanceId),
      service.leaseCheckId)
  }

  /** Trimming slashes takes them away on both sides and nothing else. */
  lemma {:induction false} TrimSlashesDropsSlashes(s: string) returns (before: string, after: string)
    ensures s == before + TrimSlashes(s) + after
    ensures forall c :: c in before || c in after ==> c == '/'
    ensures TrimSlashes(s) != "" ==> TrimSlashes(s)[0] != '/' && TrimSlashes(s)[|TrimSlashes(s)| - 1] != '/'
  {
    before, after := "", "";
    if s != "" && s[0] == '/' {
      before, after := TrimSlashesDropsSlashes(s[1..]);
      before := "/" + before;
    } else if s != "" && s[|s| - 1] == '/' {
      before, after := TrimSlashesDropsSlashes(s[..|s| - 1]);
      after := after + "/";
    }
  }

  /** Distinct (trimmed name, port) pairs have distinct keys. */
  lemma LocalKeyIsInjective(name: string, port: int, name': string, port': int)
    ensures LocalKey(name, port) == LocalKey(name', port') <==> TrimSpace(name) == TrimSpace(name') && port == port'
  {
    if LocalKey(name, port) == LocalKey(name', port') {
      SplitAtLast(TrimSpace(name), Decimal(port), TrimSpace(name'), Decimal(port'), ':');
      DecimalIsInjective(port, port');
    }
  }

  /** A replayed request names the same local entry and the same route document. */
  lemma ReplaySoundness(settings: Settings, a: RegisterRequest, b: RegisterRequest, s: int, t: int)
    requires SameRequest(a, b)
    ensures LocalKey(a.name, a.port) == LocalKey(b.name, b.port)
    ensures RefOf(settings, a) == RefOf(settings, b)
    ensures DocumentFor(a, s).Meaning() == DocumentFor(b, t).Meaning()
  {
    SameRouteMeaning(a, b, s, t);
  }

  // ------------------------------------------------ operations as functions

  datatype Outcome = Outcome(locals: Locals, store: Store, result: Result<LocalService>)

  function Stored(locals: Locals, service: LocalService): Locals {
    locals[KeyOfService(service) := service]
  }

  /** Which of the calls made by one Register go through, and what the clock and
      the ID generator answer. */
  datatype RegisterCalls = RegisterCalls(
    deregister: bool, kvGet: bool, kvPut: bool, instanceId: Option<string>, register: bool, lease: bool,
    documentAt: int, registeredAt: int, updatedAt: int)

  ghost predicate RouteAllows(kv: map<string, RouteDocument>, key: string, document: RouteDocument) {
    key in kv ==> kv[key].Meaning() == document.Meaning()
  }

  ghost function EnsureRouteDocument(store: Store, key: string, document: RouteDocument, get: bool, put: bool):
    Result<Store>
  {
    if !get then Err(CallFailed)
    else if !RouteAllows(store.kv, key, document) then Err(RouteConflict)
    else if !put then Err(CallFailed)
    else Ok(store.PutRoute(key, document.Canonicalized()))
  }

  /** The service a Register call creates, before Consul knows about it. */
  ghost function NewService(
    settings: Settings, runId: string, request: RegisterRequest, instanceId: string, now: int): LocalService
  {
    LocalService(request, instanceId, BuildAgentId(settings), runId, TrimSpace(settings.hostIp),
                 TrimSpace(settings.zone), RoutePrefixes(request.methods), RefOf(settings, request),
                 LeaseCheckIdFor(instanceId), Registered, now, now, None)
  }

  predicate Active(locals: Locals, key: string) {
    key in locals && locals[key].state != Deregistered
  }

  ghost function RegisterOutcome(
    settings: Settings, runId: string, locals: Locals, store: Store, request: RegisterRequest,
    calls: RegisterCalls): Outcome
  {
    var key := LocalKey(request.name, request.port);
    if !request.Valid() then
      Outcome(locals, store, Err(InvalidRequest))
    else if !Active(locals, key) then
      RegisterAnew(settings, runId, locals, store, request, calls)
    else if SameRequest(locals[key].request, request) then
      Replay(locals, store, locals[key], calls.lease, calls.updatedAt)
    else if !calls.deregister then
      Outcome(locals, store, Err(CallFailed))
    else
      RegisterAnew(settings, runId,
                   Stored(locals, locals[key].(state := Deregistered, updatedAt := calls.updatedAt)),
                   store.Remove(locals[key].instanceId), request, calls)
  }

  function Replay(locals: Locals, store: Store, existing: LocalService, up: bool, updatedAt: int): Outcome {
    if !(up && store.Holders(existing.leaseCheckId) != {}) then
      Outcome(locals, store, Err(CallFailed))
    else
      var touched := existing.(updatedAt := updatedAt);
      Outcome(Stored(locals, touched), store.Lease(existing.leaseCheckId), Ok(touched))
  }

  /** Register once no active entry is in the way. */
  ghost function RegisterAnew(
    settings: Settings, runId: string, locals: Locals, store: Store, request: RegisterRequest,
    calls: RegisterCalls): Outcome
  {
    var document := DocumentFor(request, calls.documentAt);
    var routed := EnsureRouteDocument(store, RefOf(settings, request), document, calls.kvGet, calls.kvPut);
    if routed.Err? then
      Outcome(locals, store, Err(routed.error))
    else if calls.instanceId.None? || !calls.register then
      Outcome(locals, routed.value, Err(CallFailed))
    else
      var service := NewService(settings, runId, request, calls.instanceId.value, calls.registeredAt);
      var added := routed.value.Add(RegistrationFor(settings, service));
      if !(calls.lease && added.Holders(service.leaseCheckId) != {}) then
        Outcome(locals, added, Err(CallFailed))
      else
        var serving := service.(state := Serving, updatedAt := calls.updatedAt);
        Outcome(Stored(locals, serving), added.Lease(service.leaseCheckId), Ok(serving))
  }

  function DrainOutcome(
    locals: Locals, store: Store, request: DrainRequest, up: bool, startedAt: int, updatedAt: int): Outcome
  {
    var key := LocalKey(request.name, request.port);
    if !request.Valid() then
      Outcome(locals, store, Err(InvalidRequest))
    else if key !in locals then
      Outcome(locals, store, Err(NotFound))
    else if !(up && locals[key].instanceId in store.instances) then
      Outcome(locals, store, Err(CallFailed))
    else
      var drained := locals[key].(state := Draining, updatedAt := updatedAt,
                                  drainDeadline := Some(startedAt + request.GracePeriod().value));
      Outcome(locals[key := drained], store.Maintain(drained.instanceId), Ok(drained))
  }

  function DeregisterOutcome(
    locals: Locals, store: Store, request: DeregisterRequest, up: bool, updatedAt: int): Outcome
  {
    var key := LocalKey(request.name, request.port);
    if !request.Valid() then
      Outcome(locals, store, Err(InvalidRequest))
    else if key !in locals then
      Outcome(locals, store, Err(NotFound))
    else if !up then
      Outcome(locals, store, Err(CallFailed))
    else
      var gone := locals[key].(state := Deregistered, updatedAt := updatedAt, drainDeadline := None);
      Outcome(locals[key := gone], store.Remove(gone.instanceId), Ok(gone))
  }

  // ------------------------------------------------------- loops over services

  /** Every entry sits under the key of its own request. */
  predicate WellKeyed(locals: Locals) {
    forall key :: key in locals ==> key == KeyOfService(locals[key])
  }

  /** An order in which the keys of the active entries may come out of the table. */
  ghost predicate ActiveOrder(locals: Locals, order: seq<string>) {
    && (forall key :: key in order <==> Active(locals, key))
    && (forall i, j :: 0 <= i < j < |order| ==> order[i] != order[j])
  }

  /** The table after the first `n` services of a shutdown were removed. */
  function ShutdownLocals(locals: Locals, order: seq<string>, clock: nat -> int, n: nat): Locals
    requires n <= |order| && forall key :: key in order ==> key in locals
  {
    if n == 0 then locals
    else Stored(ShutdownLocals(locals, order, clock, n - 1),
                locals[order[n - 1]].(state := Deregistered, updatedAt := clock(n - 1)))
  }

  function ShutdownStore(locals: Locals, store: Store, order: seq<string>, n: nat): Store
    requires n <= |order| && forall key :: key in order ==> key in locals
  {
    if n == 0 then store
    else ShutdownStore(locals, store, order, n - 1).Remove(locals[order[n - 1]].instanceId)
  }

  /** A shutdown has got through the first `n` services. */
  predicate ShutDown(
    locals: Locals, store: Store, order: seq<string>, clock: nat -> int, n: nat, locals': Locals, store': Store)
  {
    && n <= |order| && (forall key :: key in order ==> key in locals)
    && locals' == ShutdownLocals(locals, order, clock, n) && store' == ShutdownStore(locals, store, order, n)
  }

  lemma NothingShutDown(locals: Locals, store: Store, order: seq<string>, clock: nat -> int)
    requires forall key :: key in order ==> key in locals
    ensures ShutDown(locals, store, order, clock, 0, locals, store)
  {
  }

  lemma ShutDownIs(
    locals: Locals, store: Store, order: seq<string>, clock: nat -> int, n: nat, locals': Locals, store': Store)
    requires ShutDown(locals, store, order, clock, n, locals', store')
    ensures n <= |order| && forall key :: key in order ==> key in locals
    ensures locals' == ShutdownLocals(locals, order, clock, n) && store' == ShutdownStore(locals, store, order, n)
  {
  }

  lemma NextToShutDown(
    locals: Locals, store: Store, order: seq<string>, clock: nat -> int, n: nat, locals': Locals, store': Store)
    requires ShutDown(locals, store, order, clock, n, locals', store') && n < |order|
    ensures forall key :: key in order ==> key in locals
    ensures order[n] in order && Lookup(locals, order)[n] == locals[order[n]]
    ensures var gone := locals[order[n]].(state := Deregistered, updatedAt := clock(n));
            ShutDown(locals, store, order, clock, n + 1,
                     locals'[LocalKey(gone.request.name, gone.request.port) := gone],
                     store'.(instances := store'.instances - {gone.instanceId},
                             leased := store'.leased - {gone.instanceId},
                             maintenance := store'.maintenance - {gone.instanceId}))
  {
  }

  /** One refresh of a lease tick: a failure, or a check Consul no longer knows,
      changes nothing. */
  function Refreshed(store: Store, checkId: string, up: bool): Store {
    if up && store.Holders(checkId) != {} then store.Lease(checkId) else store
  }

  /** Consul after the first `n` refreshes of a lease tick. */
  function RefreshedStore(store: Store, services: seq<LocalService>, up: nat -> bool, n: nat): Store
    requires n <= |services|
  {
    if n == 0 then store
    else Refreshed(RefreshedStore(store, services, up, n - 1), services[n - 1].leaseCheckId, up(n - 1))
  }

  /** Consul has an instance with this lease check. */
  predicate Known(store: Store, checkId: string) {
    exists id :: id in store.instances && store.instances[id].leaseCheckId == checkId
  }

  lemma KnownHasHolders(store: Store, checkId: string)
    ensures Known(store, checkId) <==> store.Holders(checkId) != {}
  {
    if Known(store, checkId) {
      var id :| id in store.instances && store.instances[id].leaseCheckId == checkId;
      assert id in store.Holders(checkId);
    }
    if store.Holders(checkId) != {} {
      var id :| id in store.Holders(checkId);
    }
  }

  /** What a lease tick does to Consul: of every service whose call goes through, the
      check, if Consul knows it, is passed and the instances that carry it are leased;
      a check that no other service shares is passed once; and nothing else changes. */
  ghost predicate Ticked(before: Store, services: seq<LocalService>, up: nat -> bool, after: Store) {
    && after == before.(leased := after.leased, passes := after.passes)
    && (forall id :: id in after.leased <==>
          || id in before.leased
          || exists i :: 0 <= i < |services| && up(i) && id in before.instances
                         && before.instances[id].leaseCheckId == services[i].leaseCheckId)
    && (forall check :: (forall i :: 0 <= i < |services| ==> services[i].leaseCheckId != check) ==>
          after.passes[check] == before.passes[check])
    && (forall i :: 0 <= i < |services| && IsOnly(services, i) ==>
          PassedOnce(before, after, services[i].leaseCheckId, up(i)))
  }

  /** The check is passed once, if the call goes through and Consul knows the check. */
  predicate PassedOnce(before: Store, after: Store, checkId: string, up: bool) {
    after.passes[checkId] == before.passes[checkId] + (if up && Known(before, checkId) then 1 else 0)
  }

  /** No other service of the list has the lease check of the i-th. */
  predicate IsOnly(services: seq<LocalService>, i: nat)
    requires i < |services|
  {
    forall j :: 0 <= j < |services| && j != i ==> services[j].leaseCheckId != services[i].leaseCheckId
  }

  lemma {:induction false} RefreshedStoreIsTicked(store: Store, services: seq<LocalService>, up: nat -> bool, n: nat)
    requires n <= |services|
    ensures Ticked(store, services[..n], up, RefreshedStore(store, services, up, n))
  {
    hide Ticked, Refreshed;
    if n == 0 {
      NothingTicked(store, up);
      assert services[..0] == [];
    } else {
      var before, last := RefreshedStore(store, services, up, n - 1), services[n - 1];
      RefreshedStoreIsTicked(store, services, up, n - 1);
      OneMoreRefresh(store, services[..n - 1], last, up, before);
      assert services[..n] == services[..n - 1] + [last];
    }
  }

  lemma NothingTicked(store: Store, up: nat -> bool)
    ensures Ticked(store, [], up, store)
  {
  }

  lemma OneMoreRefresh(store: Store, services: seq<LocalService>, last: LocalService, up: nat -> bool, before: Store)
    requires Ticked(store, services, up, before)
    ensures Ticked(store, services + [last], up, Refreshed(before, last.leaseCheckId, up(|services|)))
  {
    OneMoreLeased(store, services, last, up, before);
    OneMorePassed(store, services, last, up, before);
    hide Known, PassedOnce, IsOnly;
  }

  lemma OneMoreLeased(store: Store, services: seq<LocalService>, last: LocalService, up: nat -> bool, before: Store)
    requires Ticked(store, services, up, before)
    ensures var all, after := services + [last], Refreshed(before, last.leaseCheckId, up(|services|));
            forall id :: id in after.leased <==>
              || id in store.leased
              || exists i :: 0 <= i < |all| && up(i) && id in store.instances
                             && store.instances[id].leaseCheckId == all[i].leaseCheckId
  {
    hide Known, PassedOnce, IsOnly;
    var all, n := services + [last], |services|;
    var after := Refreshed(before, last.leaseCheckId, up(n));
    forall id
      ensures id in after.leased <==>
                || id in store.leased
                || exists i :: 0 <= i < |all| && up(i) && id in store.instances
                               && store.instances[id].leaseCheckId == all[i].leaseCheckId
    {
      if id in before.leased && id !in store.leased {
        var i :| 0 <= i < n && up(i) && id in store.instances
                 && store.instances[id].leaseCheckId == services[i].leaseCheckId;
        assert all[i] == services[i];
      }
      if id in after.leased && id !in before.leased {
        assert all[n] == last;
      }
      if i :| 0 <= i < |all| && up(i) && id in store.instances
              && store.instances[id].leaseCheckId == all[i].leaseCheckId {
        if i < n {
          assert services[i] == all[i] && id in before.leased;
        } else {
          assert id in before.Holders(last.leaseCheckId);
        }
      }
    }
  }

  lemma OneMorePassed(store: Store, services: seq<LocalService>, last: LocalService, up: nat -> bool, before: Store)
    requires Ticked(store, services, up, before)
    ensures var all, after := services + [last], Refreshed(before, last.leaseCheckId, up(|services|));
            && (forall check :: (forall i :: 0 <= i < |all| ==> all[i].leaseCheckId != check) ==>
                  after.passes[check] == store.passes[check])
            && (forall i :: 0 <= i < |all| && IsOnly(all, i) ==> PassedOnce(store, after, all[i].leaseCheckId, up(i)))
  {
    var all, n := services + [last], |services|;
    var after := Refreshed(before, last.leaseCheckId, up(n));
    KnownHasHolders(before, last.leaseCheckId);
    assert forall check :: Known(before, check) <==> Known(store, check);
    forall check | forall i :: 0 <= i < |all| ==> all[i].leaseCheckId != check
      ensures after.passes[check] == store.passes[check]
    {
      assert all[n] == last;
      assert forall i :: 0 <= i < n ==> services[i] == all[i];
    }
    forall i | 0 <= i < |all| && IsOnly(all, i)
      ensures PassedOnce(store, after, all[i].leaseCheckId, up(i))
    {
      assert all[n] == last;
      assert forall j :: 0 <= j < n ==> services[j] == all[j];
      if i < n {
        assert IsOnly(services, i);
      } else {
        assert forall j :: 0 <= j < n ==> services[j].leaseCheckId != last.leaseCheckId;
      }
    }
  }

  /** The services found under a list of keys. */
  function Lookup(locals: Locals, order: seq<string>): (services: seq<LocalService>)
    requires forall key :: key in order ==> key in locals
    ensures |services| == |order|
  {
    seq(|order|, i requires 0 <= i < |order| => assert order[i] in order; locals[order[i]])
  }

  /** The instances an agent's restart cleanup is after: registered under its
      agent ID by another run. */
  function Stale(store: Store, agentId: string, runId: string): set<string> {
    set id | id in store.instances && IsStale(store.instances[id], agentId, runId)
  }

  predicate IsStale(registration: Registration, agentId: string, runId: string) {
    TrimSpace(registration.meta.agentId) == agentId && TrimSpace(registration.meta.agentRunId) != runId
  }
}
