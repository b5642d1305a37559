/** What each registry operation leaves behind, in terms of requests, entries, instances
    and documents alone: the partner of the functions the methods are proved against. */
module Effects {
  import opened Text
  import opened Model
  import opened Consul
  import opened Registry
  import opened Fleet
  import opened FleetRuns
  import opened Guarantees

  // ------------------------------------------------------ drain, deregister

  /** Deregister succeeds exactly when name and port are valid, the service is known and
      the call goes through. Then the entry is deregistered without a deadline, its
      instance is gone from Consul with its marks, and every other entry, instance and
      agent is as it was. Otherwise nothing has changed. */
  lemma DeregisterDoes(w: World, run: string, request: DeregisterRequest, up: bool, updatedAt: int)
    requires Ready(w, run)
    ensures var w', key := Step(w, DeregisterCall(run, request, up, updatedAt)), LocalKey(request.name, request.port);
            var agent := w.agents[run];
            if TrimSpace(request.name) != "" && 1 <= request.port <= 65535 && key in agent.locals && up then
              var entry, id := agent.locals[key], agent.locals[key].instanceId;
              var gone := entry.(state := Deregistered, updatedAt := updatedAt, drainDeadline := None);
              && w'.agents == w.agents[run := agent.(locals := agent.locals[key := gone])]
              && w'.store == w.store.(instances := w.store.instances - {id}, leased := w.store.leased - {id},
                                      maintenance := w.store.maintenance - {id})
              && w'.history == w.history
            else w' == w
  {
    hide LocalKey, TrimSpace;
    SameAgent(w, run);
  }

  lemma SameAgent(w: World, run: string)
    requires run in w.agents
    ensures w.agents[run := w.agents[run]] == w.agents
  {
  }

  /** Drain succeeds exactly when name, port and grace period are valid, the service is
      known, the call goes through and Consul has the instance. Then the entry drains until
      its grace period is over, 20 seconds if none was given, its instance is in
      maintenance, and nothing else has changed. Otherwise nothing has. */
  lemma DrainDoes(w: World, run: string, request: DrainRequest, up: bool, startedAt: int, updatedAt: int)
    requires Ready(w, run)
    ensures var w' := Step(w, DrainCall(run, request, up, startedAt, updatedAt));
            var agent, key, raw := w.agents[run], LocalKey(request.name, request.port), request.gracePeriodRaw;
            if && TrimSpace(request.name) != "" && 1 <= request.port <= 65535
               && (raw.Blank? || (raw.Duration? && raw.nanos > 0))
               && key in agent.locals && up && agent.locals[key].instanceId in w.store.instances
            then
              var deadline := startedAt + (if raw.Blank? then 20_000_000_000 else raw.nanos);
              var drained := agent.locals[key].(state := Draining, updatedAt := updatedAt,
                                                drainDeadline := Some(deadline));
              && w'.agents == w.agents[run := agent.(locals := agent.locals[key := drained])]
              && w'.store == w.store.(maintenance := w.store.maintenance + {drained.instanceId})
              && w'.history == w.history
            else w' == w
  {
    hide LocalKey, TrimSpace;
    SameAgent(w, run);
  }

  /** Cleaning up and reaping take the given instances with their marks, and nothing
      else. */
  lemma RemovalsDo(w: World, e: Event)
    requires Enabled(w, e) && (e.CleanupCall? || e.Reap?)
    ensures var w', ids := Step(w, e), if e.Reap? then {e.id} else e.removed;
            && w' == w.(store := w'.store)
            && w'.store == w.store.(instances := w.store.instances - ids, leased := w.store.leased - ids,
                                    maintenance := w.store.maintenance - ids)
  {
  }

  // --------------------------------------------------------------- register

  /** A request is refused exactly when a required text is blank, port or weight is out
      of range, or a method is missing or no path; a refused request changes nothing. */
  lemma RegisterRefusesExactlyWhen(
    settings: Settings, run: string, locals: Locals, store: Store, request: RegisterRequest, calls: RegisterCalls)
    ensures var outcome, blank := RegisterOutcome(settings, run, locals, store, request, calls),
                                  (s: string) => TrimSpace(s) == "";
            && (outcome.result == Err(InvalidRequest) <==>
                  || blank(request.appId) || blank(request.appName) || blank(request.name)
                  || blank(request.namespace) || blank(request.dns) || blank(request.env)
                  || blank(request.protocol) || blank(request.version)
                  || blank(request.kernelLanguage) || blank(request.kernelVersion)
                  || request.port < 1 || request.port > 65535 || request.weight < 1 || |request.methods| == 0
                  || exists m :: m in request.methods && (blank(m) || TrimSpace(m)[0] != '/'))
            && (outcome.result == Err(InvalidRequest) ==> outcome.locals == locals && outcome.store == store)
  {
    hide TrimSpace, LocalKey, SameRequest, NewService, RegistrationFor, RouteConfigRef, DocumentFor, RouteAllows;
    RequiredFieldsAre(request);
  }

  lemma RequiredFieldsAre(request: RegisterRequest)
    ensures (forall field :: field in request.RequiredFields() ==> TrimSpace(field) != "") <==>
              && TrimSpace(request.appId) != "" && TrimSpace(request.appName) != "" && TrimSpace(request.name) != ""
              && TrimSpace(request.namespace) != "" && TrimSpace(request.dns) != "" && TrimSpace(request.env) != ""
              && TrimSpace(request.protocol) != "" && TrimSpace(request.version) != ""
              && TrimSpace(request.kernelLanguage) != "" && TrimSpace(request.kernelVersion) != ""
  {
    hide TrimSpace;
    var fields := request.RequiredFields();
    assert fields[0] in fields && fields[1] in fields && fields[2] in fields && fields[3] in fields
        && fields[4] in fields && fields[5] in fields && fields[6] in fields && fields[7] in fields
        && fields[8] in fields && fields[9] in fields;
  }

  /** The reference of the route document of a service. */
  function RouteKey(settings: Settings, request: RegisterRequest): string {
    TrimSlashes(TrimSpace(settings.routeKvPrefix)) + "/" + TrimSpace(request.env) + "/" + TrimSpace(request.namespace)
    + "/" + TrimSpace(request.name) + "/current"
  }

  /** A newly registered service as the agent enters it: the texts of the settings
      trimmed, the prefixes those of the methods. */
  ghost predicate EntryShows(
    settings: Settings, run: string, request: RegisterRequest, calls: RegisterCalls, entry: LocalService)
  {
    && entry.request == request && Some(entry.instanceId) == calls.instanceId
    && entry.agentId == TrimSpace(settings.clusterName) + ":" + TrimSpace(settings.zone) + ":"
                        + TrimSpace(settings.hostIp)
    && entry.agentRunId == run
    && entry.address == TrimSpace(settings.hostIp) && entry.zone == TrimSpace(settings.zone)
    && ArePrefixesOf(entry.routePrefixes, request.methods)
    && entry.routeConfigRef == RouteKey(settings, request)
    && entry.leaseCheckId == "service:" + TrimSpace(entry.instanceId) + ":agent-lease"
    && entry.state == Serving
    && entry.registeredAt == calls.registeredAt && entry.updatedAt == calls.updatedAt && entry.drainDeadline == None
  }

  ghost predicate ArePrefixesOf(prefixes: seq<string>, methods: seq<string>) {
    && (forall i, j :: 0 <= i < j < |prefixes| ==> Less(prefixes[i], prefixes[j]))
    && (forall p :: p in prefixes <==> exists m :: m in methods && LeadsUpToLastSlash(p, m))
  }

  /** The same service as Consul gets it. */
  predicate RegistrationShows(settings: Settings, entry: LocalService, r: Registration) {
    && r.id == entry.instanceId && r.name == entry.request.name && r.address == entry.address
    && r.port == entry.request.port && r.leaseCheckId == entry.leaseCheckId
    && r.tags == ["cluster=" + TrimSpace(settings.clusterName)]
    && r.meta.appId == entry.request.appId && r.meta.appName == entry.request.appName
    && r.meta.agentId == entry.agentId && r.meta.agentRunId == entry.agentRunId
    && r.meta.agentHostIp == entry.address
    && r.meta.namespace == entry.request.namespace && r.meta.dns == entry.request.dns
    && r.meta.env == entry.request.env && r.meta.zone == entry.zone
    && r.meta.weight == Decimal(entry.request.weight) && r.meta.routePrefixes == Join(entry.routePrefixes, ",")
    && r.meta.version == entry.request.version && r.meta.protocol == entry.request.protocol
    && r.meta.kernelLanguage == entry.request.kernelLanguage && r.meta.kernelVersion == entry.request.kernelVersion
    && r.meta.routeConfigRef == entry.routeConfigRef && r.meta.instanceId == entry.instanceId
  }

  /** The route document stored for a request. */
  ghost predicate DocumentShows(request: RegisterRequest, writtenAt: int, d: RouteDocument) {
    && d.service == request.name && d.version == request.version && d.updatedAt == writtenAt
    && d.namespace == request.namespace && d.port == request.port && d.protocol == request.protocol
    && ArePrefixesOf(d.prefixes, request.methods)
    && (forall i, j :: 0 <= i < j < |d.exactPaths| ==> Less(d.exactPaths[i], d.exactPaths[j]))
    && (forall p :: p in d.exactPaths <==> p != "" && exists m :: m in request.methods && TrimSpace(m) == p)
  }

  /** A new registration that goes through enters the service into the table, registers it
      with Consul, leases it with one pass of its check, and stores its route document;
      nothing else changes. */
  lemma NewServiceLeaves(
    settings: Settings, run: string, locals: Locals, store: Store, request: RegisterRequest, calls: RegisterCalls)
    requires RegisterAnew(settings, run, locals, store, request, calls).result.Ok?
    ensures var outcome := RegisterAnew(settings, run, locals, store, request, calls);
            var entry, after := outcome.result.value, outcome.store;
            var id, route := entry.instanceId, RouteKey(settings, request);
            && EntryShows(settings, run, request, calls, entry)
            && outcome.locals == locals[LocalKey(request.name, request.port) := entry]
            && id in after.instances && RegistrationShows(settings, entry, after.instances[id])
            && route in after.kv && DocumentShows(request, calls.documentAt, after.kv[route])
            && id in after.leased
            && (forall x :: x in after.leased && x != id ==>
                  x in store.leased
                  || (x in store.instances && store.instances[x].leaseCheckId == entry.leaseCheckId))
            && store.leased <= after.leased
            && after == store.(instances := store.instances[id := after.instances[id]], leased := after.leased,
                               kv := store.kv[route := after.kv[route]],
                               passes := store.passes + multiset{entry.leaseCheckId})
  {
    hide RouteAllows, DocumentFor, NewService, RegistrationFor, LocalKey, RouteKey, RouteDocument.Canonicalized,
         EntryShows, RegistrationShows, DocumentShows, RouteConfigRef;
    AnewSucceedsExactlyWhen(settings, run, locals, store, request, calls);
    var service := NewService(settings, run, request, calls.instanceId.value, calls.registeredAt);
    NewEntryShows(settings, run, request, calls);
    NewRegistrationShows(settings, service, service.(state := Serving, updatedAt := calls.updatedAt));
    NewDocumentShows(request, calls.documentAt);
    assert RouteKey(settings, request) == RefOf(settings, request) by { KeysAgree(settings, request); }
  }

  lemma KeysAgree(settings: Settings, request: RegisterRequest)
    ensures RouteKey(settings, request) == RefOf(settings, request)
  {
  }

  lemma NewEntryShows(settings: Settings, run: string, request: RegisterRequest, calls: RegisterCalls)
    requires calls.instanceId.Some?
    ensures var service := NewService(settings, run, request, calls.instanceId.value, calls.registeredAt);
            && EntryShows(settings, run, request, calls, service.(state := Serving, updatedAt := calls.updatedAt))
            && service.request == request && service.instanceId == calls.instanceId.value
  {
    PrefixesSpelledOut(request.methods);
    hide RoutePrefixes, TrimSpace, TrimSlashes;
  }

  lemma NewRegistrationShows(settings: Settings, service: LocalService, entry: LocalService)
    requires entry == service.(state := Serving, updatedAt := entry.updatedAt)
    ensures RegistrationShows(settings, entry, RegistrationFor(settings, service))
    ensures RegistrationFor(settings, service).id == service.instanceId
    ensures RegistrationFor(settings, service).leaseCheckId == service.leaseCheckId
  {
    hide TrimSpace, Decimal, Join;
  }

  lemma NewDocumentShows(request: RegisterRequest, writtenAt: int)
    ensures DocumentShows(request, writtenAt, DocumentFor(request, writtenAt).Canonicalized())
  {
    DocumentIsCanonical(request, writtenAt);
    PrefixesSpelledOut(request.methods);
    hide RoutePrefixes, TrimSpace, RouteDocument.Canonicalized;
  }

  /** A new registration that fails leaves the table alone. A route document of another
      meaning is a conflict, and that or a failing call before the registration leaves
      Consul alone or with just the document; a lease that cannot be passed leaves an
      instance that was never leased and that no entry holds. */
  lemma FailedServiceLeaves(
    settings: Settings, run: string, locals: Locals, store: Store, request: RegisterRequest, calls: RegisterCalls)
    requires RegisterAnew(settings, run, locals, store, request, calls).result.Err?
    ensures var outcome, route := RegisterAnew(settings, run, locals, store, request, calls),
                                  RouteKey(settings, request);
            var after, document := outcome.store, DocumentFor(request, calls.documentAt);
            var conflict := route in store.kv && store.kv[route].Meaning() != document.Meaning();
            && outcome.locals == locals
            && outcome.result.error == (if calls.kvGet && conflict then RouteConflict else CallFailed)
            && (if !calls.kvGet || conflict || !calls.kvPut then after == store
                else
                  && route in after.kv && DocumentShows(request, calls.documentAt, after.kv[route])
                  && after == store.(instances := after.instances, kv := store.kv[route := after.kv[route]])
                  && if calls.instanceId.None? || !calls.register then after.instances == store.instances
                     else
                       var id := calls.instanceId.value;
                       && !calls.lease && id in after.instances
                       && after.instances == store.instances[id := after.instances[id]]
                       && after.instances[id].name == request.name && after.instances[id].port == request.port)
  {
    hide DocumentFor, NewService, LocalKey, RouteKey, RouteDocument.Canonicalized, DocumentShows, RouteConfigRef,
         RouteDocument.Meaning;
    AnewSucceedsExactlyWhen(settings, run, locals, store, request, calls);
    NewDocumentShows(request, calls.documentAt);
    KeysAgree(settings, request);
    if calls.instanceId.Some? {
      NewEntryShows(settings, run, request, calls);
    }
  }

  /** Registering a service again as it is passes its lease check once more and notes the
      time, if the call goes through and Consul knows the check; otherwise nothing
      changes. */
  lemma ReplayDoes(
    settings: Settings, run: string, locals: Locals, store: Store, request: RegisterRequest, calls: RegisterCalls)
    requires request.Valid() && Active(locals, LocalKey(request.name, request.port)) && WellKeyed(locals)
    requires var before := locals[LocalKey(request.name, request.port)].request;
             before.(methods := []) == request.(methods := []) && SameValues(before.methods, request.methods)
    ensures var outcome, key := RegisterOutcome(settings, run, locals, store, request, calls),
                                LocalKey(request.name, request.port);
            var check := locals[key].leaseCheckId;
            if calls.lease && Known(store, check) then
              && outcome.result == Ok(locals[key].(updatedAt := calls.updatedAt))
              && outcome.locals == locals[key := locals[key].(updatedAt := calls.updatedAt)]
              && outcome.store == store.(leased := outcome.store.leased, passes := store.passes + multiset{check})
              && (forall id :: id in outcome.store.leased <==>
                    id in store.leased || (id in store.instances && store.instances[id].leaseCheckId == check))
            else outcome == Outcome(locals, store, Err(CallFailed))
  {
    hide LocalKey;
    var key := LocalKey(request.name, request.port);
    ValuesDecide(locals[key].request.methods, request.methods);
    KnownHasHolders(store, locals[key].leaseCheckId);
    SameKey(locals[key].(updatedAt := calls.updatedAt), locals[key]);
  }

  /** Registering an active service otherwise first takes the old instance out of Consul
      and out of service, and then goes on as if nothing had been in the way. If the removal
      fails nothing changes. */
  lemma ChangeDoes(
    settings: Settings, run: string, locals: Locals, store: Store, request: RegisterRequest, calls: RegisterCalls)
    requires request.Valid() && Active(locals, LocalKey(request.name, request.port)) && WellKeyed(locals)
    requires var before := locals[LocalKey(request.name, request.port)].request;
             !(before.(methods := []) == request.(methods := []) && SameValues(before.methods, request.methods))
    ensures var outcome, key := RegisterOutcome(settings, run, locals, store, request, calls),
                                LocalKey(request.name, request.port);
            var id := locals[key].instanceId;
            outcome == if !calls.deregister then Outcome(locals, store, Err(CallFailed))
                       else RegisterAnew(
                         settings, run,
                         locals[key := locals[key].(state := Deregistered, updatedAt := calls.updatedAt)],
                         store.(instances := store.instances - {id}, leased := store.leased - {id},
                                maintenance := store.maintenance - {id}), request, calls)
  {
    hide LocalKey, RegisterAnew;
    var key := LocalKey(request.name, request.port);
    ValuesDecide(locals[key].request.methods, request.methods);
    SameKey(locals[key].(state := Deregistered, updatedAt := calls.updatedAt), locals[key]);
  }
}
