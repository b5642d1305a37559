/** From registration to the snapshot: what agents register, other agents discover
    and serve. */
module EndToEnd {
  import opened Text
  import opened Sorting
  import opened Model
  import opened Registry
  import opened Discovery
  import opened Fleet
  import opened FleetRuns
  import opened Stages
  import opened Guarantees
  import opened Scenarios
  import opened Overlaps
  import opened Snapshot
  import opened SnapshotBuilder

  /** All agents that ever registered anything keep route documents under one prefix. */
  predicate SharedPrefix(w: World, prefix: string) {
    forall id :: id in w.history ==> w.history[id].settings.routeKvPrefix == prefix
  }

  /** What a discovered instance takes over from the registration behind it. */
  lemma DiscoveredFields(w: World, v: View, id: string)
    requires Reachable(w) && v.store == w.store && v.Visible(id)
    ensures id in w.history
    ensures var instance, request := InstanceFrom(v.Entry(id)).value, w.history[id].service.request;
            && instance.instanceId == id
            && instance.name == request.name && instance.namespace == request.namespace
            && instance.port == request.port && instance.env == request.env
            && TrimSpace(request.env) == TrimSpace(v.env)
  {
    hide EntryOk, QueuedOk, Owned, Reachable, RouteDocument.Meaning, Record.Meaning, RouteConfigRef, LeaseCheckIdFor,
         Canonical, Split, ParsePositiveInt, ClusterFromTags, AddressOf, TrimSpace, Join, RoutePrefixes;
    ReachableIsFine(w);
    assert InstanceOk(w, id) && RecordOk(w, id);
  }

  /** The rest of what is discovered, from the agent's settings and the request alone. */
  lemma DiscoveredFromSettings(w: World, v: View, id: string)
    requires Reachable(w) && v.store == w.store && v.Visible(id)
    ensures id in w.history
    ensures var i, request, settings := InstanceFrom(v.Entry(id)).value, w.history[id].service.request,
                                        w.history[id].settings;
            && i.dns == request.dns && i.version == request.version && i.protocol == request.protocol
            && i.weight == request.weight
            && i.zone == TrimSpace(settings.zone) && i.cluster == TrimSpace(settings.clusterName)
            && (TrimSpace(settings.hostIp) != "" ==> i.address == TrimSpace(settings.hostIp))
            && i.routeConfigRef
            == TrimSlashes(TrimSpace(settings.routeKvPrefix)) + "/" + TrimSpace(request.env) + "/"
               + TrimSpace(request.namespace) + "/" + TrimSpace(request.name) + "/current"
  {
    hide EntryOk, QueuedOk, Owned, Reachable, RouteDocument.Meaning, Record.Meaning, NewService, RouteConfigRef,
         InstanceFrom, View.Visible, TrimSpace;
    ReachableIsFine(w);
    assert InstanceOk(w, id) && RecordOk(w, id) by { VisibleIsFoundExactly(v, id); }
    VisibleIsFoundExactly(v, id);
    assert InstanceFrom(v.Entry(id)).Some?;
    var record := w.history[id];
    assert v.store.instances[id] == RegistrationFor(record.settings, record.service);
    ReadsAsRegistered(record.settings, record.RunId(), record.service.request, id, record.service.registeredAt,
                      if id in v.nodes then Some(v.nodes[id]) else None, InstanceFrom(v.Entry(id)).value);
  }

  lemma ReadsAsRegistered(
    settings: Settings, run: string, request: RegisterRequest, id: string, now: int, node: Option<string>,
    i: ServiceInstance)
    requires request.Valid()
    requires var registration := RegistrationFor(settings, NewService(settings, run, request, id, now));
             ReadsAs(ServiceEntry(Some(registration), node), i)
    ensures i.dns == request.dns && i.version == request.version && i.protocol == request.protocol
    ensures i.weight == request.weight
    ensures i.zone == TrimSpace(settings.zone) && i.cluster == TrimSpace(settings.clusterName)
    ensures TrimSpace(settings.hostIp) != "" ==> i.address == TrimSpace(settings.hostIp)
    ensures i.routeConfigRef
         == TrimSlashes(TrimSpace(settings.routeKvPrefix)) + "/" + TrimSpace(request.env) + "/"
            + TrimSpace(request.namespace) + "/" + TrimSpace(request.name) + "/current"
  {
    TrimSpaceFixes(settings.hostIp);
    WeightRoundTrip(request.weight, 100);
    ClusterRoundTrip(settings.clusterName);
    hide TrimSpace, ParsePositiveInt, ClusterFromTags, Split, Join, RoutePrefixes, BuildAgentId, LeaseCheckIdFor;
  }

  /** Any two discovered instances of one name and namespace have the same port. */
  lemma OnePortPerService(w: World, v: View, prefix: string, a: ServiceInstance, b: ServiceInstance)
    requires Reachable(w) && v.store == w.store && SharedPrefix(w, prefix)
    requires a in v.Found() && b in v.Found()
    requires a.name == b.name && a.namespace == b.namespace
    ensures a.port == b.port
  {
    hide Reachable, InstanceFrom, RouteConfigRef, View.Visible, View.Instances;
    var x := InstanceComesFrom(v, Ascending(v.VisibleIds()), a);
    var y := InstanceComesFrom(v, Ascending(v.VisibleIds()), b);
    DiscoveredFields(w, v, x);
    DiscoveredFields(w, v, y);
    SameRef(w, prefix, x, y);
    OneMeaningPerRoute(w, x, y);
  }

  lemma SameRef(w: World, prefix: string, x: string, y: string)
    requires x in w.history && y in w.history && SharedPrefix(w, prefix)
    requires var p, q := w.history[x].service.request, w.history[y].service.request;
             p.name == q.name && p.namespace == q.namespace && TrimSpace(p.env) == TrimSpace(q.env)
    ensures w.history[x].Ref() == w.history[y].Ref()
  {
  }

  /** So whatever Discover returns, all instances of one name and namespace end up in
      the same group and under the same cluster name. */
  lemma OneClusterPerService(
    w: World, v: View, prefix: string, settings: BuilderSettings, result: seq<ServiceInstance>,
    a: ServiceInstance, b: ServiceInstance)
    requires Reachable(w) && v.store == w.store && SharedPrefix(w, prefix)
    requires v.IsDiscovery(result) && a in result && b in result
    requires a.name == b.name && a.namespace == b.namespace
    ensures ClusterOf(settings)(a) == ClusterOf(settings)(b)
    ensures forall g :: g in Groups(result) ==> (a in g.instances <==> b in g.instances)
    ensures exists g :: g in Groups(result) && a in g.instances && b in g.instances
  {
    hide Reachable, Groups, View.Found, View.Visible, GroupKey, KeyOfGroup, ClusterName;
    assert a in multiset(v.Found()) && b in multiset(v.Found());
    OnePortPerService(w, v, prefix, a, b);
    SameServiceSameKey(a, b);
    forall g | g in Groups(result)
      ensures a in g.instances <==> b in g.instances
    {
      var h := HeadOf(settings, result, g);
      WithKeyMembers(result, GroupKey, GroupKey(h));
    }
    var n := GroupOf(result, a);
    assert Groups(result)[n] in Groups(result);
  }

  /** What was registered with a non-blank address is discovered field by field as it
      was registered, exactly when its route prefixes hold no comma. */
  lemma DiscoveredAsRegistered(w: World, v: View, id: string)
    requires Reachable(w) && v.store == w.store && id in w.store.instances
    ensures id in w.history
    ensures var record := w.history[id];
            TrimSpace(record.settings.hostIp) != "" ==>
              (InstanceFrom(v.Entry(id)) == Some(InstanceOf(record.settings, record.service))
               <==> forall p :: p in RoutePrefixes(record.service.request.methods) ==> ',' !in p)
  {
    hide EntryOk, QueuedOk, Owned, Reachable, RouteDocument.Meaning, Record.Meaning, RouteConfigRef, LeaseCheckIdFor,
         InstanceFrom, InstanceOf, TrimSpace, RoutePrefixes, Join, BuildAgentId;
    ReachableIsFine(w);
    assert InstanceOk(w, id) && RecordOk(w, id);
    var record := w.history[id];
    if TrimSpace(record.settings.hostIp) != "" {
      RegisterDiscoverRoundTrip(record.settings, record.RunId(), record.service.request, id,
                                record.service.registeredAt,
                                if id in v.nodes then Some(v.nodes[id]) else None);
    }
  }

  /** Consul counts an instance as passing only if its lease was passed and it is not
      in maintenance. Then a discovered instance is held by a serving entry of the run
      that registered it; in particular nothing that is draining or deregistered is
      discovered. */
  lemma DiscoveredIsServing(w: World, v: View, id: string)
    requires Reachable(w) && v.store == w.store && v.Visible(id)
    requires v.passing <= w.store.leased - w.store.maintenance
    ensures id in w.store.instances
    ensures var run := w.store.instances[id].meta.agentRunId;
            var key := LocalKey(w.store.instances[id].name, w.store.instances[id].port);
            Holds(w, run, key, id) && w.agents[run].locals[key].state == Serving
    ensures forall r, k :: r in w.agents && k in w.agents[r].locals && w.agents[r].locals[k].instanceId == id
              ==> w.agents[r].locals[k].state == Serving
  {
    hide Reachable, InstanceFrom, LocalKey;
    LeasedInstanceHasOneHolder(w, id);
    var run := w.store.instances[id].meta.agentRunId;
    var key := LocalKey(w.store.instances[id].name, w.store.instances[id].port);
    EntriesMatchConsul(w, run, key);
    forall r, k | r in w.agents && k in w.agents[r].locals && w.agents[r].locals[k].instanceId == id
      ensures w.agents[r].locals[k].state == Serving
    {
      EntriesMatchConsul(w, r, k);
    }
  }

  // --------------------------------------------------- one list or several

  /** No two visible instances tie. */
  ghost predicate NoneTie(v: View) {
    forall x, y :: v.Visible(x) && v.Visible(y) && x != y ==>
      !Tie(InstanceFrom(v.Entry(x)).value, InstanceFrom(v.Entry(y)).value)
  }

  /** Discover has one possible result exactly when the visible instances differ in
      name, namespace, address and port, as one text shows these. */
  lemma DiscoverHasOneResultExactlyWhen(w: World, v: View)
    requires Reachable(w) && v.store == w.store
    ensures (forall r, s :: v.IsDiscovery(r) && v.IsDiscovery(s) ==> r == s) <==> NoneTie(v)
  {
    hide Reachable, InstanceFrom, View.Found, View.Instances, Tie, View.IsDiscovery;
    var result := DiscoveryExists(v);
    DiscoveryIsDeterminedExactlyWhen(v, result);
    if NoneTie(v) {
      forall i, j | 0 <= i < |result| && 0 <= j < |result| && Tie(result[i], result[j])
        ensures result[i] == result[j]
      {
        var x := ResultComesFrom(v, result, i);
        var y := ResultComesFrom(v, result, j);
      }
      assert forall other :: v.IsDiscovery(other) ==> other == result;
    } else {
      var x, y :| v.Visible(x) && v.Visible(y) && x != y
                  && Tie(InstanceFrom(v.Entry(x)).value, InstanceFrom(v.Entry(y)).value);
      DiscoveredFields(w, v, x);
      DiscoveredFields(w, v, y);
      var i := PlaceInResult(v, result, x);
      var j := PlaceInResult(v, result, y);
      assert result[i] != result[j];
    }
  }

  lemma ResultComesFrom(v: View, result: seq<ServiceInstance>, i: nat) returns (id: string)
    requires v.IsDiscovery(result) && i < |result|
    ensures v.Visible(id) && InstanceFrom(v.Entry(id)).value == result[i]
  {
    hide InstanceFrom, View.Visible, View.Instances, SortKey;
    assert result[i] in multiset(v.Found());
    id := InstanceComesFrom(v, Ascending(v.VisibleIds()), result[i]);
  }

  lemma PlaceInResult(v: View, result: seq<ServiceInstance>, id: string) returns (i: nat)
    requires v.IsDiscovery(result) && v.Visible(id)
    ensures i < |result| && result[i] == InstanceFrom(v.Entry(id)).value
  {
    hide InstanceFrom, View.Found, SortKey;
    VisibleIsFound(v, id);
    assert InstanceFrom(v.Entry(id)).value in multiset(result);
    i :| 0 <= i < |result| && result[i] == InstanceFrom(v.Entry(id)).value;
  }

  // ------------------------------------------------------- names that collide

  /** Discovered instances whose names and namespaces differ in surrounding blanks only
      are of one service. */
  lemma TrimmedNamesDecide(w: World, v: View, prefix: string, a: ServiceInstance, b: ServiceInstance)
    requires Reachable(w) && v.store == w.store && SharedPrefix(w, prefix)
    requires a in v.Found() && b in v.Found()
    requires TrimSpace(a.name) == TrimSpace(b.name) && TrimSpace(a.namespace) == TrimSpace(b.namespace)
    ensures SameService(a, b)
  {
    hide Reachable, InstanceFrom, View.Visible, View.Instances;
    var x := InstanceComesFrom(v, Ascending(v.VisibleIds()), a);
    var y := InstanceComesFrom(v, Ascending(v.VisibleIds()), b);
    DiscoveredFields(w, v, x);
    DiscoveredFields(w, v, y);
    assert w.history[x].Ref() == w.history[y].Ref();
    OneMeaningPerRoute(w, x, y);
  }

  /** So with namespaces that hold neither separator no names collide, whatever blanks
      surround them: each discovered service is served by a cluster of its own. */
  lemma DiscoveredNamesDoNotCollide(
    w: World, v: View, prefix: string, settings: BuilderSettings, result: seq<ServiceInstance>)
    requires Reachable(w) && v.store == w.store && SharedPrefix(w, prefix) && v.IsDiscovery(result)
    requires forall i :: i in result ==> '|' !in i.namespace && '.' !in i.namespace
    ensures NamesDoNotCollide(settings, result) && AllServedAlone(settings, result)
  {
    hide Reachable, View.Found, View.Visible, SameService, Collide, AllServedAlone;
    forall x, y | x in result && y in result && Collide(settings, x, y)
      ensures SameService(x, y)
    {
      assert x in multiset(v.Found()) && y in multiset(v.Found());
      CollidingNames(settings, x, y);
      TrimmedNamesDecide(w, v, prefix, x, y);
    }
    BuildRefinesFilterExactlyWhen(settings, result);
  }

  function TrimmedNames(i: ServiceInstance): ServiceInstance {
    i.(name := TrimSpace(i.name), namespace := TrimSpace(i.namespace))
  }

  lemma CollidingNames(settings: BuilderSettings, x: ServiceInstance, y: ServiceInstance)
    requires Collide(settings, x, y)
    requires '|' !in x.namespace && '.' !in x.namespace && '|' !in y.namespace && '.' !in y.namespace
    ensures TrimSpace(x.name) == TrimSpace(y.name) && TrimSpace(x.namespace) == TrimSpace(y.namespace)
  {
    hide TrimSpace, Decimal;
    if GroupKey(x) == GroupKey(y) {
      assert "" + x.name == x.name && "" + y.name == y.name;
      ReadBack("", x, y, '|');
    } else {
      TrimInvents(x.namespace, '.');
      TrimInvents(y.namespace, '.');
      ReadBack(settings.clusterNamePrefix + ".", TrimmedNames(x), TrimmedNames(y), '.');
    }
  }

  // ------------------------------------------------------------------ witnesses

  const HOST := Settings("routes", "east", "z1", "10.0.0.1", "prod")

  lemma HostHasAnAddress()
    ensures TrimSpace(HOST.hostIp) != ""
  {
    TrimSpaceFixes("10.0.0.1");
  }

  /** An instance as discovered of a request. */
  predicate Shows(i: ServiceInstance, request: RegisterRequest, id: string) {
    && i.instanceId == id && i.name == request.name && i.namespace == request.namespace && i.port == request.port
    && i.address == TrimSpace(HOST.hostIp)
  }

  /** Settings of the agents of the witnesses: one host, any KV prefix. */
  function HostWith(prefix: string): Settings {
    HOST.(routeKvPrefix := prefix)
  }

  /** Two runs on one host register a service each and both are discovered. */
  lemma BothDiscovered(p: RegisterRequest, q: RegisterRequest, a: string, b: string)
    returns (w: World, v: View, result: seq<ServiceInstance>)
    requires p.Valid() && q.Valid() && p.env == q.env
    requires || RefOf(HostWith(a), p) != RefOf(HostWith(b), q)
             || DocumentFor(p, 0).Meaning() == DocumentFor(q, 0).Meaning()
    ensures Reachable(w) && v.store == w.store && v.IsDiscovery(result) && FIRST_ID != SECOND_ID
    ensures v.Visible(FIRST_ID) && Shows(InstanceFrom(v.Entry(FIRST_ID)).value, p, FIRST_ID)
    ensures v.Visible(SECOND_ID) && Shows(InstanceFrom(v.Entry(SECOND_ID)).value, q, SECOND_ID)
    ensures w.store.instances.Keys == {FIRST_ID, SECOND_ID}
    ensures FIRST_ID in w.history && w.history[FIRST_ID].settings == HostWith(a)
              && w.history[FIRST_ID].service.request == p
    ensures a == b ==> SharedPrefix(w, a)
  {
    RequestOf(HostWith(a), p, FIRST_ID);
    hide Reachable, Reaches, Inv, NewService, RegistrationFor, DocumentFor, RouteDocument.Meaning, RouteConfigRef,
         LocalKey, RouteDocument.Canonicalized, InstanceFrom, View.Visible, View.IsDiscovery, RegisterRequest.Valid,
         FIRST_ID, SECOND_ID, HOST, Shows;
    TwoIds();
    var w0 := TwoAgents(HostWith(a), HostWith(b));
    ReachableIsFine(w0);
    var w1 := GoesThrough(w0, "a", p, FIRST_ID);
    CanonicalizedKeepsMeaning(DocumentFor(p, 0));
    w := GoesThrough(w1, "b", q, SECOND_ID);
    ReachesOn(w0, w1, w);
    ReachableOn(w0, w);
    v := View(w.store, w.store.leased, map[], p.env);
    SeenOnHost(v, a, "a", p, FIRST_ID);
    SeenOnHost(v, b, "b", q, SECOND_ID);
    result := DiscoveryExists(v);
  }

  lemma RequestOf(settings: Settings, request: RegisterRequest, id: string)
    ensures NewService(settings, "a", request, id, 0).request == request
  {
  }

  lemma SeenOnHost(v: View, prefix: string, run: string, request: RegisterRequest, id: string)
    requires request.Valid() && v.env == request.env && id in v.store.instances && id in v.passing
    requires v.store.instances[id]
          == Record(HostWith(prefix), NewService(HostWith(prefix), run, request, id, 0)).Registration()
    ensures v.Visible(id) && Shows(InstanceFrom(v.Entry(id)).value, request, id)
  {
    hide NewService, RegistrationFor, InstanceFrom, View.Visible, RegisterRequest.Valid, HOST;
    HostHasAnAddress();
    RegisteredIsVisible(v, HostWith(prefix), run, request, id, 0);
  }

  lemma IsInResult(v: View, result: seq<ServiceInstance>, id: string) returns (i: ServiceInstance)
    requires v.IsDiscovery(result) && v.Visible(id)
    ensures i in result && InstanceFrom(v.Entry(id)) == Some(i)
  {
    var n := PlaceInResult(v, result, id);
    i := result[n];
  }

  /** Two runs on one host that register the same service tie, and Discover then has
      more than one result. */
  lemma TiesHappen() returns (w: World, v: View, r: seq<ServiceInstance>, s: seq<ServiceInstance>)
    ensures Reachable(w) && v.store == w.store && v.IsDiscovery(r) && v.IsDiscovery(s) && r != s
  {
    hide Reachable, InstanceFrom, View.IsDiscovery, RegisterRequest.Valid, FIRST_ID, SECOND_ID, HOST, RouteConfigRef;
    AuthIsValid(80);
    assert AUTH.(port := 80) == AUTH;
    hide AUTH;
    w, v, r := BothDiscovered(AUTH, AUTH, "routes", "routes");
    assert !NoneTie(v);
    DiscoverHasOneResultExactlyWhen(w, v);
    r, s :| v.IsDiscovery(r) && v.IsDiscovery(s) && r != s;
  }

  const AB := AUTH.(name := "x", namespace := "a.b")
  const B := AUTH.(name := "x.a", namespace := "b")

  lemma DottedAreValid()
    ensures AB.Valid() && B.Valid()
    ensures RefOf(HostWith("routes"), AB) != RefOf(HostWith("routes"), B)
    ensures TrimSpace("x") == "x" && TrimSpace("a.b") == "a.b" && TrimSpace("x.a") == "x.a" && TrimSpace("b") == "b"
  {
    hide TrimSpace, TrimSlashes;
    AuthIsValid(80);
    assert AUTH.(port := 80) == AUTH;
    TrimSpaceFixes("x");
    TrimSpaceFixes("x.a");
    TrimSpaceFixes("a.b");
    TrimSpaceFixes("b");
    NamesAreRequired(AUTH, "x", "a.b");
    NamesAreRequired(AUTH, "x.a", "b");
    var head := TrimSlashes(TrimSpace("routes")) + "/" + TrimSpace(AUTH.env) + "/";
    assert RefOf(HostWith("routes"), AB) == head + "a.b" + "/" + "x" + "/current";
    assert RefOf(HostWith("routes"), B) == head + "b" + "/" + "x.a" + "/current";
    assert (head + "a.b" + "/" + "x" + "/current")[|head|] == 'a';
    assert (head + "b" + "/" + "x.a" + "/current")[|head|] == 'b';
  }

  lemma NamesAreRequired(request: RegisterRequest, name: string, namespace: string)
    requires request.Valid() && TrimSpace(name) != "" && TrimSpace(namespace) != ""
    ensures request.(name := name, namespace := namespace).Valid()
  {
    hide TrimSpace;
    var renamed := request.(name := name, namespace := namespace);
    forall field | field in renamed.RequiredFields()
      ensures TrimSpace(field) != ""
    {
      assert field == name || field == namespace || field in request.RequiredFields();
    }
  }

  /** With a separator in a namespace two discovered services can share a cluster name,
      and then some service is not served by a cluster of its own, under any settings. */
  lemma SeparatorsCollide() returns (w: World, v: View, result: seq<ServiceInstance>)
    ensures Reachable(w) && v.store == w.store && SharedPrefix(w, "routes") && v.IsDiscovery(result)
    ensures forall settings :: !NamesDoNotCollide(settings, result) && !AllServedAlone(settings, result)
  {
    hide Reachable, InstanceFrom, View.IsDiscovery, View.Visible, RegisterRequest.Valid, FIRST_ID, SECOND_ID, HOST,
         RouteConfigRef, DocumentFor, RouteDocument.Meaning, AllServedAlone, NamesDoNotCollide;
    DottedAreValid();
    w, v, result := BothDiscovered(AB, B, "routes", "routes");
    var x := IsInResult(v, result, FIRST_ID);
    var y := IsInResult(v, result, SECOND_ID);
    forall settings
      ensures !NamesDoNotCollide(settings, result) && !AllServedAlone(settings, result)
    {
      OneNameForBoth(settings, x, y);
      CollisionShows(settings, result, x, y);
      BuildRefinesFilterExactlyWhen(settings, result);
    }
  }

  lemma CollisionShows(settings: BuilderSettings, result: seq<ServiceInstance>, x: ServiceInstance, y: ServiceInstance)
    requires x in result && y in result && Collide(settings, x, y) && !SameService(x, y)
    ensures !NamesDoNotCollide(settings, result)
  {
  }

  lemma OneNameForBoth(settings: BuilderSettings, x: ServiceInstance, y: ServiceInstance)
    requires x.name == "x" && x.namespace == "a.b" && y.name == "x.a" && y.namespace == "b" && x.port == y.port
    requires TrimSpace("x") == "x" && TrimSpace("a.b") == "a.b" && TrimSpace("x.a") == "x.a" && TrimSpace("b") == "b"
    ensures Collide(settings, x, y) && !SameService(x, y)
  {
    hide TrimSpace, Decimal;
    assert "x" + "." + "a.b" == "x.a" + "." + "b";
    var head, tail := settings.clusterNamePrefix + ".", "." + Decimal(x.port);
    assert ClusterOf(settings)(x) == head + ("x" + "." + "a.b") + tail;
    assert ClusterOf(settings)(y) == head + ("x.a" + "." + "b") + tail;
  }

  const BLANK := AUTH.(name := "auth ")

  lemma BlankIsTrimmed()
    ensures TrimSpace("auth ") == "auth" && TrimSpace("auth") == "auth"
  {
    TrimSpaceFixes("auth");
    assert TrimLeft("auth ") == "auth ";
    assert "auth "[..4] == "auth";
    assert TrimRight("auth ") == TrimRight("auth "[..4]);
  }

  lemma PrefixesDiffer()
    ensures RefOf(HostWith("routes"), AUTH) != RefOf(HostWith("other"), BLANK)
  {
    hide TrimSpace;
    TrimSpaceFixes("routes");
    TrimSpaceFixes("other");
    assert RefOf(HostWith("routes"), AUTH)[0] == 'r';
    assert RefOf(HostWith("other"), BLANK)[0] == 'o';
  }

  /** Across KV prefixes surrounding blanks are enough. */
  lemma BlanksCollideAcrossPrefixes() returns (w: World, v: View, result: seq<ServiceInstance>)
    ensures Reachable(w) && v.store == w.store && v.IsDiscovery(result)
    ensures forall i :: i in result ==> '|' !in i.namespace && '.' !in i.namespace
    ensures forall settings :: !NamesDoNotCollide(settings, result)
  {
    hide Reachable, InstanceFrom, View.IsDiscovery, View.Visible, RegisterRequest.Valid, FIRST_ID, SECOND_ID, HOST,
         RouteConfigRef, DocumentFor, RouteDocument.Meaning, NamesDoNotCollide;
    BlankIsTrimmed();
    PrefixesDiffer();
    AuthIsValid(80);
    assert AUTH.(port := 80) == AUTH;
    assert TrimSpace(AUTH.namespace) != "" by { AuthHasANamespace(); }
    NamesAreRequired(AUTH, "auth ", AUTH.namespace);
    w, v, result := BothDiscovered(AUTH, BLANK, "routes", "other");
    var x := IsInResult(v, result, FIRST_ID);
    var y := IsInResult(v, result, SECOND_ID);
    forall settings
      ensures !NamesDoNotCollide(settings, result)
    {
      assert ClusterOf(settings)(x) == ClusterOf(settings)(y);
      CollisionShows(settings, result, x, y);
    }
    PlainNamespacesOnly(v, result);
  }

  lemma PlainNamespacesOnly(v: View, result: seq<ServiceInstance>)
    requires v.IsDiscovery(result) && v.store.instances.Keys == {FIRST_ID, SECOND_ID}
    requires v.Visible(FIRST_ID) && Shows(InstanceFrom(v.Entry(FIRST_ID)).value, AUTH, FIRST_ID)
    requires v.Visible(SECOND_ID) && Shows(InstanceFrom(v.Entry(SECOND_ID)).value, BLANK, SECOND_ID)
    ensures forall i :: i in result ==> '|' !in i.namespace && '.' !in i.namespace
  {
    hide View.IsDiscovery, InstanceFrom, FIRST_ID, SECOND_ID;
    forall i | i in result
      ensures '|' !in i.namespace && '.' !in i.namespace
    {
      var n :| 0 <= n < |result| && result[n] == i;
      var id := ResultComesFrom(v, result, n);
      assert id in {FIRST_ID, SECOND_ID};
      assert i.namespace == "core";
    }
  }

  lemma AuthHasANamespace()
    ensures TrimSpace(AUTH.namespace) != ""
  {
    TrimSpaceFixes("core");
  }

  const COMMA := AUTH.(methods := ["/a,b/c"])

  lemma CommaIsValid()
    ensures COMMA.Valid() && "/a,b/" in RoutePrefixes(COMMA.methods)
  {
    AuthIsValid(80);
    assert COMMA.RequiredFields() == AUTH.(port := 80).RequiredFields();
    var path := "/a,b/c";
    TrimSpaceFixes(path);
    assert path[4] == '/' && path[5] != '/' && LastIndex(path, '/') == 4;
    hide TrimSpace, LastIndex;
    assert path[..5] == "/a,b/" && "/" <= path;
    assert PrefixOf(path) == Some("/a,b/");
    assert path in COMMA.methods;
  }

  /** A method whose service holds a comma is valid, and what is discovered of it is not
      what was registered. */
  lemma CommasAreLost() returns (w: World, v: View, id: string)
    ensures Reachable(w) && v.store == w.store && v.Visible(id) && id in w.history
    ensures InstanceFrom(v.Entry(id)) != Some(InstanceOf(w.history[id].settings, w.history[id].service))
  {
    hide Reachable, InstanceFrom, View.IsDiscovery, View.Visible, RegisterRequest.Valid, FIRST_ID, SECOND_ID, HOST,
         RouteConfigRef, DocumentFor, RouteDocument.Meaning, RoutePrefixes, InstanceOf;
    CommaIsValid();
    HostHasAnAddress();
    var result;
    w, v, result := BothDiscovered(COMMA, COMMA, "routes", "routes");
    id := FIRST_ID;
    DiscoveredAsRegistered(w, v, id);
    assert ',' in "/a,b/" by { assert "/a,b/"[2] == ','; }
  }

  /** One route check that is not one step is enough to discover two instances of one
      name and namespace on different ports: `OnePortPerService` needs route checks
      that are. */
  lemma LateWriteBreaksOnePort() returns (w: World, v: View, a: ServiceInstance, b: ServiceInstance)
    ensures ReachedWithLateWrite(w) && v.store == w.store && SharedPrefix(w, HOST.routeKvPrefix)
    ensures a in v.Found() && b in v.Found() && a.name == b.name && a.namespace == b.namespace && a.port != b.port
  {
    hide ReachedWithLateWrite, NewService, RegistrationFor, InstanceFrom, View.Found, FIRST_ID, SECOND_ID, HOST,
         RegisterRequest.Valid, Record.Meaning, Record.Ref, RouteDocument.Meaning;
    var auth, other := AUTH, AUTH.(port := 81);
    assert auth.(port := 80) == auth && auth.port == 80;
    assert other.env == auth.env && other.name == auth.name && other.namespace == auth.namespace;
    AuthIsValid(80);
    AuthIsValid(81);
    hide AUTH;
    w := LateWriteSplitsAService(HOST);
    v := View(w.store, w.store.leased, map[], auth.env);
    HostHasAnAddress();
    RegisteredIsVisible(v, HOST, "a", auth, FIRST_ID, 0);
    RegisteredIsVisible(v, HOST, "b", other, SECOND_ID, 0);
    VisibleIsFound(v, FIRST_ID);
    VisibleIsFound(v, SECOND_ID);
    a, b := InstanceFrom(v.Entry(FIRST_ID)).value, InstanceFrom(v.Entry(SECOND_ID)).value;
  }
}
