/** Reading instances back out of Consul. */
module Discovery {
  import opened Text
  import opened Sorting
  import opened Model
  import opened Consul
  import opened Registry

  /** An entry of a health query; either part may be missing. */
  datatype ServiceEntry = ServiceEntry(service: Option<Registration>, nodeAddress: Option<string>)

  // --------------------------------------------------------------- parsing

  /** strings.Split on one character */
  function Split(s: string, sep: char): seq<string> {
    if sep !in s then [s]
    else
      var i := FirstIndex(s, sep);
      [s[..i]] + Split(s[i + 1..], sep)
  }

  function FirstIndex(s: string, c: char): (i: nat)
    requires c in s
    ensures i < |s| && s[i] == c && c !in s[..i]
  {
    if s[0] == c then 0
    else
      assert s == [s[0]] + s[1..];
      var i := 1 + FirstIndex(s[1..], c);
      assert s[..i] == [s[0]] + s[1..][..i - 1];
      i
  }

  function LeadingDigits(s: string): (d: string)
    ensures forall c :: c in d ==> IsDigit(c)
  {
    if s != "" && IsDigit(s[0]) then [s[0]] + LeadingDigits(s[1..]) else ""
  }

  /** fmt.Sscanf with %d, then the fallback for anything that is not a positive
      64-bit integer. Text after the number is ignored. */
  function ParsePositiveInt(raw: string, fallback: GoInt): GoInt {
    var trimmed := TrimSpace(raw);
    var signed := trimmed != "" && trimmed[0] in "+-";
    var digits := LeadingDigits(if signed then trimmed[1..] else trimmed);
    if digits == "" || (signed && trimmed[0] == '-') || DigitsValue(digits) > MAX_INT || DigitsValue(digits) == 0
    then fallback
    else DigitsValue(digits)
  }

  const CLUSTER_TAG := "cluster="

  function ClusterFromTags(tags: seq<string>): string {
    if tags == [] then ""
    else if CLUSTER_TAG <= TrimSpace(tags[0]) then TrimSpace(tags[0])[|CLUSTER_TAG|..]
    else ClusterFromTags(tags[1..])
  }

  const DEFAULT_WEIGHT: GoInt := 100

  function AddressOf(entry: ServiceEntry): string {
    if entry.service.None? then ""
    else if TrimSpace(entry.service.value.address) != "" || entry.nodeAddress.None? then
      TrimSpace(entry.service.value.address)
    else TrimSpace(entry.nodeAddress.value)
  }

  /** The instance an entry stands for, unless it has no usable endpoint. */
  ghost function InstanceFrom(entry: Option<ServiceEntry>): Option<ServiceInstance> {
    if entry.None? || entry.value.service.None? then None
    else
      var service, address := entry.value.service.value, AddressOf(entry.value);
      if address == "" || service.port <= 0 then None
      else Some(ServiceInstance(
        service.meta.instanceId, service.name, service.meta.namespace, service.meta.dns, service.meta.env,
        service.meta.zone, service.meta.version, service.meta.protocol, address, service.port,
        ParsePositiveInt(service.meta.weight, DEFAULT_WEIGHT), ClusterFromTags(service.tags),
        service.meta.routeConfigRef, Canonical(Split(service.meta.routePrefixes, ','))))
  }

  /** The entry has a service with a positive port and an address of its own or of its
      node. */
  predicate Usable(entry: ServiceEntry) {
    && entry.service.Some? && entry.service.value.port > 0
    && (|| TrimSpace(entry.service.value.address) != ""
        || (entry.nodeAddress.Some? && TrimSpace(entry.nodeAddress.value) != ""))
  }

  /** The instance says what the entry says, field by field. */
  ghost predicate ReadsAs(entry: ServiceEntry, i: ServiceInstance) {
    entry.service.Some? &&
    var service := entry.service.value;
    var meta := service.meta;
    && i.instanceId == meta.instanceId && i.name == service.name && i.namespace == meta.namespace
    && i.dns == meta.dns && i.env == meta.env && i.zone == meta.zone && i.version == meta.version
    && i.protocol == meta.protocol && i.routeConfigRef == meta.routeConfigRef && i.port == service.port
    && (if TrimSpace(service.address) != "" then i.address == TrimSpace(service.address)
        else entry.nodeAddress.Some? && i.address == TrimSpace(entry.nodeAddress.value))
    && i.weight == ParsePositiveInt(meta.weight, 100) && i.cluster == ClusterFromTags(service.tags)
    && (forall m, n :: 0 <= m < n < |i.routePrefixes| ==> Less(i.routePrefixes[m], i.routePrefixes[n]))
    && (forall p :: p in i.routePrefixes <==>
          p != "" && exists part :: part in Split(meta.routePrefixes, ',') && TrimSpace(part) == p)
  }

  /** The cluster is what follows "cluster=" in the first tag that begins with it once
      trimmed, or nothing. */
  lemma {:induction false} ClusterIsOfFirstTag(tags: seq<string>)
    ensures (forall i :: 0 <= i < |tags| ==> !("cluster=" <= TrimSpace(tags[i]))) ==> ClusterFromTags(tags) == ""
    ensures forall i :: 0 <= i < |tags| && "cluster=" <= TrimSpace(tags[i])
                        && (forall j :: 0 <= j < i ==> !("cluster=" <= TrimSpace(tags[j])))
              ==> ClusterFromTags(tags) == TrimSpace(tags[i])[8..]
  {
    hide TrimSpace;
    if tags != [] {
      ClusterIsOfFirstTag(tags[1..]);
      assert forall i :: 0 < i < |tags| ==> tags[i] == tags[1..][i - 1];
      assert forall i :: 0 <= i < |tags| - 1 ==> tags[1..][i] == tags[i + 1];
    }
  }

  /** Text that does not begin with a number, with a plus sign or none, counts as not
      there. */
  lemma WeightFallsBack(raw: string, fallback: GoInt)
    ensures var t := TrimSpace(raw);
            !(t != "" && (IsDigit(t[0]) || (t[0] == '+' && |t| > 1 && IsDigit(t[1])))) ==>
              ParsePositiveInt(raw, fallback) == fallback
    ensures fallback > 0 ==> ParsePositiveInt(raw, fallback) > 0
  {
    hide TrimSpace, DigitsValue;
  }

  method ServiceInstanceFromEntry(entry: Option<ServiceEntry>) returns (instance: Option<ServiceInstance>)
    ensures instance == InstanceFrom(entry)
    ensures instance.Some? <==> entry.Some? && Usable(entry.value)
    ensures instance.Some? ==> ReadsAs(entry.value, instance.value)
  {
    if entry.None? || entry.value.service.None? {
      return None;
    }
    var service := entry.value.service.value;
    var address := TrimSpace(service.address);
    if address == "" && entry.value.nodeAddress.Some? {
      address := TrimSpace(entry.value.nodeAddress.value);
    }
    if address == "" || service.port <= 0 {
      return None;
    }
    var prefixes := UniqueSortedStrings(Split(service.meta.routePrefixes, ','));
    return Some(ServiceInstance(
      service.meta.instanceId, service.name, service.meta.namespace, service.meta.dns, service.meta.env,
      service.meta.zone, service.meta.version, service.meta.protocol, address, service.port,
      ParsePositiveInt(service.meta.weight, DEFAULT_WEIGHT), ClusterFromTags(service.tags),
      service.meta.routeConfigRef, prefixes));
  }

  // ------------------------------------------------------------ round trip

  /** The instance a registered service is meant to be discovered as. */
  function InstanceOf(settings: Settings, service: LocalService): ServiceInstance {
    ServiceInstance(
      service.instanceId, service.request.name, service.request.namespace, service.request.dns, service.request.env,
      service.zone, service.request.version, service.request.protocol, service.address, service.request.port,
      service.request.weight, TrimSpace(settings.clusterName), service.routeConfigRef, service.routePrefixes)
  }

  lemma {:induction false} AllLeadingDigits(s: string)
    requires forall c :: c in s ==> IsDigit(c)
    ensures LeadingDigits(s) == s
  {
    if s != "" {
      assert s == [s[0]] + s[1..] && IsDigit(s[0]);
      AllLeadingDigits(s[1..]);
    }
  }

  /** A positive weight survives being written and read. */
  lemma WeightRoundTrip(weight: GoInt, fallback: GoInt)
    requires 0 < weight
    ensures ParsePositiveInt(Decimal(weight), fallback) == weight
  {
    DigitsValueInverts(weight);
    DigitsAreParsed(Digits(weight), fallback);
  }

  lemma DigitsAreParsed(s: string, fallback: GoInt)
    requires s != "" && forall c :: c in s ==> IsDigit(c)
    ensures 0 < DigitsValue(s) <= MAX_INT ==> ParsePositiveInt(s, fallback) == DigitsValue(s)
  {
    hide DigitsValue;
    assert s[0] in s && s[|s| - 1] in s;
    assert IsDigit(s[0]) && IsDigit(s[|s| - 1]);
    TrimSpaceFixes(s);
    AllLeadingDigits(s);
  }

  lemma ClusterRoundTrip(cluster: string)
    ensures ClusterFromTags([CLUSTER_TAG + TrimSpace(cluster)]) == TrimSpace(cluster)
  {
    var tag := CLUSTER_TAG + TrimSpace(cluster);
    TrimSpaceFixes(cluster);
    assert tag[|tag| - 1] == if TrimSpace(cluster) == "" then '=' else TrimSpace(cluster)[|TrimSpace(cluster)| - 1];
    TrimSpaceFixes(tag);
  }

  lemma {:induction false} SplitHasNoSeparator(s: string, sep: char)
    ensures forall part :: part in Split(s, sep) ==> sep !in part
  {
    if sep in s {
      SplitHasNoSeparator(s[FirstIndex(s, sep) + 1..], sep);
    }
  }

  lemma {:induction false} JoinInvertsSplit(s: string, sep: char)
    ensures Split(s, sep) != [] && Join(Split(s, sep), [sep]) == s
  {
    if sep in s {
      var i := FirstIndex(s, sep);
      JoinInvertsSplit(s[i + 1..], sep);
      assert Split(s, sep)[1..] == Split(s[i + 1..], sep);
      assert s == s[..i] + [sep] + s[i + 1..];
    }
  }

  lemma SplitOnce(head: string, tail: string, sep: char)
    requires sep !in head
    ensures Split(head + [sep] + tail, sep) == [head] + Split(tail, sep)
  {
    var s := head + [sep] + tail;
    assert s[|head|] == sep;
    var i := FirstIndex(s, sep);
    assert forall j :: 0 <= j < i ==> s[j] == s[..i][j];
    assert forall j :: 0 <= j < |head| ==> s[j] == head[j];
    assert i == |head|;
    assert s[..i] == head && s[i + 1..] == tail;
  }

  /** Splitting undoes joining when no part holds the separator. */
  lemma {:induction false} SplitInvertsJoin(parts: seq<string>, sep: char)
    requires parts != [] && forall part :: part in parts ==> sep !in part
    ensures Split(Join(parts, [sep]), sep) == parts
  {
    assert parts[0] in parts;
    if |parts| > 1 {
      assert forall part :: part in parts[1..] ==> part in parts;
      SplitInvertsJoin(parts[1..], sep);
      SplitOnce(parts[0], Join(parts[1..], [sep]), sep);
    }
  }

  /** A canonical list of prefixes is read back exactly when none holds a comma. */
  lemma PrefixesRoundTripExactlyWhen(prefixes: seq<string>)
    requires Canonical(prefixes) == prefixes
    ensures Canonical(Split(Join(prefixes, ","), ',')) == prefixes
       <==> forall p :: p in prefixes ==> ',' !in p
  {
    var read := Split(Join(prefixes, ","), ',');
    if prefixes == [] {
      assert NonBlank([""]) == {};
    } else if forall p :: p in prefixes ==> ',' !in p {
      SplitInvertsJoin(prefixes, ',');
    } else {
      var p :| p in prefixes && ',' in p;
      SplitHasNoSeparator(Join(prefixes, ","), ',');
      if p in Canonical(read) {
        var part :| part in read && TrimSpace(part) == p;
        TrimInvents(part, ',');
      }
    }
  }

  /** A valid service with a non-blank address is discovered as itself, every field
      of it, exactly when no route prefix holds a comma. */
  lemma RegisterDiscoverRoundTrip(
    settings: Settings, run: string, request: RegisterRequest, id: string, now: int, node: Option<string>)
    requires request.Valid() && TrimSpace(settings.hostIp) != ""
    ensures var service := NewService(settings, run, request, id, now);
            var entry := ServiceEntry(Some(RegistrationFor(settings, service)), node);
            (InstanceFrom(Some(entry)) == Some(InstanceOf(settings, service))
             <==> forall p :: p in RoutePrefixes(request.methods) ==> ',' !in p)
  {
    TrimSpaceFixes(settings.hostIp);
    WeightRoundTrip(request.weight, DEFAULT_WEIGHT);
    ClusterRoundTrip(settings.clusterName);
    PrefixesAreCanonical(request.methods);
    PrefixesRoundTripExactlyWhen(RoutePrefixes(request.methods));
    hide TrimSpace, ParsePositiveInt, ClusterFromTags, Canonical, Split, Registry.Join, RoutePrefixes, RouteConfigRef,
         BuildAgentId, LeaseCheckIdFor;
  }

  // -------------------------------------------------------------- discovery

  function SortKey(i: ServiceInstance): string {
    i.name + "|" + i.namespace + "|" + i.address + "|" + Decimal(i.port)
  }

  /** What one Discover call gets to see: the store, which instances Consul reports
      as passing, the addresses of their nodes, and the agent's environment. */
  datatype View = View(store: Store, passing: set<string>, nodes: map<string, string>, env: string) {
    function Entry(id: string): Option<ServiceEntry> {
      if id in store.instances
      then Some(ServiceEntry(Some(store.instances[id]), if id in nodes then Some(nodes[id]) else None))
      else None
    }

    ghost predicate Visible(id: string) {
      && id in store.instances && id in passing
      && InstanceFrom(Entry(id)).Some?
      && TrimSpace(InstanceFrom(Entry(id)).value.env) == TrimSpace(env)
    }

    ghost function VisibleIds(): set<string> {
      set id | id in store.instances && Visible(id)
    }

    ghost function Instances(ids: seq<string>): seq<ServiceInstance> {
      if ids == [] then []
      else
        var last := ids[|ids| - 1];
        Instances(ids[..|ids| - 1]) + (if Visible(last) then [InstanceFrom(Entry(last)).value] else [])
    }

    /** The visible instances, each once, in ascending order of their IDs. */
    ghost function Found(): seq<ServiceInstance> {
      Instances(Ascending(VisibleIds()))
    }

    /** A list Discover may return: the visible instances ordered by their sort key. */
    ghost predicate IsDiscovery(result: seq<ServiceInstance>) {
      multiset(result) == multiset(Found()) && SortedBy(result, ByKey(SortKey))
    }
  }

  lemma {:induction false} InstancesConcat(v: View, xs: seq<string>, ys: seq<string>)
    ensures v.Instances(xs + ys) == v.Instances(xs) + v.Instances(ys)
  {
    hide View.Visible, InstanceFrom;
    if ys == [] {
      assert xs + ys == xs;
    } else {
      assert (xs + ys)[..|xs + ys| - 1] == xs + ys[..|ys| - 1];
      InstancesConcat(v, xs, ys[..|ys| - 1]);
    }
  }

  lemma NoInstances(v: View)
    ensures v.Instances([]) == []
  {
  }

  lemma InstancesSnoc(v: View, ids: seq<string>, id: string)
    ensures v.Visible(id) ==> v.Instances(ids + [id]) == v.Instances(ids) + [InstanceFrom(v.Entry(id)).value]
    ensures !v.Visible(id) ==> v.Instances(ids + [id]) == v.Instances(ids)
  {
    assert (ids + [id])[..|ids|] == ids;
  }

  lemma InstancesTakeOut(v: View, ys: seq<string>, k: nat)
    requires k < |ys|
    ensures multiset(v.Instances(ys)) == multiset(v.Instances([ys[k]])) + multiset(v.Instances(Without(ys, k)))
  {
    hide View.Instances;
    var before, after := ys[..k], ys[k + 1..];
    assert ys == before + ([ys[k]] + after);
    InstancesConcat(v, before, after);
    InstancesConcat(v, [ys[k]], after);
    InstancesConcat(v, before, [ys[k]] + after);
  }

  lemma {:induction false} InstancesRearrange(v: View, xs: seq<string>, ys: seq<string>)
    requires multiset(xs) == multiset(ys)
    ensures multiset(v.Instances(xs)) == multiset(v.Instances(ys))
  {
    hide View.Instances;
    if xs == [] {
      RearrangesEmpty(ys);
    } else {
      var k := FindHead(xs, ys);
      InstancesRearrange(v, xs[1..], Without(ys, k));
      InstancesTakeOut(v, ys, k);
      InstancesTakeOut(v, xs, 0);
      assert Without(xs, 0) == xs[1..];
    }
  }

  lemma {:induction false} InstanceComesFrom(v: View, ids: seq<string>, i: ServiceInstance) returns (id: string)
    requires i in v.Instances(ids)
    ensures id in ids && v.Visible(id) && InstanceFrom(v.Entry(id)) == Some(i)
  {
    hide InstanceFrom;
    var init, last := ids[..|ids| - 1], ids[|ids| - 1];
    if i in v.Instances(init) {
      id := InstanceComesFrom(v, init, i);
    } else {
      id := last;
    }
  }

  /** Name, namespace, address and port as one text ascend along the list. */
  predicate TextsAscend(list: seq<ServiceInstance>) {
    forall i, j :: 0 <= i < j < |list| ==>
      var a, b := list[i], list[j];
      !Less(b.name + "|" + b.namespace + "|" + b.address + "|" + Decimal(b.port),
            a.name + "|" + a.namespace + "|" + a.address + "|" + Decimal(a.port))
  }

  lemma AscendsAsText(result: seq<ServiceInstance>)
    requires SortedBy(result, ByKey(SortKey))
    ensures TextsAscend(result)
  {
    forall i, j | 0 <= i < j < |result|
      ensures !Less(SortKey(result[j]), SortKey(result[i]))
    {
      ByKeyMeans(SortKey, result[i], result[j]);
    }
  }

  /** The entry of a passing instance that is usable and of the agent's environment. */
  predicate IsFound(v: View, id: string) {
    && id in v.store.instances && id in v.passing
    && Usable(ServiceEntry(Some(v.store.instances[id]), if id in v.nodes then Some(v.nodes[id]) else None))
    && TrimSpace(v.store.instances[id].meta.env) == TrimSpace(v.env)
  }

  ghost predicate ReadsAsFound(v: View, id: string, i: ServiceInstance) {
    && id in v.store.instances
    && ReadsAs(ServiceEntry(Some(v.store.instances[id]), if id in v.nodes then Some(v.nodes[id]) else None), i)
  }

  lemma VisibleIsFoundExactly(v: View, id: string)
    ensures v.Visible(id) <==> IsFound(v, id)
    ensures v.Visible(id) ==> InstanceFrom(v.Entry(id)).Some? && ReadsAsFound(v, id, InstanceFrom(v.Entry(id)).value)
  {
    hide TrimSpace, ParsePositiveInt, ClusterFromTags, Split;
  }

  /** What Discover returns are the passing instances that have an address and a port and
      belong to the agent's environment, one entry for each, and nothing else. */
  lemma DiscoverySpelledOut(v: View, result: seq<ServiceInstance>)
    requires v.IsDiscovery(result)
    ensures |result| == |set id | id in v.store.instances && IsFound(v, id)|
    ensures forall id :: IsFound(v, id) ==> exists i :: i in result && ReadsAsFound(v, id, i)
    ensures forall i :: i in result ==> exists id :: IsFound(v, id) && ReadsAsFound(v, id, i)
  {
    hide IsFound, ReadsAsFound, View.Visible, InstanceFrom, SortKey, View.Instances, View.Entry;
    var ids := Ascending(v.VisibleIds());
    FoundCount(v);
    hide SortedBy;
    assert |result| == |multiset(result)| == |multiset(v.Found())|;
    forall id | IsFound(v, id)
      ensures exists i :: i in result && ReadsAsFound(v, id, i)
    {
      VisibleIsFoundExactly(v, id);
      VisibleIsFound(v, id);
      assert InstanceFrom(v.Entry(id)).value in multiset(result);
    }
    forall i | i in result
      ensures exists id :: IsFound(v, id) && ReadsAsFound(v, id, i)
    {
      assert i in multiset(v.Found());
      var id := InstanceComesFrom(v, ids, i);
      VisibleIsFoundExactly(v, id);
    }
  }

  lemma FoundCount(v: View)
    ensures |v.Found()| == |set id | id in v.store.instances && IsFound(v, id)|
  {
    hide IsFound, View.Visible, View.Instances;
    assert (set id | id in v.store.instances && IsFound(v, id)) == v.VisibleIds() by {
      forall id ensures v.Visible(id) <==> IsFound(v, id) { VisibleIsFoundExactly(v, id); }
    }
    AscendingCounts(v.VisibleIds());
    VisibleCount(v, Ascending(v.VisibleIds()));
  }

  lemma {:induction false} VisibleCount(v: View, ids: seq<string>)
    requires forall id :: id in ids ==> v.Visible(id)
    ensures |v.Instances(ids)| == |ids|
  {
    hide View.Visible, InstanceFrom;
    if ids != [] {
      assert ids == ids[..|ids| - 1] + [ids[|ids| - 1]];
      VisibleCount(v, ids[..|ids| - 1]);
    }
  }

  lemma AscendingCounts(s: set<string>)
    ensures |Ascending(s)| == |s|
  {
    var r := Ascending(s);
    AscendingIsDistinct(s);
    DistinctCount(r);
    assert (set x | x in r) == s;
  }

  lemma {:induction false} DistinctCount(r: seq<string>)
    requires forall i, j :: 0 <= i < j < |r| ==> r[i] != r[j]
    ensures |set x | x in r| == |r|
  {
    if r != [] {
      var init, last := r[..|r| - 1], r[|r| - 1];
      DistinctCount(init);
      assert last !in init;
      assert (set x | x in r) == (set x | x in init) + {last};
    }
  }

  lemma {:induction false} InstanceIsListed(v: View, ids: seq<string>, id: string)
    requires id in ids && v.Visible(id)
    ensures InstanceFrom(v.Entry(id)).value in v.Instances(ids)
  {
    hide InstanceFrom;
    if ids[|ids| - 1] != id {
      var init, last := ids[..|ids| - 1], ids[|ids| - 1];
      assert ids == init + [last];
      InstanceIsListed(v, init, id);
    }
  }

  /** What is visible is found. */
  lemma VisibleIsFound(v: View, id: string)
    requires v.Visible(id)
    ensures InstanceFrom(v.Entry(id)).value in v.Found()
  {
    hide InstanceFrom, View.Instances;
    InstanceIsListed(v, Ascending(v.VisibleIds()), id);
  }

  lemma DiscoveryExists(v: View) returns (result: seq<ServiceInstance>)
    ensures v.IsDiscovery(result)
  {
    hide View.Found, SortKey;
    ByKeyIsOrder(SortKey);
    result := SortedExists(v.Found(), ByKey(SortKey));
  }

  /** What another agent sees of a registration with an address, in its environment. */
  lemma RegisteredIsVisible(v: View, settings: Settings, run: string, request: RegisterRequest, id: string, now: int)
    requires request.Valid() && TrimSpace(settings.hostIp) != "" && TrimSpace(request.env) == TrimSpace(v.env)
    requires id in v.store.instances && id in v.passing
    requires v.store.instances[id] == RegistrationFor(settings, NewService(settings, run, request, id, now))
    ensures v.Visible(id)
    ensures var i := InstanceFrom(v.Entry(id)).value;
            && i.instanceId == id && i.name == request.name && i.namespace == request.namespace
            && i.port == request.port
            && i.address == TrimSpace(settings.hostIp)
  {
    hide RegisterRequest.Valid, RoutePrefixes, RouteConfigRef, BuildAgentId, LeaseCheckIdFor, Canonical, Split,
         ParsePositiveInt, ClusterFromTags, Join, TrimSpace;
    TrimSpaceFixes(settings.hostIp);
    ValidPort(request);
  }

  lemma ValidPort(request: RegisterRequest)
    requires request.Valid()
    ensures request.port > 0
  {
  }

  /** The two are ordered by the same text of name, namespace, address and port. */
  predicate Tie(a: ServiceInstance, b: ServiceInstance) {
    a.name + "|" + a.namespace + "|" + a.address + "|" + Decimal(a.port)
    == b.name + "|" + b.namespace + "|" + b.address + "|" + Decimal(b.port)
  }

  /** Instances tie exactly when their ports agree and so does what precedes them; so
      without separators in namespace and address exactly when all four fields agree, and
      never when they differ in just one of the four. */
  lemma TieExactlyWhen(a: ServiceInstance, b: ServiceInstance)
    ensures Tie(a, b) <==> a.port == b.port && a.name + "|" + a.namespace + "|" + a.address
                                            == b.name + "|" + b.namespace + "|" + b.address
    ensures '|' !in a.namespace && '|' !in b.namespace && '|' !in a.address && '|' !in b.address ==>
              (Tie(a, b) <==>
                 a.name == b.name && a.namespace == b.namespace && a.address == b.address && a.port == b.port)
    ensures forall port :: a.(port := port) == b && a.port != b.port ==> !Tie(a, b)
    ensures forall address :: a.(address := address) == b && a.address != b.address ==> !Tie(a, b)
    ensures forall namespace :: a.(namespace := namespace) == b && a.namespace != b.namespace ==> !Tie(a, b)
    ensures forall name :: a.(name := name) == b && a.name != b.name ==> !Tie(a, b)
  {
    var x, y := a.name + "|" + a.namespace + "|" + a.address, b.name + "|" + b.namespace + "|" + b.address;
    if Tie(a, b) {
      assert x + ['|'] + Decimal(a.port) == y + ['|'] + Decimal(b.port);
      SplitAtLast(x, Decimal(a.port), y, Decimal(b.port), '|');
      DecimalIsInjective(a.port, b.port);
      OneDifferenceShows(a, b);
    }
    hide Decimal;
    if Tie(a, b) && '|' !in a.namespace && '|' !in b.namespace && '|' !in a.address && '|' !in b.address {
      SplitAtLast(a.name + "|" + a.namespace, a.address, b.name + "|" + b.namespace, b.address, '|');
      SplitAtLast(a.name, a.namespace, b.name, b.namespace, '|');
    }
  }

  lemma OneDifferenceShows(a: ServiceInstance, b: ServiceInstance)
    requires a.name + "|" + a.namespace + "|" + a.address == b.name + "|" + b.namespace + "|" + b.address
    ensures a.name == b.name && a.namespace == b.namespace ==> a.address == b.address
    ensures a.name == b.name && a.address == b.address ==> a.namespace == b.namespace
    ensures a.namespace == b.namespace && a.address == b.address ==> a.name == b.name
  {
    var x := a.name + "|" + a.namespace + "|" + a.address;
    if a.name == b.name && a.namespace == b.namespace {
      assert a.address == x[|a.name| + |a.namespace| + 2..] == b.address;
    }
    if a.name == b.name && a.address == b.address {
      assert |a.namespace| == |b.namespace|;
      assert a.namespace == x[|a.name| + 1..|a.name| + 1 + |a.namespace|] == b.namespace;
    }
    if a.namespace == b.namespace && a.address == b.address {
      assert |a.name| == |b.name|;
      assert a.name == x[..|a.name|] == b.name;
    }
  }

  lemma TiesShareTheKey(a: ServiceInstance, b: ServiceInstance)
    ensures Tie(a, b) <==> SortKey(a) == SortKey(b)
  {
  }

  /** Discover returns the same list for every order in which Consul's answers come
      exactly when instances that tie are identical. */
  lemma DiscoveryIsDeterminedExactlyWhen(v: View, result: seq<ServiceInstance>)
    requires v.IsDiscovery(result)
    ensures (forall other :: v.IsDiscovery(other) ==> other == result)
       <==> forall i, j :: 0 <= i < |result| && 0 <= j < |result| && Tie(result[i], result[j])
              ==> result[i] == result[j]
  {
    hide View.Found, SortKey, Tie;
    var leq := ByKey(SortKey);
    ByKeyIsOrder(SortKey);
    UniqueExactlyWithoutTies(result, leq);
    forall i, j | 0 <= i < |result| && 0 <= j < |result|
      ensures leq(result[i], result[j]) && leq(result[j], result[i]) <==> Tie(result[i], result[j])
    {
      ByKeyTies(SortKey, result[i], result[j]);
      TiesShareTheKey(result[i], result[j]);
    }
    assert forall other :: v.IsDiscovery(other)
             <==> SortedBy(other, leq) && multiset(other) == multiset(result);
  }
}
