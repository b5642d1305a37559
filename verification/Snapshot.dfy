/** Turning discovered instances into the resources Envoy is served. */
module Snapshot {
  import opened Text
  import opened Sorting
  import opened Model

  // ------------------------------------------------------------- resources

  const UINT32 := 0x1_0000_0000
  const UINT64 := 0x1_0000_0000_0000_0000

  type uint32 = n: int | 0 <= n < UINT32
  type uint64 = n: int | 0 <= n < UINT64

  /** Go's conversion to uint32 keeps the low 32 bits. */
  function ToUint32(n: int): uint32 {
    n % UINT32
  }

  datatype Endpoint = Endpoint(address: string, port: uint32, weight: uint32)
  datatype Bucket = Bucket(zone: string, priority: nat, endpoints: seq<Endpoint>)
  datatype LoadAssignment = LoadAssignment(clusterName: string, buckets: seq<Bucket>)
  datatype VirtualHost = VirtualHost(name: string, domains: seq<string>, cluster: string)

  /** A published snapshot. Clusters and load assignments are indexed by name, so of
      several with one name the last stays. */
  datatype Resources = Resources(
    version: nat, clusters: set<string>, assignments: map<string, LoadAssignment>, virtualHosts: seq<VirtualHost>)

  datatype Summary = Summary(
    version: nat, services: seq<string>, clusterCount: nat, endpointCount: nat, publishedAt: int)

  datatype BuilderSettings = BuilderSettings(
    clusterNamePrefix: string, localCluster: string, listenerAddressParses: bool)

  // ----------------------------------------------------------------- groups

  datatype ServiceGroup = ServiceGroup(
    name: string, namespace: string, dns: string, port: GoInt, instances: seq<ServiceInstance>)

  function GroupKey(i: ServiceInstance): string {
    i.name + "|" + i.namespace + "|" + Decimal(i.port)
  }

  function KeyOfGroup(g: ServiceGroup): string {
    g.name + "|" + g.namespace + "|" + Decimal(g.port)
  }

  /** The group of the instances with one key; its first instance lends the header. */
  function GroupFor(instances: seq<ServiceInstance>, key: string): ServiceGroup
    requires WithKey(instances, GroupKey, key) != []
  {
    var members := WithKey(instances, GroupKey, key);
    ServiceGroup(members[0].name, members[0].namespace, members[0].dns, members[0].port, members)
  }

  ghost function GroupKeys(instances: seq<ServiceInstance>): seq<string> {
    Ascending(KeysOf(instances, GroupKey))
  }

  lemma GroupKeysHaveMembers(instances: seq<ServiceInstance>)
    ensures forall k :: k in KeysOf(instances, GroupKey) ==> WithKey(instances, GroupKey, k) != []
  {
    forall k | k in KeysOf(instances, GroupKey)
      ensures WithKey(instances, GroupKey, k) != []
    {
      WithKeyMembers(instances, GroupKey, k);
    }
  }

  ghost function Groups(instances: seq<ServiceInstance>): (r: seq<ServiceGroup>)
    ensures |r| == |GroupKeys(instances)|
  {
    GroupKeysHaveMembers(instances);
    var keys := GroupKeys(instances);
    seq(|keys|, n requires 0 <= n < |keys| => assert keys[n] in keys; GroupFor(instances, keys[n]))
  }

  lemma GroupHeader(instances: seq<ServiceInstance>, key: string)
    requires WithKey(instances, GroupKey, key) != []
    ensures KeyOfGroup(GroupFor(instances, key)) == key
  {
    WithKeyMembers(instances, GroupKey, key);
    assert WithKey(instances, GroupKey, key)[0] in WithKey(instances, GroupKey, key);
  }

  /** The table of groups GroupInstances fills. */
  ghost predicate GroupTable(instances: seq<ServiceInstance>, grouped: map<string, ServiceGroup>) {
    && grouped.Keys == KeysOf(instances, GroupKey)
    && forall k :: k in grouped ==>
         WithKey(instances, GroupKey, k) != [] && grouped[k] == GroupFor(instances, k)
  }

  lemma GroupTableGrows(
    instances: seq<ServiceInstance>, grouped: map<string, ServiceGroup>, i: ServiceInstance, group: ServiceGroup)
    requires GroupTable(instances, grouped)
    requires group == if GroupKey(i) in grouped
               then grouped[GroupKey(i)].(instances := grouped[GroupKey(i)].instances + [i])
                      else ServiceGroup(i.name, i.namespace, i.dns, i.port, [i])
    ensures GroupTable(instances + [i], grouped[GroupKey(i) := group])
  {
    hide GroupKey, WithKey, KeysOf;
    var after, key := grouped[GroupKey(i) := group], GroupKey(i);
    forall k | k in after
      ensures WithKey(instances + [i], GroupKey, k) != [] && after[k] == GroupFor(instances + [i], k)
    {
      WithKeySnoc(instances, GroupKey, i, k);
      WithKeyMembers(instances, GroupKey, k);
    }
    WithKeySnoc(instances, GroupKey, i, key);
  }

  method GroupInstances(instances: seq<ServiceInstance>) returns (result: seq<ServiceGroup>)
    ensures result == Groups(instances)
  {
    hide GroupKey, KeyOfGroup, GroupTable, Groups, GroupFor;
    var grouped: map<string, ServiceGroup> := map[];
    assert GroupTable([], grouped) by {
      NoGroups();
    }
    for n := 0 to |instances|
      invariant GroupTable(instances[..n], grouped)
    {
      var instance := instances[n];
      var key := GroupKey(instance);
      assert instances[..n + 1] == instances[..n] + [instance];
      ghost var before := grouped;
      if key !in grouped {
        grouped := grouped[key := ServiceGroup(instance.name, instance.namespace, instance.dns, instance.port, [])];
      }
      var group := grouped[key].(instances := grouped[key].instances + [instance]);
      grouped := grouped[key := group];
      assert grouped == before[key := group];
      GroupTableGrows(instances[..n], before, instance, group);
    }
    assert instances[..|instances|] == instances;
    ghost var keys;
    result, keys := ValuesOf(grouped);
    ByKeyIsOrder(KeyOfGroup);
    ghost var listed := result;
    result := SortFunc(result, ByKey(KeyOfGroup));
    GroupsSorted(instances, grouped, keys, listed, result);
  }

  lemma NoGroups()
    ensures GroupTable([], map[])
  {
  }

  /** The values of a table, in whatever order ranging over it yields them. */
  method ValuesOf<T>(table: map<string, T>) returns (values: seq<T>, ghost keys: seq<string>)
    ensures forall k :: k in keys <==> k in table
    ensures forall i, j :: 0 <= i < j < |keys| ==> keys[i] != keys[j]
    ensures |values| == |keys| && forall i :: 0 <= i < |keys| ==> keys[i] in table && values[i] == table[keys[i]]
  {
    values, keys := [], [];
    var left := table.Keys;
    while left != {}
      invariant left <= table.Keys
      invariant |keys| == |values|
      invariant forall k :: k in keys <==> k in table && k !in left
      invariant forall i, j :: 0 <= i < j < |keys| ==> keys[i] != keys[j]
      invariant forall i :: 0 <= i < |keys| ==> keys[i] in keys && values[i] == table[keys[i]]
      decreases left
    {
      var key :| key in left;
      assert forall i :: 0 <= i < |keys| ==> keys[i] in keys && keys[i] != key;
      left := left - {key};
      values := values + [table[key]];
      keys := keys + [key];
    }
  }

  /** Listing a table along two lists of all its keys gives the same members. */
  lemma SameGroups<T>(table: map<string, T>, keys: seq<string>, a: seq<T>, keys': seq<string>, b: seq<T>)
    requires |a| == |keys| && |b| == |keys'|
    requires forall k :: k in keys <==> k in keys'
    requires forall i :: 0 <= i < |keys| ==> keys[i] in table && a[i] == table[keys[i]]
    requires forall i :: 0 <= i < |keys'| ==> keys'[i] in table && b[i] == table[keys'[i]]
    ensures forall g :: g in a <==> g in b
  {
    forall g
      ensures g in a <==> g in b
    {
      if g in a {
        var i :| 0 <= i < |a| && a[i] == g;
        assert keys[i] in keys';
        var j :| 0 <= j < |keys'| && keys'[j] == keys[i];
        assert b[j] == g;
      }
      if g in b {
        var j :| 0 <= j < |b| && b[j] == g;
        assert keys'[j] in keys;
        var i :| 0 <= i < |keys| && keys[i] == keys'[j];
        assert a[i] == g;
      }
    }
  }

  lemma GroupsSorted(
    instances: seq<ServiceInstance>, grouped: map<string, ServiceGroup>, keys: seq<string>,
    listed: seq<ServiceGroup>, sorted: seq<ServiceGroup>)
    requires GroupTable(instances, grouped)
    requires forall k :: k in keys <==> k in grouped
    requires forall i, j :: 0 <= i < j < |keys| ==> keys[i] != keys[j]
    requires |listed| == |keys| && forall i :: 0 <= i < |keys| ==> keys[i] in grouped && listed[i] == grouped[keys[i]]
    requires multiset(sorted) == multiset(listed) && SortedBy(sorted, ByKey(KeyOfGroup))
    ensures sorted == Groups(instances)
  {
    hide GroupKey, KeyOfGroup, GroupFor;
    var spec, ascending := Groups(instances), GroupKeys(instances);
    GroupKeysHaveMembers(instances);
    forall i | 0 <= i < |keys|
      ensures KeyOfGroup(listed[i]) == keys[i]
    {
      GroupHeader(instances, keys[i]);
    }
    forall i | 0 <= i < |spec|
      ensures ascending[i] in grouped && KeyOfGroup(spec[i]) == ascending[i] && spec[i] == grouped[ascending[i]]
    {
      assert ascending[i] in ascending;
      GroupHeader(instances, ascending[i]);
    }
    SameGroups(grouped, keys, listed, ascending, spec);
    hide GroupTable, Groups;
    SortingYields(listed, sorted, spec, KeyOfGroup);
  }

  // -------------------------------------------------------------- localities

  function ToEndpoint(i: ServiceInstance): Endpoint {
    Endpoint(i.address, ToUint32(i.port), ToUint32(i.weight))
  }

  function PriorityIn(localCluster: string, i: ServiceInstance): nat {
    if TrimSpace(i.cluster) == TrimSpace(localCluster) then 0 else 1
  }

  function ZoneKey(zone: string, priority: nat): string {
    zone + "|" + Decimal(priority)
  }

  function PriorityKey(priority: nat, zone: string): string {
    Decimal(priority) + "|" + zone
  }

  function KeyOfBucket(b: Bucket): string {
    PriorityKey(b.priority, b.zone)
  }

  /** The key instances are put into buckets by. */
  function LocalityKey(localCluster: string): ServiceInstance -> string {
    (i: ServiceInstance) => ZoneKey(i.zone, PriorityIn(localCluster, i))
  }

  lemma LocalityKeysAgree(zone: string, priority: nat, zone': string, priority': nat)
    requires priority <= 1 && priority' <= 1
    ensures ZoneKey(zone, priority) == ZoneKey(zone', priority') <==> zone == zone' && priority == priority'
    ensures PriorityKey(priority, zone) == PriorityKey(priority', zone') <==> zone == zone' && priority == priority'
  {
    if ZoneKey(zone, priority) == ZoneKey(zone', priority') {
      SplitAtLast(zone, Decimal(priority), zone', Decimal(priority'), '|');
      DecimalIsInjective(priority, priority');
    }
    if PriorityKey(priority, zone) == PriorityKey(priority', zone') {
      SplitAtFirst(Decimal(priority), zone, Decimal(priority'), zone', '|');
      DecimalIsInjective(priority, priority');
    }
  }

  /** The instances of one zone on one side of the local cluster boundary. */
  function InLocality(
    localCluster: string, instances: seq<ServiceInstance>, zone: string, priority: nat): seq<ServiceInstance>
  {
    if instances == [] then []
    else
      var last := instances[|instances| - 1];
      InLocality(localCluster, instances[..|instances| - 1], zone, priority)
      + (if last.zone == zone && PriorityIn(localCluster, last) == priority then [last] else [])
  }

  lemma {:induction false} InLocalityIsWithKey(
    localCluster: string, instances: seq<ServiceInstance>, zone: string, priority: nat)
    requires priority <= 1
    ensures InLocality(localCluster, instances, zone, priority)
         == WithKey(instances, LocalityKey(localCluster), ZoneKey(zone, priority))
  {
    hide ZoneKey;
    if instances != [] {
      var last := instances[|instances| - 1];
      InLocalityIsWithKey(localCluster, instances[..|instances| - 1], zone, priority);
      LocalityKeysAgree(last.zone, PriorityIn(localCluster, last), zone, priority);
    }
  }

  /** The key buckets are put in order by. */
  function LocalityOrderKey(localCluster: string): ServiceInstance -> string {
    (i: ServiceInstance) => PriorityKey(PriorityIn(localCluster, i), i.zone)
  }

  lemma {:induction false} InLocalityIsWithOrderKey(
    localCluster: string, instances: seq<ServiceInstance>, zone: string, priority: nat)
    requires priority <= 1
    ensures InLocality(localCluster, instances, zone, priority)
         == WithKey(instances, LocalityOrderKey(localCluster), PriorityKey(priority, zone))
  {
    hide PriorityKey;
    if instances != [] {
      var last := instances[|instances| - 1];
      InLocalityIsWithOrderKey(localCluster, instances[..|instances| - 1], zone, priority);
      LocalityKeysAgree(last.zone, PriorityIn(localCluster, last), zone, priority);
    }
  }

  function BucketFor(localCluster: string, instances: seq<ServiceInstance>, key: string): Bucket
    requires WithKey(instances, LocalityOrderKey(localCluster), key) != []
  {
    var members := WithKey(instances, LocalityOrderKey(localCluster), key);
    Bucket(members[0].zone, PriorityIn(localCluster, members[0]), Map(ToEndpoint, members))
  }

  ghost function BucketKeys(localCluster: string, instances: seq<ServiceInstance>): seq<string> {
    Ascending(KeysOf(instances, LocalityOrderKey(localCluster)))
  }

  lemma BucketKeysHaveMembers(localCluster: string, instances: seq<ServiceInstance>)
    ensures forall k :: k in KeysOf(instances, LocalityOrderKey(localCluster)) ==>
              WithKey(instances, LocalityOrderKey(localCluster), k) != []
  {
    forall k | k in KeysOf(instances, LocalityOrderKey(localCluster))
      ensures WithKey(instances, LocalityOrderKey(localCluster), k) != []
    {
      WithKeyMembers(instances, LocalityOrderKey(localCluster), k);
    }
  }

  ghost function Buckets(localCluster: string, instances: seq<ServiceInstance>): (r: seq<Bucket>)
    ensures |r| == |BucketKeys(localCluster, instances)|
  {
    BucketKeysHaveMembers(localCluster, instances);
    var keys := BucketKeys(localCluster, instances);
    seq(|keys|, n requires 0 <= n < |keys| => assert keys[n] in keys; BucketFor(localCluster, instances, keys[n]))
  }

  /** A bucket is the endpoints of its zone and priority, under the key of both. */
  lemma BucketFacts(localCluster: string, instances: seq<ServiceInstance>, key: string)
    requires WithKey(instances, LocalityOrderKey(localCluster), key) != []
    ensures var b := BucketFor(localCluster, instances, key);
            && KeyOfBucket(b) == key && b.priority <= 1
            && b.endpoints == Map(ToEndpoint, InLocality(localCluster, instances, b.zone, b.priority))
            && b.endpoints != []
  {
    hide PriorityKey;
    var members := WithKey(instances, LocalityOrderKey(localCluster), key);
    WithKeyMembers(instances, LocalityOrderKey(localCluster), key);
    assert members[0] in members;
    InLocalityIsWithOrderKey(localCluster, instances, members[0].zone, PriorityIn(localCluster, members[0]));
  }

  /** The table of buckets BuildLoadAssignment has filled. */
  ghost predicate BucketTable(localCluster: string, instances: seq<ServiceInstance>, buckets: map<string, Bucket>) {
    && buckets.Keys == KeysOf(instances, LocalityKey(localCluster))
    && forall k :: k in buckets ==>
         && k == ZoneKey(buckets[k].zone, buckets[k].priority) && buckets[k].priority <= 1
         && buckets[k].endpoints == Map(ToEndpoint, WithKey(instances, LocalityKey(localCluster), k))
  }

  lemma BucketTableGrows(
    localCluster: string, instances: seq<ServiceInstance>, buckets: map<string, Bucket>, i: ServiceInstance,
    bucket: Bucket)
    requires BucketTable(localCluster, instances, buckets)
    requires var key := LocalityKey(localCluster)(i);
             bucket == if key in buckets then buckets[key].(endpoints := buckets[key].endpoints + [ToEndpoint(i)])
                       else Bucket(i.zone, PriorityIn(localCluster, i), [ToEndpoint(i)])
    ensures BucketTable(localCluster, instances + [i], buckets[LocalityKey(localCluster)(i) := bucket])
  {
    hide ZoneKey, WithKey, KeysOf, ToEndpoint;
    var byLocality := LocalityKey(localCluster);
    var key := byLocality(i);
    var after := buckets[key := bucket];
    WithKeySnoc(instances, byLocality, i, key);
    forall k | k in after
      ensures k == ZoneKey(after[k].zone, after[k].priority) && after[k].priority <= 1
      ensures after[k].endpoints == Map(ToEndpoint, WithKey(instances + [i], byLocality, k))
    {
      WithKeySnoc(instances, byLocality, i, k);
      WithKeyMembers(instances, byLocality, k);
    }
  }

  lemma NoBuckets(localCluster: string)
    ensures BucketTable(localCluster, [], map[])
  {
  }

  method BuildLoadAssignment(localCluster: string, clusterName: string, instances: seq<ServiceInstance>)
    returns (assignment: LoadAssignment, count: nat)
    ensures assignment == LoadAssignment(clusterName, Buckets(localCluster, instances))
    ensures count == |instances|
  {
    hide ZoneKey, PriorityKey, ToUint32, BucketTable, Buckets, KeyOfBucket;
    var buckets: map<string, Bucket> := map[];
    NoBuckets(localCluster);
    count := 0;
    for n := 0 to |instances|
      invariant count == n
      invariant BucketTable(localCluster, instances[..n], buckets)
    {
      var instance := instances[n];
      var priority := 1;
      if TrimSpace(instance.cluster) == TrimSpace(localCluster) {
        priority := 0;
      }
      var key := ZoneKey(instance.zone, priority);
      assert instances[..n + 1] == instances[..n] + [instance];
      ghost var before := buckets;
      if key !in buckets {
        buckets := buckets[key := Bucket(instance.zone, priority, [])];
      }
      var endpoint := Endpoint(instance.address, ToUint32(instance.port), ToUint32(instance.weight));
      var bucket := buckets[key].(endpoints := buckets[key].endpoints + [endpoint]);
      buckets := buckets[key := bucket];
      assert buckets == before[key := bucket];
      BucketTableGrows(localCluster, instances[..n], before, instance, bucket);
      count := count + 1;
    }
    assert instances[..|instances|] == instances;
    var localities;
    ghost var keys;
    localities, keys := ValuesOf(buckets);
    ByKeyIsOrder(KeyOfBucket);
    ghost var listed := localities;
    localities := SortFunc(localities, ByKey(KeyOfBucket));
    BucketsSorted(localCluster, instances, buckets, keys, listed, localities);
    assignment := LoadAssignment(clusterName, localities);
  }

  /** A bucket of the table is the bucket of the same zone and priority in the
      ordered list. */
  lemma TableBucket(localCluster: string, instances: seq<ServiceInstance>, buckets: map<string, Bucket>, k: string)
    requires BucketTable(localCluster, instances, buckets) && k in buckets
    ensures KeyOfBucket(buckets[k]) in KeysOf(instances, LocalityOrderKey(localCluster))
    ensures WithKey(instances, LocalityOrderKey(localCluster), KeyOfBucket(buckets[k])) != []
    ensures BucketFor(localCluster, instances, KeyOfBucket(buckets[k])) == buckets[k]
  {
    hide ZoneKey, PriorityKey;
    var b := buckets[k];
    InLocalityIsWithKey(localCluster, instances, b.zone, b.priority);
    InLocalityIsWithOrderKey(localCluster, instances, b.zone, b.priority);
    WithKeyMembers(instances, LocalityKey(localCluster), k);
    WithKeyMembers(instances, LocalityOrderKey(localCluster), KeyOfBucket(b));
    var members := InLocality(localCluster, instances, b.zone, b.priority);
    assert members[0] in members;
    LocalityKeysAgree(members[0].zone, PriorityIn(localCluster, members[0]), b.zone, b.priority);
  }

  lemma OrderKeyHasBucket(
    localCluster: string, instances: seq<ServiceInstance>, buckets: map<string, Bucket>, key: string)
    returns (k: string)
    requires BucketTable(localCluster, instances, buckets)
    requires key in KeysOf(instances, LocalityOrderKey(localCluster))
    ensures k in buckets && KeyOfBucket(buckets[k]) == key
  {
    hide ZoneKey, PriorityKey;
    var i :| 0 <= i < |instances| && LocalityOrderKey(localCluster)(instances[i]) == key;
    var priority := PriorityIn(localCluster, instances[i]);
    k := ZoneKey(instances[i].zone, priority);
    assert LocalityKey(localCluster)(instances[i]) == k;
    LocalityKeysAgree(buckets[k].zone, buckets[k].priority, instances[i].zone, priority);
  }

  lemma BucketsSorted(
    localCluster: string, instances: seq<ServiceInstance>, buckets: map<string, Bucket>, keys: seq<string>,
    listed: seq<Bucket>, sorted: seq<Bucket>)
    requires BucketTable(localCluster, instances, buckets)
    requires forall k :: k in keys <==> k in buckets
    requires forall i, j :: 0 <= i < j < |keys| ==> keys[i] != keys[j]
    requires |listed| == |keys| && forall i :: 0 <= i < |keys| ==> keys[i] in buckets && listed[i] == buckets[keys[i]]
    requires multiset(sorted) == multiset(listed) && SortedBy(sorted, ByKey(KeyOfBucket))
    ensures sorted == Buckets(localCluster, instances)
  {
    hide ZoneKey, PriorityKey, KeyOfBucket, BucketFor;
    var spec, ascending := Buckets(localCluster, instances), BucketKeys(localCluster, instances);
    BucketKeysHaveMembers(localCluster, instances);
    forall i | 0 <= i < |spec|
      ensures ascending[i] in ascending && KeyOfBucket(spec[i]) == ascending[i]
      ensures spec[i] == BucketFor(localCluster, instances, ascending[i])
    {
      assert ascending[i] in ascending;
      BucketFacts(localCluster, instances, ascending[i]);
    }
    forall b
      ensures b in listed <==> b in spec
    {
      if b in listed {
        var i :| 0 <= i < |listed| && listed[i] == b;
        TableBucket(localCluster, instances, buckets, keys[i]);
        assert KeyOfBucket(b) in ascending;
        var j :| 0 <= j < |ascending| && ascending[j] == KeyOfBucket(b);
        assert spec[j] == b;
      }
      if b in spec {
        var j :| 0 <= j < |spec| && spec[j] == b;
        var k := OrderKeyHasBucket(localCluster, instances, buckets, ascending[j]);
        TableBucket(localCluster, instances, buckets, k);
        var i :| 0 <= i < |keys| && keys[i] == k;
        assert listed[i] == b;
      }
    }
    SortingYields(listed, sorted, spec, KeyOfBucket);
  }
}
