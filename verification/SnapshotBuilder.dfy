/** The snapshot builder, and what its snapshots say about the instances they were
    built from. */
module SnapshotBuilder {
  import opened Text
  import opened Sorting
  import opened Model
  import opened Snapshot

  // ---------------------------------------------------------- specification

  function ClusterName(prefix: string, name: string, namespace: string, port: int): string {
    prefix + "." + TrimSpace(name) + "." + TrimSpace(namespace) + "." + Decimal(port)
  }

  function ClusterOf(settings: BuilderSettings): ServiceInstance -> string {
    (i: ServiceInstance) => ClusterName(settings.clusterNamePrefix, i.name, i.namespace, i.port)
  }

  function GroupCluster(settings: BuilderSettings, g: ServiceGroup): string {
    ClusterName(settings.clusterNamePrefix, g.name, g.namespace, g.port)
  }

  ghost function GroupAssignment(settings: BuilderSettings, g: ServiceGroup): LoadAssignment {
    LoadAssignment(GroupCluster(settings, g), Buckets(settings.localCluster, g.instances))
  }

  function GroupHost(settings: BuilderSettings, g: ServiceGroup): VirtualHost {
    VirtualHost(GroupCluster(settings, g), [g.dns, g.dns + ":" + Decimal(g.port)], GroupCluster(settings, g))
  }

  /** Indexing by name: the last of several with one name stays. */
  function Indexed(assignments: seq<LoadAssignment>): map<string, LoadAssignment> {
    if assignments == [] then map[]
    else
      var last := assignments[|assignments| - 1];
      Indexed(assignments[..|assignments| - 1])[last.clusterName := last]
  }

  ghost function Assignments(settings: BuilderSettings, groups: seq<ServiceGroup>): (r: seq<LoadAssignment>)
    ensures |r| == |groups|
  {
    seq(|groups|, n requires 0 <= n < |groups| => GroupAssignment(settings, groups[n]))
  }

  function Hosts(settings: BuilderSettings, groups: seq<ServiceGroup>): (r: seq<VirtualHost>)
    ensures |r| == |groups|
  {
    seq(|groups|, n requires 0 <= n < |groups| => GroupHost(settings, groups[n]))
  }

  function ClusterNames(settings: BuilderSettings, groups: seq<ServiceGroup>): set<string> {
    set g | g in groups :: GroupCluster(settings, g)
  }

  ghost function Built(settings: BuilderSettings, version: nat, instances: seq<ServiceInstance>): Resources {
    var groups := Groups(instances);
    Resources(version, ClusterNames(settings, groups), Indexed(Assignments(settings, groups)), Hosts(settings, groups))
  }

  function ServiceLabels(groups: seq<ServiceGroup>): (r: seq<string>)
    ensures |r| == |groups|
  {
    seq(|groups|, n requires 0 <= n < |groups| => groups[n].name + "." + groups[n].namespace)
  }

  function InstanceCount(groups: seq<ServiceGroup>): nat {
    if groups == [] then 0 else InstanceCount(groups[..|groups| - 1]) + |groups[|groups| - 1].instances|
  }

  lemma NoGroupsYet(settings: BuilderSettings)
    ensures ClusterNames(settings, []) == {} && Assignments(settings, []) == [] && Hosts(settings, []) == []
    ensures ServiceLabels([]) == [] && InstanceCount([]) == 0
  {
  }

  lemma OneMoreGroup(settings: BuilderSettings, groups: seq<ServiceGroup>, g: ServiceGroup)
    ensures ClusterNames(settings, groups + [g]) == ClusterNames(settings, groups) + {GroupCluster(settings, g)}
    ensures Assignments(settings, groups + [g]) == Assignments(settings, groups) + [GroupAssignment(settings, g)]
    ensures Hosts(settings, groups + [g]) == Hosts(settings, groups) + [GroupHost(settings, g)]
    ensures ServiceLabels(groups + [g]) == ServiceLabels(groups) + [g.name + "." + g.namespace]
    ensures InstanceCount(groups + [g]) == InstanceCount(groups) + |g.instances|
  {
    hide GroupCluster, GroupAssignment, GroupHost;
    assert (groups + [g])[..|groups|] == groups;
    assert g in groups + [g] && forall h :: h in groups ==> h in groups + [g];
  }

  // ---------------------------------------------------------------- builder

  class Builder {
    const settings: BuilderSettings
    var version: uint64
    var summary: Summary

    /** A blank cluster name prefix falls back to the default. */
    constructor (settings: BuilderSettings)
      ensures this.settings == settings.(clusterNamePrefix :=
                if TrimSpace(settings.clusterNamePrefix) == "" then "cluster" else settings.clusterNamePrefix)
      ensures version == 0 && summary == Summary(0, [], 0, 0, 0)
    {
      this.settings := settings.(clusterNamePrefix :=
        if TrimSpace(settings.clusterNamePrefix) == "" then "cluster" else settings.clusterNamePrefix);
      version := 0;
      summary := Summary(0, [], 0, 0, 0);
    }

    /** Builds and numbers the next snapshot. A listener address that does not parse
        fails the build before anything changes. */
    method Build(instances: seq<ServiceInstance>, publishedAt: int) returns (result: Result<(Resources, Summary)>)
      modifies this
      ensures !settings.listenerAddressParses ==>
                result == Err(ListenerAddressInvalid) && version == old(version) && summary == old(summary)
      ensures settings.listenerAddressParses ==>
                && result.Ok? && result.value.0 == Built(settings, version, instances)
                && result.value.1 == summary
                && version == (if old(version) == 0xFFFF_FFFF_FFFF_FFFF then 0 else old(version) + 1)
                && summary.version == version && summary.publishedAt == publishedAt
                && summary.clusterCount == |Groups(instances)|
                && summary.endpointCount == |instances|
                && SortedBy(summary.services, NotAfter)
                && multiset(summary.services) == multiset(ServiceLabels(Groups(instances)))
    {
      hide Groups, Buckets, ClusterName, Decimal, ToEndpoint, ClusterNames, Assignments, Hosts, ServiceLabels,
           InstanceCount, Indexed;
      var grouped := GroupInstances(instances);
      var clusters: set<string> := {};
      var endpoints: seq<LoadAssignment> := [];
      var virtualHosts: seq<VirtualHost> := [];
      var serviceNames: seq<string> := [];
      var endpointCount := 0;
      NoGroupsYet(settings);
      for n := 0 to |grouped|
        invariant clusters == ClusterNames(settings, grouped[..n])
        invariant endpoints == Assignments(settings, grouped[..n])
        invariant virtualHosts == Hosts(settings, grouped[..n])
        invariant serviceNames == ServiceLabels(grouped[..n])
        invariant endpointCount == InstanceCount(grouped[..n])
        modifies {}
      {
        var group := grouped[n];
        assert grouped[..n + 1] == grouped[..n] + [group];
        OneMoreGroup(settings, grouped[..n], group);
        var clusterName := ClusterName(settings.clusterNamePrefix, group.name, group.namespace, group.port);
        clusters := clusters + {clusterName};
        var assignment, count := BuildLoadAssignment(settings.localCluster, clusterName, group.instances);
        endpoints := endpoints + [assignment];
        endpointCount := endpointCount + count;
        virtualHosts := virtualHosts
                        + [VirtualHost(clusterName, [group.dns, group.dns + ":" + Decimal(group.port)], clusterName)];
        serviceNames := serviceNames + [group.name + "." + group.namespace];
      }
      assert grouped[..|grouped|] == grouped;
      if !settings.listenerAddressParses {
        return Err(ListenerAddressInvalid);
      }
      version := (version + 1) % UINT64;
      var snapshot := Resources(version, clusters, Indexed(endpoints), virtualHosts);
      NotAfterIsOrder();
      serviceNames := SortFunc(serviceNames, NotAfter);
      GroupsCountInstances(instances);
      summary := Summary(version, serviceNames, |grouped|, endpointCount, publishedAt);
      return Ok((snapshot, summary));
    }
  }

  // ----------------------------------------------------------- conservation

  function Memberships(groups: seq<ServiceGroup>): (r: seq<seq<ServiceInstance>>)
    ensures |r| == |groups|
  {
    seq(|groups|, n requires 0 <= n < |groups| => groups[n].instances)
  }

  function EndpointLists(buckets: seq<Bucket>): (r: seq<seq<Endpoint>>)
    ensures |r| == |buckets|
  {
    seq(|buckets|, n requires 0 <= n < |buckets| => buckets[n].endpoints)
  }

  /** A group holds all instances of its key and takes its header from the first. */
  lemma GroupFacts(instances: seq<ServiceInstance>, n: nat)
    requires n < |Groups(instances)|
    ensures var g := Groups(instances)[n];
            && KeyOfGroup(g) == GroupKeys(instances)[n]
            && g.instances == WithKey(instances, GroupKey, KeyOfGroup(g)) && g.instances != []
            && g.name == g.instances[0].name && g.namespace == g.instances[0].namespace && g.port == g.instances[0].port
  {
    hide GroupKey, KeyOfGroup;
    var keys := GroupKeys(instances);
    GroupKeysHaveMembers(instances);
    assert keys[n] in keys;
    GroupHeader(instances, keys[n]);
  }

  /** The instances of one name, namespace and port as these show in a text. */
  function InstancesNamed(instances: seq<ServiceInstance>, text: string): seq<ServiceInstance> {
    if instances == [] then []
    else
      var last := instances[|instances| - 1];
      InstancesNamed(instances[..|instances| - 1], text)
      + (if last.name + "|" + last.namespace + "|" + Decimal(last.port) == text then [last] else [])
  }

  lemma {:induction false} KeysSpelledOut(instances: seq<ServiceInstance>, text: string)
    ensures WithKey(instances, GroupKey, text) == InstancesNamed(instances, text)
  {
    if instances != [] {
      KeysSpelledOut(instances[..|instances| - 1], text);
    }
  }

  /** The groups ascend by name, namespace and port as one text. Each holds the instances
      that share its text, in the order they came in, and takes name, namespace, DNS name
      and port from the first of them; each instance is in such a group. */
  lemma GroupsSpelledOut(instances: seq<ServiceInstance>)
    ensures var groups := Groups(instances);
            && (forall g :: g in groups ==>
                  && g.instances != []
                  && g.instances == InstancesNamed(instances, g.name + "|" + g.namespace + "|" + Decimal(g.port))
                  && g.name == g.instances[0].name && g.namespace == g.instances[0].namespace
                  && g.dns == g.instances[0].dns && g.port == g.instances[0].port)
            && (forall i :: i in instances ==> exists g :: g in groups && i in g.instances)
            && (forall m, n :: 0 <= m < n < |groups| ==>
                  Less(groups[m].name + "|" + groups[m].namespace + "|" + Decimal(groups[m].port),
                       groups[n].name + "|" + groups[n].namespace + "|" + Decimal(groups[n].port)))
  {
    hide GroupKey;
    var groups, keys := Groups(instances), GroupKeys(instances);
    forall n | 0 <= n < |groups|
      ensures keys[n] == groups[n].name + "|" + groups[n].namespace + "|" + Decimal(groups[n].port)
      ensures groups[n].instances == InstancesNamed(instances, keys[n]) && groups[n].instances != []
      ensures groups[n].name == groups[n].instances[0].name && groups[n].port == groups[n].instances[0].port
      ensures groups[n].namespace == groups[n].instances[0].namespace && groups[n].dns == groups[n].instances[0].dns
    {
      GroupFacts(instances, n);
      KeysSpelledOut(instances, keys[n]);
      assert keys[n] in keys;
    }
    hide KeyOfGroup, Groups, GroupFor;
    forall i | i in instances
      ensures exists g :: g in groups && i in g.instances
    {
      var n := GroupOf(instances, i);
      assert groups[n] in groups;
    }
  }

  /** Grouping loses and invents no instance, and no group is empty. */
  lemma GroupsConserve(instances: seq<ServiceInstance>)
    ensures multiset(Flatten(Memberships(Groups(instances)))) == multiset(instances)
    ensures forall g :: g in Groups(instances) ==> g.instances != []
  {
    hide GroupKey, KeyOfGroup, Groups;
    var groups, keys := Groups(instances), GroupKeys(instances);
    forall n | 0 <= n < |groups|
      ensures groups[n].instances == WithKey(instances, GroupKey, keys[n]) && groups[n].instances != []
    {
      GroupFacts(instances, n);
    }
    assert Memberships(groups) == Parts(instances, GroupKey, keys);
    PartsConserve(instances, GroupKey);
  }

  /** Splitting a group by zone and priority loses and invents no endpoint, and no
      bucket is empty. */
  lemma BucketsConserve(localCluster: string, instances: seq<ServiceInstance>)
    ensures multiset(Flatten(EndpointLists(Buckets(localCluster, instances)))) == multiset(Map(ToEndpoint, instances))
    ensures forall b :: b in Buckets(localCluster, instances) ==> b.endpoints != []
  {
    hide PriorityKey, ToEndpoint;
    var byOrder, keys := LocalityOrderKey(localCluster), BucketKeys(localCluster, instances);
    var buckets := Buckets(localCluster, instances);
    BucketKeysHaveMembers(localCluster, instances);
    forall n | 0 <= n < |keys|
      ensures buckets[n].endpoints == Map(ToEndpoint, WithKey(instances, byOrder, keys[n]))
                && buckets[n].endpoints != []
    {
      assert keys[n] in keys;
    }
    FlattenMaps(ToEndpoint, Parts(instances, byOrder, keys), EndpointLists(buckets));
    PartsConserve(instances, byOrder);
    MapRearranges(ToEndpoint, Flatten(Parts(instances, byOrder, keys)), instances);
  }

  lemma GroupsCountInstances(instances: seq<ServiceInstance>)
    ensures InstanceCount(Groups(instances)) == |instances|
  {
    hide Groups;
    GroupsConserve(instances);
    FlattenCounts(Groups(instances));
    assert |multiset(Flatten(Memberships(Groups(instances))))| == |multiset(instances)|;
  }

  lemma {:induction false} FlattenCounts(groups: seq<ServiceGroup>)
    ensures |Flatten(Memberships(groups))| == InstanceCount(groups)
  {
    if groups != [] {
      FlattenCounts(groups[..|groups| - 1]);
      assert Memberships(groups)[..|groups| - 1] == Memberships(groups[..|groups| - 1]);
    }
  }

  /** All endpoints of a list of load assignments. */
  function AllEndpoints(assignments: seq<LoadAssignment>): seq<Endpoint> {
    if assignments == [] then []
    else AllEndpoints(assignments[..|assignments| - 1])
         + Flatten(EndpointLists(assignments[|assignments| - 1].buckets))
  }

  /** Whatever names collide, the load assignments made for a list of instances hold
      one endpoint for each instance, with its address, port and weight. */
  lemma AssignmentsConserve(settings: BuilderSettings, instances: seq<ServiceInstance>)
    ensures multiset(AllEndpoints(Assignments(settings, Groups(instances)))) == multiset(Map(ToEndpoint, instances))
  {
    hide Groups;
    GroupsConserve(instances);
    GroupEndpoints(settings, Groups(instances));
    MapRearranges(ToEndpoint, Flatten(Memberships(Groups(instances))), instances);
  }

  lemma {:induction false} GroupEndpoints(settings: BuilderSettings, groups: seq<ServiceGroup>)
    ensures multiset(AllEndpoints(Assignments(settings, groups)))
              == multiset(Map(ToEndpoint, Flatten(Memberships(groups))))
  {
    hide Buckets, ClusterName, ToEndpoint;
    if groups != [] {
      var init, last := groups[..|groups| - 1], groups[|groups| - 1];
      GroupEndpoints(settings, init);
      assert Assignments(settings, groups)[..|groups| - 1] == Assignments(settings, init);
      assert Memberships(groups)[..|groups| - 1] == Memberships(init);
      BucketsConserve(settings.localCluster, last.instances);
      MapConcat(ToEndpoint, Flatten(Memberships(init)), last.instances);
      var before, own := AllEndpoints(Assignments(settings, init)),
                         Flatten(EndpointLists(Buckets(settings.localCluster, last.instances)));
      assert AllEndpoints(Assignments(settings, groups)) == before + own;
      assert Flatten(Memberships(groups)) == Flatten(Memberships(init)) + last.instances;
      hide AllEndpoints, Flatten, Map, Assignments, Memberships, EndpointLists;
    }
  }

  // ------------------------------------------------- one bucket per locality

  /** The endpoints of the instances on one side of the local cluster boundary: address,
      port and weight of each, the numbers as Go converts them to 32 bits. */
  function EndpointsOnSide(localCluster: string, instances: seq<ServiceInstance>, local: bool): seq<Endpoint> {
    if instances == [] then []
    else
      var last := instances[|instances| - 1];
      EndpointsOnSide(localCluster, instances[..|instances| - 1], local)
      + (if (TrimSpace(last.cluster) == TrimSpace(localCluster)) == local
         then [Endpoint(last.address, last.port % 0x1_0000_0000, last.weight % 0x1_0000_0000)] else [])
  }

  /** Those of one zone. */
  function EndpointsInZone(
    localCluster: string, instances: seq<ServiceInstance>, zone: string, local: bool): seq<Endpoint>
  {
    if instances == [] then []
    else
      var last := instances[|instances| - 1];
      EndpointsInZone(localCluster, instances[..|instances| - 1], zone, local)
      + (if last.zone == zone && (TrimSpace(last.cluster) == TrimSpace(localCluster)) == local
         then [Endpoint(last.address, last.port % 0x1_0000_0000, last.weight % 0x1_0000_0000)] else [])
  }

  lemma {:induction false} SidesSpelledOut(localCluster: string, instances: seq<ServiceInstance>, local: bool)
    ensures Map(ToEndpoint, OnSide(localCluster, instances, if local then 0 else 1))
         == EndpointsOnSide(localCluster, instances, local)
  {
    if instances != [] {
      var init, last := instances[..|instances| - 1], instances[|instances| - 1];
      SidesSpelledOut(localCluster, init, local);
      MapConcat(ToEndpoint, OnSide(localCluster, init, if local then 0 else 1), [last]);
    }
  }

  lemma {:induction false} ZonesSpelledOut(
    localCluster: string, instances: seq<ServiceInstance>, zone: string, priority: nat)
    requires priority <= 1
    ensures Map(ToEndpoint, InLocality(localCluster, instances, zone, priority))
         == EndpointsInZone(localCluster, instances, zone, priority == 0)
  {
    if instances != [] {
      var init, last := instances[..|instances| - 1], instances[|instances| - 1];
      ZonesSpelledOut(localCluster, init, zone, priority);
      MapConcat(ToEndpoint, InLocality(localCluster, init, zone, priority), [last]);
    }
  }

  /** Every instance is in the one bucket of its zone and of its side of the local
      cluster boundary, priority 0 being the side of the local cluster; such a bucket
      holds exactly the endpoints of those instances; local buckets come first, and on
      either side the zones ascend. */
  lemma BucketsByLocality(localCluster: string, instances: seq<ServiceInstance>)
    ensures var buckets := Buckets(localCluster, instances);
            && (forall b :: b in buckets ==>
                  b.endpoints == EndpointsInZone(localCluster, instances, b.zone, b.priority == 0))
            && (forall i :: i in instances ==>
                  exists b :: b in buckets && b.zone == i.zone
                              && (b.priority == 0 <==> TrimSpace(i.cluster) == TrimSpace(localCluster)))
            && (forall m, n :: 0 <= m < n < |buckets| ==>
                  && buckets[m].priority <= buckets[n].priority <= 1
                  && (buckets[m].priority == buckets[n].priority ==> Less(buckets[m].zone, buckets[n].zone)))
  {
    hide PriorityKey, ToEndpoint, BucketFor;
    var buckets, keys := Buckets(localCluster, instances), BucketKeys(localCluster, instances);
    BucketKeysHaveMembers(localCluster, instances);
    forall n | 0 <= n < |keys|
      ensures buckets[n] == BucketFor(localCluster, instances, keys[n]) && KeyOfBucket(buckets[n]) == keys[n]
      ensures buckets[n].priority <= 1
      ensures buckets[n].endpoints
           == EndpointsInZone(localCluster, instances, buckets[n].zone, buckets[n].priority == 0)
    {
      assert keys[n] in keys;
      BucketFacts(localCluster, instances, keys[n]);
      ZonesSpelledOut(localCluster, instances, buckets[n].zone, buckets[n].priority);
    }
    forall i | i in instances
      ensures exists b :: b in buckets && b.zone == i.zone
                          && (b.priority == 0 <==> TrimSpace(i.cluster) == TrimSpace(localCluster))
    {
      var p :| 0 <= p < |instances| && instances[p] == i;
      assert LocalityOrderKey(localCluster)(instances[p]) in keys;
      var n :| 0 <= n < |keys| && keys[n] == LocalityOrderKey(localCluster)(instances[p]);
      LocalityKeysAgree(buckets[n].zone, buckets[n].priority, i.zone, PriorityIn(localCluster, i));
      assert buckets[n] in buckets;
    }
    forall m, n | 0 <= m < n < |buckets|
      ensures buckets[m].priority <= buckets[n].priority
      ensures buckets[m].priority == buckets[n].priority ==> Less(buckets[m].zone, buckets[n].zone)
    {
      assert Less(keys[m], keys[n]);
      PriorityLeads(buckets[m].priority, buckets[m].zone, buckets[n].priority, buckets[n].zone);
    }
  }

  lemma PriorityLeads(p: nat, zone: string, q: nat, zone': string)
    requires p <= 1 && q <= 1 && Less(PriorityKey(p, zone), PriorityKey(q, zone'))
    ensures p <= q
    ensures p == q ==> Less(zone, zone')
  {
    LessAfterPrefix(Decimal(p) + "|", zone, zone');
    assert PriorityKey(p, zone)[0] == Decimal(p)[0] && PriorityKey(q, zone')[0] == Decimal(q)[0];
    assert Decimal(0) == "0" && Decimal(1) == "1";
  }

  // ------------------------------------------- the two sides of the boundary

  /** The instances on one side of the local cluster boundary. */
  function OnSide(localCluster: string, instances: seq<ServiceInstance>, priority: nat): seq<ServiceInstance> {
    if instances == [] then []
    else
      var last := instances[|instances| - 1];
      OnSide(localCluster, instances[..|instances| - 1], priority)
      + (if PriorityIn(localCluster, last) == priority then [last] else [])
  }

  /** The endpoints of all buckets of one priority. */
  function EndpointsAt(buckets: seq<Bucket>, priority: nat): seq<Endpoint> {
    if buckets == [] then []
    else
      var last := buckets[|buckets| - 1];
      EndpointsAt(buckets[..|buckets| - 1], priority) + (if last.priority == priority then last.endpoints else [])
  }

  function KeysAt(keys: seq<string>, buckets: seq<Bucket>, priority: nat): set<string>
    requires |keys| == |buckets|
  {
    set n | 0 <= n < |keys| && buckets[n].priority == priority :: keys[n]
  }

  lemma {:induction false} BucketsCover(
    instances: seq<ServiceInstance>, key: ServiceInstance -> string, keys: seq<string>, buckets: seq<Bucket>,
    priority: nat)
    requires |keys| == |buckets| && forall i, j :: 0 <= i < j < |keys| ==> keys[i] != keys[j]
    requires forall n :: 0 <= n < |keys| ==> buckets[n].endpoints == Map(ToEndpoint, WithKey(instances, key, keys[n]))
    ensures multiset(EndpointsAt(buckets, priority))
         == multiset(Map(ToEndpoint, Within(instances, key, KeysAt(keys, buckets, priority))))
  {
    hide ToEndpoint, WithKey, Within;
    if keys == [] {
      WithinNone(instances, key);
      assert KeysAt(keys, buckets, priority) == {};
    } else {
      var m := |keys| - 1;
      var before := KeysAt(keys[..m], buckets[..m], priority);
      BucketsCover(instances, key, keys[..m], buckets[..m], priority);
      assert EndpointsAt(buckets, priority) == EndpointsAt(buckets[..m], priority)
                                               + (if buckets[m].priority == priority then buckets[m].endpoints else []);
      hide Map, EndpointsAt;
      if buckets[m].priority == priority {
        assert KeysAt(keys, buckets, priority) == before + {keys[m]};
        WithinOneMore(instances, key, before, keys[m]);
        var parts := Within(instances, key, before) + WithKey(instances, key, keys[m]);
        MapRearranges(ToEndpoint, Within(instances, key, before + {keys[m]}), parts);
        MapConcat(ToEndpoint, Within(instances, key, before), WithKey(instances, key, keys[m]));
      } else {
        assert KeysAt(keys, buckets, priority) == before;
      }
    }
  }

  lemma {:induction false} WithinIsOnSide(
    localCluster: string, instances: seq<ServiceInstance>, key: ServiceInstance -> string, keys: set<string>,
    priority: nat)
    requires forall i :: i in instances ==> (key(i) in keys <==> PriorityIn(localCluster, i) == priority)
    ensures Within(instances, key, keys) == OnSide(localCluster, instances, priority)
  {
    hide PriorityIn;
    if instances != [] {
      var init, last := instances[..|instances| - 1], instances[|instances| - 1];
      assert instances == init + [last] && last in instances;
      WithinIsOnSide(localCluster, init, key, keys, priority);
    }
  }

  /** The priority 0 endpoints are exactly those of the instances whose trimmed
      cluster is the trimmed local cluster, and the priority 1 endpoints the rest. */
  lemma PriorityTellsTheSide(localCluster: string, instances: seq<ServiceInstance>, priority: nat)
    requires priority <= 1
    ensures multiset(EndpointsAt(Buckets(localCluster, instances), priority))
         == multiset(EndpointsOnSide(localCluster, instances, priority == 0))
  {
    hide *;
    var side := if priority == 0 then 0 else 1;
    assert side == priority;
    PriorityIsOnSide(localCluster, instances, side);
    SidesSpelledOut(localCluster, instances, priority == 0);
  }

  lemma PriorityIsOnSide(localCluster: string, instances: seq<ServiceInstance>, priority: nat)
    requires priority <= 1
    ensures multiset(EndpointsAt(Buckets(localCluster, instances), priority))
         == multiset(Map(ToEndpoint, OnSide(localCluster, instances, priority)))
  {
    hide PriorityKey, ToEndpoint, BucketFor, PriorityIn, EndpointsAt;
    var byOrder, keys := LocalityOrderKey(localCluster), BucketKeys(localCluster, instances);
    var buckets := Buckets(localCluster, instances);
    BucketKeysHaveMembers(localCluster, instances);
    AscendingIsDistinct(KeysOf(instances, byOrder));
    forall n | 0 <= n < |keys|
      ensures buckets[n].endpoints == Map(ToEndpoint, WithKey(instances, byOrder, keys[n]))
      ensures KeyOfBucket(buckets[n]) == keys[n] && buckets[n].priority <= 1
    {
      assert keys[n] in keys;
      BucketFacts(localCluster, instances, keys[n]);
      InLocalityIsWithOrderKey(localCluster, instances, buckets[n].zone, buckets[n].priority);
    }
    BucketsCover(instances, byOrder, keys, buckets, priority);
    forall i | i in instances
      ensures byOrder(i) in KeysAt(keys, buckets, priority) <==> PriorityIn(localCluster, i) == priority
    {
      assert PriorityIn(localCluster, i) <= 1 by { SidesAreTwo(localCluster, i); }
      var p :| 0 <= p < |instances| && instances[p] == i;
      assert byOrder(instances[p]) in keys;
      var n :| 0 <= n < |keys| && keys[n] == byOrder(i);
      LocalityKeysAgree(buckets[n].zone, buckets[n].priority, i.zone, PriorityIn(localCluster, i));
    }
    WithinIsOnSide(localCluster, instances, byOrder, KeysAt(keys, buckets, priority), priority);
  }

  lemma SidesAreTwo(localCluster: string, i: ServiceInstance)
    ensures PriorityIn(localCluster, i) <= 1
  {
  }

  // ------------------------------------------------------- a plain filter

  predicate SameService(a: ServiceInstance, b: ServiceInstance) {
    a.name == b.name && a.namespace == b.namespace && a.port == b.port
  }

  /** The instances of the service of `x`: same name, namespace and port. */
  function OfService(instances: seq<ServiceInstance>, x: ServiceInstance): seq<ServiceInstance> {
    if instances == [] then []
    else
      var last := instances[|instances| - 1];
      OfService(instances[..|instances| - 1], x) + (if SameService(last, x) then [last] else [])
  }

  lemma {:induction false} OfServiceMembers(instances: seq<ServiceInstance>, x: ServiceInstance)
    ensures forall y :: y in OfService(instances, x) <==> y in instances && SameService(y, x)
  {
    if instances != [] {
      assert instances == instances[..|instances| - 1] + [instances[|instances| - 1]];
      OfServiceMembers(instances[..|instances| - 1], x);
    }
  }

  predicate Collide(settings: BuilderSettings, x: ServiceInstance, y: ServiceInstance) {
    GroupKey(x) == GroupKey(y) || ClusterOf(settings)(x) == ClusterOf(settings)(y)
  }

  /** No two instances of different services share a group key or a cluster name. */
  predicate NamesDoNotCollide(settings: BuilderSettings, instances: seq<ServiceInstance>) {
    forall x, y :: x in instances && y in instances && Collide(settings, x, y) ==> SameService(x, y)
  }

  /** The group whose load assignment is served under a cluster name. */
  function ServedGroup(settings: BuilderSettings, groups: seq<ServiceGroup>, cluster: string): Option<ServiceGroup> {
    if groups == [] then None
    else if GroupCluster(settings, groups[|groups| - 1]) == cluster then Some(groups[|groups| - 1])
    else ServedGroup(settings, groups[..|groups| - 1], cluster)
  }

  lemma {:induction false} IndexedIsServed(settings: BuilderSettings, groups: seq<ServiceGroup>, cluster: string)
    ensures var indexed, served := Indexed(Assignments(settings, groups)), ServedGroup(settings, groups, cluster);
            && (cluster in indexed <==> served.Some?)
            && (served.Some? ==>
                  && indexed[cluster] == GroupAssignment(settings, served.value)
                  && served.value in groups && GroupCluster(settings, served.value) == cluster)
            && (served.None? ==> forall g :: g in groups ==> GroupCluster(settings, g) != cluster)
  {
    hide GroupCluster, Buckets;
    if groups != [] {
      var init, last := groups[..|groups| - 1], groups[|groups| - 1];
      assert groups == init + [last];
      OneMoreGroup(settings, init, last);
      IndexedIsServed(settings, init, cluster);
    }
  }

  /** What a snapshot holds, group by group: a virtual host of the cluster's name that
      answers for the group's DNS name with and without port, a cluster, and under the
      name of the cluster the endpoints of the last group that has it. */
  lemma ResourcesSpelledOut(settings: BuilderSettings, version: nat, instances: seq<ServiceInstance>)
    ensures var built, groups := Built(settings, version, instances), Groups(instances);
            && built.version == version && |built.virtualHosts| == |groups|
            && (forall n :: 0 <= n < |groups| ==> AnswersFor(settings, groups[n], built.virtualHosts[n]))
            && (forall c :: c in built.clusters <==> exists h :: h in built.virtualHosts && h.cluster == c)
            && (forall c :: c in built.assignments <==> c in built.clusters)
            && (forall c :: c in built.assignments ==>
                  built.assignments[c].clusterName == c
                  && exists n :: 0 <= n < |groups| && IsLastNamed(built.virtualHosts, n, c)
                                 && built.assignments[c].buckets == Buckets(settings.localCluster, groups[n].instances))
  {
    hide Groups, Buckets, ClusterName, Indexed, Decimal, AnswersFor, Hosts, ClusterNames;
    var built, groups := Built(settings, version, instances), Groups(instances);
    HostsAnswer(settings, groups);
    HostsNameClusters(settings, groups);
    ReferencesClose(settings, version, instances);
    hide Assignments, GroupCluster;
    forall c | c in built.assignments
      ensures exists n :: 0 <= n < |groups| && IsLastNamed(built.virtualHosts, n, c)
                          && built.assignments[c].buckets == Buckets(settings.localCluster, groups[n].instances)
    {
      var n := LastIsServed(settings, groups, c);
    }
  }

  /** The virtual host has the name of the group's cluster and answers for its DNS name. */
  predicate AnswersFor(settings: BuilderSettings, g: ServiceGroup, host: VirtualHost) {
    && host.name == host.cluster
    && host.name == settings.clusterNamePrefix + "." + TrimSpace(g.name) + "." + TrimSpace(g.namespace) + "."
                    + Decimal(g.port)
    && host.domains == [g.dns, g.dns + ":" + Decimal(g.port)]
  }

  lemma HostsAnswer(settings: BuilderSettings, groups: seq<ServiceGroup>)
    ensures forall n :: 0 <= n < |groups| ==> AnswersFor(settings, groups[n], Hosts(settings, groups)[n])
    ensures forall n :: 0 <= n < |groups| ==> ServiceLabels(groups)[n] == groups[n].name + "." + groups[n].namespace
  {
    hide TrimSpace, Decimal;
    forall n | 0 <= n < |groups|
      ensures AnswersFor(settings, groups[n], Hosts(settings, groups)[n])
    {
    }
  }

  lemma HostsNameClusters(settings: BuilderSettings, groups: seq<ServiceGroup>)
    ensures forall c :: c in ClusterNames(settings, groups)
                   <==> exists h :: h in Hosts(settings, groups) && h.cluster == c
  {
    hide GroupCluster;
    var hosts := Hosts(settings, groups);
    forall c | c in ClusterNames(settings, groups)
      ensures exists h :: h in hosts && h.cluster == c
    {
      var g :| g in groups && GroupCluster(settings, g) == c;
      var n :| 0 <= n < |groups| && groups[n] == g;
      assert hosts[n] in hosts;
    }
  }

  /** The n-th virtual host is the last one of a cluster. */
  predicate IsLastNamed(hosts: seq<VirtualHost>, n: nat, cluster: string) {
    n < |hosts| && hosts[n].cluster == cluster && forall m :: n < m < |hosts| ==> hosts[m].cluster != cluster
  }

  lemma {:induction false} LastIsServed(settings: BuilderSettings, groups: seq<ServiceGroup>, cluster: string)
    returns (n: nat)
    requires cluster in Indexed(Assignments(settings, groups))
    ensures n < |groups| && IsLastNamed(Hosts(settings, groups), n, cluster)
    ensures Indexed(Assignments(settings, groups))[cluster].buckets
         == Buckets(settings.localCluster, groups[n].instances)
  {
    hide GroupCluster, Buckets, Hosts, Assignments;
    var init, last := groups[..|groups| - 1], groups[|groups| - 1];
    assert groups == init + [last];
    OneMoreGroup(settings, init, last);
    var before := Assignments(settings, init);
    assert Assignments(settings, groups)[..|before|] == before;
    n := |groups| - 1;
    if GroupCluster(settings, last) != cluster {
      n := LastIsServed(settings, init, cluster);
      assert groups[n] == init[n];
    }
  }

  /** The cluster of the service of `x` is made from exactly the instances of that
      service. */
  ghost predicate ServedAlone(settings: BuilderSettings, instances: seq<ServiceInstance>, x: ServiceInstance) {
    var served := ServedGroup(settings, Groups(instances), ClusterOf(settings)(x));
    served.Some? && served.value.instances == OfService(instances, x)
  }

  lemma {:induction false} OfServiceIsWithKey(instances: seq<ServiceInstance>, x: ServiceInstance)
    requires forall y :: y in instances && GroupKey(y) == GroupKey(x) ==> SameService(y, x)
    ensures WithKey(instances, GroupKey, GroupKey(x)) == OfService(instances, x)
  {
    hide GroupKey;
    if instances != [] {
      var init, last := instances[..|instances| - 1], instances[|instances| - 1];
      assert instances == init + [last];
      if SameService(last, x) { SameServiceSameKey(last, x); }
      OfServiceIsWithKey(init, x);
    }
  }

  lemma SameServiceSameKey(x: ServiceInstance, y: ServiceInstance)
    requires SameService(x, y)
    ensures GroupKey(x) == GroupKey(y)
    ensures forall settings :: ClusterOf(settings)(x) == ClusterOf(settings)(y)
  {
  }

  /** The group an instance is in. */
  lemma GroupOf(instances: seq<ServiceInstance>, x: ServiceInstance) returns (n: nat)
    requires x in instances
    ensures n < |Groups(instances)| && KeyOfGroup(Groups(instances)[n]) == GroupKey(x)
    ensures Groups(instances)[n].instances == WithKey(instances, GroupKey, GroupKey(x))
    ensures x in Groups(instances)[n].instances
  {
    hide GroupKey, KeyOfGroup, Groups;
    var keys := GroupKeys(instances);
    var p :| 0 <= p < |instances| && instances[p] == x;
    assert GroupKey(instances[p]) in KeysOf(instances, GroupKey);
    assert GroupKey(x) in keys;
    n :| 0 <= n < |keys| && keys[n] == GroupKey(x);
    GroupFacts(instances, n);
    WithKeyMembers(instances, GroupKey, GroupKey(x));
  }

  /** The first member of a group: it has the group's key and cluster name. */
  lemma HeadOf(settings: BuilderSettings, instances: seq<ServiceInstance>, g: ServiceGroup) returns (h: ServiceInstance)
    requires g in Groups(instances)
    ensures h in instances && h in g.instances
    ensures GroupKey(h) == KeyOfGroup(g) && GroupCluster(settings, g) == ClusterOf(settings)(h)
    ensures g.instances == WithKey(instances, GroupKey, GroupKey(h))
  {
    hide GroupKey, KeyOfGroup, Groups;
    var n :| 0 <= n < |Groups(instances)| && Groups(instances)[n] == g;
    GroupFacts(instances, n);
    WithKeyMembers(instances, GroupKey, KeyOfGroup(g));
    h := g.instances[0];
    assert h in g.instances;
  }

  ghost predicate AllServedAlone(settings: BuilderSettings, instances: seq<ServiceInstance>) {
    forall x :: x in instances ==> ServedAlone(settings, instances, x)
  }

  /** Build refines a plain filter exactly when names do not collide: then, and only
      then, the cluster of each instance's service holds that service's instances and
      no others. */
  lemma BuildRefinesFilterExactlyWhen(settings: BuilderSettings, instances: seq<ServiceInstance>)
    ensures AllServedAlone(settings, instances) <==> NamesDoNotCollide(settings, instances)
  {
    hide Groups, ServedAlone, ClusterOf, GroupKey;
    if NamesDoNotCollide(settings, instances) {
      forall x | x in instances
        ensures ServedAlone(settings, instances, x)
      {
        WithoutCollisionServedAlone(settings, instances, x);
      }
    }
    if forall x :: x in instances ==> ServedAlone(settings, instances, x) {
      forall x, y | x in instances && y in instances && Collide(settings, x, y)
        ensures SameService(x, y)
      {
        if ClusterOf(settings)(x) == ClusterOf(settings)(y) {
          ServedUnderOneName(settings, instances, x, y);
        } else {
          ServedInOneGroup(settings, instances, x, y);
        }
      }
    }
  }

  lemma WithoutCollisionServedAlone(settings: BuilderSettings, instances: seq<ServiceInstance>, x: ServiceInstance)
    requires NamesDoNotCollide(settings, instances) && x in instances
    ensures ServedAlone(settings, instances, x)
  {
    hide Groups, GroupKey, KeyOfGroup, ClusterName;
    var groups, cluster := Groups(instances), ClusterOf(settings)(x);
    var n := GroupOf(instances, x);
    var h := HeadOf(settings, instances, groups[n]);
    SameServiceSameKey(h, x);
    IndexedIsServed(settings, groups, cluster);
    var served := ServedGroup(settings, groups, cluster).value;
    var h' := HeadOf(settings, instances, served);
    SameServiceSameKey(h', x);
    OfServiceIsWithKey(instances, x);
  }

  lemma ServedUnderOneName(
    settings: BuilderSettings, instances: seq<ServiceInstance>, x: ServiceInstance, y: ServiceInstance)
    requires x in instances && ServedAlone(settings, instances, x) && ServedAlone(settings, instances, y)
    requires ClusterOf(settings)(x) == ClusterOf(settings)(y)
    ensures SameService(x, y)
  {
    hide Groups, ClusterName;
    OfServiceMembers(instances, x);
    OfServiceMembers(instances, y);
    assert x in OfService(instances, x);
  }

  lemma ServedInOneGroup(
    settings: BuilderSettings, instances: seq<ServiceInstance>, x: ServiceInstance, y: ServiceInstance)
    requires x in instances && y in instances && GroupKey(x) == GroupKey(y)
    requires forall z :: z in instances ==> ServedAlone(settings, instances, z)
    ensures SameService(x, y)
  {
    hide Groups, GroupKey, KeyOfGroup, ClusterName;
    var groups := Groups(instances);
    var n := GroupOf(instances, x);
    var h := HeadOf(settings, instances, groups[n]);
    assert ServedAlone(settings, instances, h);
    IndexedIsServed(settings, groups, ClusterOf(settings)(h));
    var served := ServedGroup(settings, groups, ClusterOf(settings)(h)).value;
    var h' := HeadOf(settings, instances, served);
    OfServiceMembers(instances, h);
    SameServiceSameKey(h', h);
    WithKeyMembers(instances, GroupKey, GroupKey(x));
    assert x in served.instances && y in served.instances;
  }

  /** Plain names do not collide: namespaces without `|` and `.`, names and
      namespaces without surrounding blanks. */
  lemma PlainNamesDoNotCollide(settings: BuilderSettings, instances: seq<ServiceInstance>)
    requires forall i :: i in instances ==> PlainNames(i)
    ensures NamesDoNotCollide(settings, instances)
  {
    hide Collide, SameService, TrimSpace;
    forall x, y | x in instances && y in instances && Collide(settings, x, y)
      ensures SameService(x, y)
    {
      PlainNamesReadBack(settings, x, y);
    }
  }

  predicate PlainNames(i: ServiceInstance) {
    '|' !in i.namespace && '.' !in i.namespace && TrimSpace(i.name) == i.name && TrimSpace(i.namespace) == i.namespace
  }

  /** What is served for a service with plain names: under its cluster name, all its
      instances and no others, by locality. */
  lemma PlainServiceIsServed(
    settings: BuilderSettings, version: nat, instances: seq<ServiceInstance>, x: ServiceInstance)
    requires x in instances && forall i :: i in instances ==> PlainNames(i)
    ensures var cluster, assignments := ClusterOf(settings)(x), Built(settings, version, instances).assignments;
            && cluster in assignments
            && assignments[cluster] == LoadAssignment(cluster, Buckets(settings.localCluster, OfService(instances, x)))
  {
    hide Groups, ClusterName, Buckets, PlainNames;
    PlainNamesDoNotCollide(settings, instances);
    WithoutCollisionServedAlone(settings, instances, x);
    IndexedIsServed(settings, Groups(instances), ClusterOf(settings)(x));
  }

  lemma PlainNamesReadBack(settings: BuilderSettings, x: ServiceInstance, y: ServiceInstance)
    requires PlainNames(x) && PlainNames(y) && Collide(settings, x, y)
    ensures SameService(x, y)
  {
    hide TrimSpace, Decimal, SameService;
    if GroupKey(x) == GroupKey(y) {
      assert "" + x.name == x.name && "" + y.name == y.name;
      ReadBack("", x, y, '|');
    } else {
      ReadBack(settings.clusterNamePrefix + ".", x, y, '.');
    }
  }

  lemma ReadBack(prefix: string, x: ServiceInstance, y: ServiceInstance, sep: char)
    requires sep == '|' || sep == '.'
    requires sep !in x.namespace && sep !in y.namespace
    requires prefix + x.name + [sep] + x.namespace + [sep] + Decimal(x.port)
          == prefix + y.name + [sep] + y.namespace + [sep] + Decimal(y.port)
    ensures SameService(x, y)
  {
    SplitAtLast(prefix + x.name + [sep] + x.namespace, Decimal(x.port),
                prefix + y.name + [sep] + y.namespace, Decimal(y.port), sep);
    SplitAtLast(prefix + x.name, x.namespace, prefix + y.name, y.namespace, sep);
    assert x.name == (prefix + x.name)[|prefix|..] && y.name == (prefix + y.name)[|prefix|..];
    DecimalIsInjective(x.port, y.port);
  }

  /** Every cluster has a load assignment of its name, and every virtual host routes
      to a cluster of the snapshot. */
  lemma ReferencesClose(settings: BuilderSettings, version: nat, instances: seq<ServiceInstance>)
    ensures var built := Built(settings, version, instances);
            && built.assignments.Keys == built.clusters
            && (forall c :: c in built.assignments ==> built.assignments[c].clusterName == c)
            && (forall h :: h in built.virtualHosts ==> h.cluster in built.clusters)
  {
    hide Groups, GroupCluster, Buckets;
    var groups := Groups(instances);
    forall c
      ensures c in Indexed(Assignments(settings, groups)) <==> c in ClusterNames(settings, groups)
      ensures c in Indexed(Assignments(settings, groups)) ==> Indexed(Assignments(settings, groups))[c].clusterName == c
    {
      IndexedIsServed(settings, groups, c);
    }
  }
}
