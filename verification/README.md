# sidecar-agent in Dafny

`sidecar-agent` is a host-level control plane: it registers the services of its
host in Consul and keeps their leases alive, discovers the healthy instances of
its environment, publishes them to a shared Envoy as an xDS snapshot, and
supervises that Envoy. This project models those five parts and proves what they
keep over every run.

| file | models |
|---|---|
| `Text.dfy`, `Sorting.dfy` | trimming, byte order, decimal numbers and separators; the library sort known by its contract only; splitting a list by a key |
| `Model.dfy` | requests, local services, route documents and their canonical forms |
| `Consul.dfy` | the part of Consul the agent relies on: instances, lease and maintenance marks, KV |
| `Registry.dfy` | what each registry operation does to the agent's table and to Consul, as functions |
| `RegistryClient.dfy` | the registry client as a class whose methods are proved against those functions |
| `Discovery.dfy` | reading instances back: parsing, the round trip, the order of the result |
| `InstanceId.dfy` | UUID version 7 identifiers stamped into a byte buffer in place |
| `Fleet.dfy`, `FleetRuns.dfy` | any number of agent runs against one Consul as a transition system, with its invariant |
| `Stages.dfy` | reachable worlds; that `Register` as one call is its four stages in a row |
| `Guarantees.dfy` | what follows for every reachable world |
| `Effects.dfy` | what each registry operation leaves behind, in terms of requests, entries, instances and documents alone |
| `Refreshing.dfy` | lease ticks in the fleet: each active service is tried once a tick, and what that means for its lease |
| `Overlaps.dfy` | what happens, and exactly when, if requests of one agent or the halves of a route check overlap |
| `AgentIds.dfy` | when agent IDs tell hosts apart, and whose instances a restart cleanup removes |
| `Scenarios.dfy` | registrations that go through, as steps of longer scenarios |
| `Snapshot.dfy`, `SnapshotBuilder.dfy` | grouping, load assignments, the snapshot builder |
| `EndToEnd.dfy` | from registration by one agent to the snapshot of another |
| `Watcher.dfy` | the discovery watcher: its class, overlapping refreshes, convergence |
| `Publishing.dfy` | the watcher over a set of healthy instances: how often it is published while unchanged |
| `Lease.dfy` | the timing of leases |
| `Envoy.dfy` | the Envoy manager: its class, and all interleavings of its threads |

## How the runs are modelled

- A fleet is any number of agent runs with unique run IDs, sharing one Consul.
  Every Consul call may fail, and a failing call has no effect; maintenance and
  lease calls on an unknown ID fail. Consul may drop any instance at any moment.
  The IDs a generator answers are fresh (`IdsClashExactlyWhen` says when two
  generated IDs are equal).
- Different agents overlap freely. A registration is four steps of its agent (look the
  service up and perhaps retire the old instance; check the route document; register
  with Consul; lease and enter), and between any two of them every other agent may do
  anything, also register, drain or clean up. A Consul call and the store to the
  agent's own table that follows it are one step, as no other agent sees that table. A
  shutdown or a cleanup may be split into several events. The refreshes of a lease
  tick interleave with all of it one by one.
- Two things are assumed that the code does not ensure: the requests of one agent are
  handled one after the other (`Register` holds no lock between its lookup and its
  store), and the read and the write of one route check are one step (the KV store is
  not written by compare-and-swap). `Overlaps` drops each assumption in turn. An
  overlapping request can store late in three ways, as a new registration, a replay, or
  the removal of a changed request (a shutdown removes and stores like that too); for
  each, and for a late route write, `Overlaps` says exactly when it does no harm, with
  reachable runs in which it does.
- A refresh of the watcher is under way from before it asks Discover until its turn
  under the lock; the start, the answer and the turn are separate events.
- Each method is proved equal to a function of its inputs and the old state, and what such
  a function does is stated a second time without it: by further clauses of the method in
  plain fields, and by lemmas (`Effects`, the members that end in `SpelledOut`).
- Clock readings, random bytes, the outcome of each call and the order in which Go
  ranges over a map are inputs; ranging picks any remaining key, so a method that is
  proved equal to a function returns the same for every order.
- `Drain` and `Deregister` do not look at the state of the entry. That a deregistered
  entry never drains again follows only because Consul no longer knows its ID
  (`Fleet.EntryOk`).
- In `Envoy`, whether a child is started is left open even when the context has
  ended, since a parent may end it between exec's own check and the fork; only
  `Stop`, which holds the mutex, rules a start out.

Places where the code does less than its documentation suggests, each proved:

- A changed request takes the old instance down before the route document is
  checked. A failing `Register` leaves the running services alone exactly when it is
  not such a request whose removal went through
  (`FailureLeavesServicesAloneExactlyWhen`); one that changes the route meaning always
  fails (`ChangedMeaningAlwaysFails`).
- Discover has one possible result exactly when no two visible instances tie in the text of
  name, namespace, address and port it sorts by, and two runs on one host tie
  (`DiscoverHasOneResultExactlyWhen`, `TieExactlyWhen`, `TiesHappen`).
- While the healthy set is unchanged the watcher publishes at most once exactly when
  none of it tie; with ties it may publish the set any number of times
  (`UnchangedSetIsPublishedOnceExactlyWhen`, `TiedSetIsRepublished`).
- Route prefixes that hold a comma are not read back, and a valid request can have one
  (`RegisterDiscoverRoundTrip`, `CommasAreLost`).
- Cluster names may collide (`BuildRefinesFilterExactlyWhen`). Among agents that share a
  KV prefix this takes a separator in a namespace (`DiscoveredNamesDoNotCollide`,
  `SeparatorsCollide`); across prefixes surrounding blanks are enough
  (`BlanksCollideAcrossPrefixes`).
- An agent ID belongs to one cluster, zone and host exactly when none of the three
  holds a colon with no blank beside it, so for parts without blanks exactly when none
  holds a colon; an IPv6 host address is enough to break it. Exactly those agents can
  remove a stranger's instances when they restart
  (`AgentIdIsUniqueExactlyWhen`, `CleanupStaysAtHomeExactlyWhen`).
- Lists are published in the order in which their refreshes started exactly as long as
  no refresh starts while another one is pending (`OrderIsKeptExactlyWhen`).
- Configured refresh intervals of zero or less pass validation though no ticker runs on
  them (`ValidatedExactlyWhenLeasesHold`).
- A `Stop` that took the mutex before the waiter recorded the exit never sees that
  exit, and any `Stop` of a child that still runs is such a one
  (`StopSeesExitExactlyWhen`, `StopMayMissTheExit`); the watch loop may wait forever on
  a nil channel (`LoopHangsExactlyWhen`, `LoopMayHang`).
- One failed restart ends the supervision (`FailedRestartIsFinal`, `RestartMayBeTried`);
  `AnotherChildExactlyWhen` says exactly when a child can still be started.

## Model

| member | source | states |
|---|---|---|
| Text.BlankExactlyWhen | model/types.go:81-88 | a text counts as blank exactly when it is white space throughout |
| Model.UniqueSortedStrings | model/types.go:304-329 | the result is the one strictly ascending list of the trimmed non-blank values, whatever order the set yields them in |
| Model.CanonicalIsIdempotent | model/types.go:303-329 | a canonical list is its own canonical form and keeps the set of values |
| Model.CanonicalDeterminedBySet | model/types.go:303-329 | two lists have one canonical form exactly when their sets of trimmed non-blank values agree |
| Model.ExtractRoutePrefixes | model/types.go:332-354 | the ascending list of the prefixes up to the last slash, of the paths that have one |
| Model.PrefixesOfCanonicalMethods | model/types.go:332-354 | prefixes depend on the method list only through its set of trimmed non-blank values |
| Model.PrefixesSpelledOut | model/types.go:332-354 | a prefix is in the list exactly when some method leads up to its last slash by it, from a first slash that is another one |
| Model.RouteDocument.Canonicalize | model/types.go:210-217 | the document with both lists canonical and nothing else changed |
| Model.RouteDocument.Equal | model/types.go:220-233 | true exactly when the documents agree on everything but the time of writing, up to canonical lists |
| Model.CanonicalizedKeepsMeaning | model/types.go:235-239 | storing a document in canonical form keeps its meaning, and canonicalising twice is canonicalising once |
| Model.DocumentIsCanonical | registry/consul.go:377-386 | the document a request asks for is canonical before it is stored |
| Model.SameRegisterRequest | registry/consul.go:867-887 | true exactly when the requests agree on every scalar field and on the set of methods |
| Model.SameRouteMeaning | registry/consul.go:377-386 | two requests ask for equal documents exactly when service, version, namespace, port, protocol and set of methods agree |
| Registry.LocalKeyIsInjective | registry/consul.go:796-799 | keys agree exactly when trimmed name and port do |
| Registry.ReplaySoundness | registry/consul.go:867-887 | a replayed request has the same local key, the same route reference and an equal route document |
| Consul.Server.ServiceRegister | registry/consul.go:417-421 | a call that goes through adds or replaces the instance, another one changes nothing |
| Consul.Server.ServiceDeregister | registry/consul.go:363-367 | a call that goes through removes the instance with its marks |
| Consul.Server.EnableServiceMaintenance | registry/consul.go:487-491 | fails on an unknown instance, otherwise marks it |
| Consul.Server.UpdateTTL | registry/consul.go:259-262 | fails on an unknown check, otherwise counts one more pass of it and marks the instances that carry it as leased |
| Consul.Server.Get | registry/consul.go:677-684 | the stored document, or none, or an error |
| Consul.Server.Put | registry/consul.go:698-704 | a call that goes through replaces the document of the key, another one changes nothing |
| RegistryClient.Client.constructor | registry/consul.go:152-173 | an empty table under the agent ID built from the settings |
| RegistryClient.Client.StoreLocalService | registry/consul.go:235-240 | the entry goes under the key of its own request, nothing else changes |
| RegistryClient.Client.ActiveLocalServices | registry/consul.go:243-256 | each entry that is not deregistered, once, in any order |
| RegistryClient.Client.PassLease | registry/consul.go:259-262 | succeeds exactly when the call goes through and Consul knows the check, and then leases its instances |
| RegistryClient.Client.EnsureRoute | registry/consul.go:677-705 | writes the canonical document exactly when none or one of equal meaning is there and both calls go through; otherwise names the error and changes nothing |
| RegistryClient.Client.Register | registry/consul.go:332-453 | table, Consul and result of replay, of a changed request and of a new registration, with every early return |
| RegistryClient.Client.RegisterNew | registry/consul.go:372-452 | the part after the lookup: route document, ID, registration, first lease, entry; each failure leaves what was done before it |
| RegistryClient.Client.Drain | registry/consul.go:455-516 | it succeeds exactly when the request is valid, the service known, the call goes through and Consul has the instance; then the entry drains until 20 seconds or the given duration after the start and the instance is in maintenance; otherwise an error and nothing changed |
| RegistryClient.Client.Deregister | registry/consul.go:519-570 | it succeeds exactly when the request is valid, the service known and the call goes through; then the entry is deregistered without a deadline and its instance gone from Consul with its marks; otherwise an error and nothing changed |
| RegistryClient.Client.Shutdown | registry/consul.go:203-223 | the services before the first failing call are deregistered and removed, the others are as before; success means all of them went |
| RegistryClient.Client.LeaseTick | registry/consul.go:273-285 | of every active service whose call goes through, the check Consul knows is passed, once unless services share it, and exactly its instances become leased; a failure changes nothing and stops nothing |
| RegistryClient.Client.CleanupPreviousRuns | registry/consul.go:290-329 | success removes exactly the instances of this agent ID and another run, failure only some of them, and nothing else ever changes |
| RegistryClient.Client.LocalServices | registry/consul.go:573-606 | all entries, ordered by name and port |
| RegistryClient.ServiceListIsUnique | registry/consul.go:573-606 | that list is the same for every order in which the table yields its entries |
| RegistryClient.Client.Discover | registry/consul.go:609-666 | exactly the passing, usable instances of the environment, each once, ascending by the text of name, namespace, address and port; an error only if a query failed |
| Discovery.ServiceInstanceFromEntry | registry/consul.go:760-793 | the instance of an entry, with the node address as fallback, or none without an address and a positive port |
| Discovery.ClusterIsOfFirstTag | registry/consul.go:802-811 | the cluster follows "cluster=" in the first tag that begins with it once trimmed, or is empty |
| Discovery.WeightFallsBack | registry/consul.go:814-822 | text that does not begin with an unsigned number counts as the fallback, and the result is positive |
| Discovery.WeightRoundTrip | registry/consul.go:814-822 | a positive weight printed in decimal is parsed back |
| Discovery.ClusterRoundTrip | registry/consul.go:802-811 | the cluster tag reads back the trimmed cluster name |
| Discovery.SplitInvertsJoin | registry/consul.go:722 | splitting undoes joining when no part holds the separator |
| Discovery.JoinInvertsSplit | registry/consul.go:791 | joining undoes splitting, for every text |
| Discovery.PrefixesRoundTripExactlyWhen | registry/consul.go:791 | a canonical prefix list survives join, split and canonicalisation exactly when no prefix holds a comma |
| Discovery.RegisterDiscoverRoundTrip | registry/consul.go:708-793 | a valid service with a host address is discovered field by field as registered exactly when no prefix holds a comma |
| Discovery.DiscoveryIsDeterminedExactlyWhen | registry/consul.go:649-661 | a list Discover may return is the only one exactly when instances in it that tie are identical |
| Discovery.TieExactlyWhen | registry/consul.go:649-661 | two instances tie exactly when their ports and the texts before it agree; with no separator in namespace and address exactly when all four fields do; never when they differ in one field only |
| Discovery.DiscoverySpelledOut | registry/consul.go:609-666 | the list has one entry for each passing instance with an address, a port and the right environment, with every field read off its registration, and no others |
| Discovery.RegisteredIsVisible | registry/consul.go:609-647 | a passing registration with an address is seen by agents of its environment |
| InstanceId.Stamp | registry/consul.go:833-843 | the first six bytes become the time modulo 2^48, version and variant are set above the low bits of bytes 6 and 8, and every other byte stays |
| InstanceId.NewInstanceId | registry/consul.go:825-848 | an error exactly when the random source fails, otherwise the text of the stamped bytes |
| InstanceId.IdHasTheLayout | registry/consul.go:840-847 | for all random bytes the text is grouped 8-4-4-4-12, says version 7 and has the variant bits of RFC 9562 |
| InstanceId.TimeReadsBack | registry/consul.go:833-839 | the first 48 bits decode to the millisecond time while it fits |
| InstanceId.EarlierIdsSortFirst | registry/consul.go:824-848 | an identifier of an earlier millisecond is lexicographically smaller, for all random bytes |
| InstanceId.IdsClashExactlyWhen | registry/consul.go:825-848 | two texts are equal exactly when millisecond and the 74 kept random bits agree |
| InstanceId.IdReadsBack | registry/consul.go:825-848 | without its dashes the text decodes, digit by digit, to the time modulo 2^48, version, variant and the random bytes in between |
| Fleet.HoldersOfLease | registry/consul.go:860-864 | a lease check belongs to the one instance it was made for |
| Fleet.LosesInstances | registry/consul.go:747-753 | Consul may drop any instances and the invariant stays |
| FleetRuns.BeginKeeps | registry/consul.go:341-371 | the lookup keeps the invariant: rejection, replay, and retiring the old instance of a changed request |
| FleetRuns.RouteKeeps | registry/consul.go:372-392 | so does the route check, whatever other agents did since the lookup |
| FleetRuns.EnlistKeeps | registry/consul.go:393-421 | so does registering with Consul under a fresh ID |
| FleetRuns.AdoptKeeps | registry/consul.go:422-433 | so does leasing and entering the service, or giving it up when Consul has dropped it meanwhile |
| Stages.RegisterIsItsStages | registry/consul.go:332-453 | Register as one call is its stages in a row, so what holds of all interleaved runs holds after it |
| Stages.ReachesAdvances | registry/consul.go:332-570 | between any two worlds of a run lives only move on, records stay and routes keep their meaning |
| FleetRuns.DrainKeeps | registry/consul.go:455-516 | so does Drain; a deregistered entry is not drained, since Consul does not know it |
| FleetRuns.DeregisterKeeps | registry/consul.go:519-570 | so does Deregister |
| FleetRuns.TickRefreshesKeeps | registry/consul.go:273-285 | so does each refresh of a lease tick, even of a service that has gone since the tick began |
| FleetRuns.ShutdownKeeps | registry/consul.go:203-223 | so does a shutdown, wherever it stops |
| FleetRuns.StepKeeps | registry/consul.go:203-570 | every step of the fleet keeps the invariant and undoes nothing |
| FleetRuns.RunsKeepInvariant | registry/consul.go:203-570 | every world any run can reach, with the registrations of all agents interleaved, satisfies the invariant that ties table, Consul and routes together |
| FleetRuns.RunsAdvance | registry/consul.go:347-371 | between any two points of a run lives only move on, records stay, and a route key keeps its meaning |
| Guarantees.LeasedInstanceHasOneHolder | registry/consul.go:332-570 | an instance whose lease was ever passed belongs to exactly one serving or draining entry, of its own run, under its own key |
| Guarantees.OneLeasedInstancePerNameAndPort | registry/consul.go:347-371 | a run never has two leased instances of one trimmed name and port |
| Guarantees.EntriesMatchConsul | registry/consul.go:492-554 | entries sit under their own key, a deregistered one is absent from Consul, a draining one in maintenance, and a registration is what its entry says |
| Guarantees.LifeOnlyMovesOn | registry/consul.go:492-554 | along a run an instance ID stays under one key; deregistered stays deregistered, draining never serves again, and nothing but state, update time and deadline ever changes |
| Guarantees.ReplayKeepsTheEntry | registry/consul.go:347-361 | a replay changes the update time and nothing else, and succeeds exactly when the call goes through and Consul still has the instance |
| Guarantees.OneMeaningPerRoute | registry/consul.go:372-392 | all instances ever registered under one route reference agree on service, namespace, version, port, protocol and methods |
| Guarantees.RoutesAreWrittenOnce | registry/consul.go:676-705 | a key that holds a document holds one of equal meaning ever after |
| Guarantees.AnewSucceedsExactlyWhen | registry/consul.go:372-452 | the part after the lookup succeeds exactly when every call goes through and the route document allows it |
| Guarantees.RegisterSucceedsExactlyWhen | registry/consul.go:332-453 | Register succeeds exactly when the request is valid and either it replays an instance Consul still has, or the old instance goes and the rest succeeds |
| Guarantees.ChangedMeaningAlwaysFails | registry/consul.go:362-392 | a call that nothing comes in between and that changes the route meaning under one reference always fails, and takes the old instance down once its removal went through |
| Guarantees.RouteCheckGoesOnExactlyWhen | registry/consul.go:372-392 | in an interleaved run the route check goes on exactly when both calls go through and the request means what was registered under its reference; otherwise the registration is over |
| Guarantees.ChangedMeaningNeverGoesOn | registry/consul.go:372-392 | so a changed meaning never gets past the route check, whatever happens between the stages |
| Guarantees.FailureLeavesServicesAloneExactlyWhen | registry/consul.go:362-433 | a failing Register leaves every active entry and its instance as they were exactly when it is not a valid change of an active service whose removal went through |
| Effects.RegisterRefusesExactlyWhen | model/types.go:66-113 | a request is refused exactly when one of ten texts is blank, port or weight is out of range, or the methods are missing or one is no path; then nothing changes |
| Effects.NewServiceLeaves | registry/consul.go:372-452 | a new registration that goes through leaves the entry, the Consul registration with every metadata field, one pass of its check, its lease and the route document, each read off request and settings, and changes nothing else |
| Effects.FailedServiceLeaves | registry/consul.go:372-433 | a failing one leaves the table alone; a conflict or a failing call before the registration leaves at most the document, a failing lease an instance that was never leased |
| Effects.ReplayDoes | registry/consul.go:347-361 | the same request again passes its check once more and notes the time, exactly if the call goes through and Consul knows the check |
| Effects.ChangeDoes | registry/consul.go:362-370 | another request first deregisters the old entry and removes its instance, then goes on as a new one; if the removal fails nothing changes |
| Effects.DrainDoes | registry/consul.go:455-516 | as a step of the fleet, Drain changes one entry and one maintenance mark exactly under the stated conditions, with the deadline 20 seconds or the given duration after the start; otherwise the world stays |
| Effects.DeregisterDoes | registry/consul.go:519-570 | as a step of the fleet, Deregister deregisters one entry and removes one instance exactly under the stated conditions; otherwise the world stays |
| Effects.RemovalsDo | registry/consul.go:302-326 | cleaning up and reaping remove the given instances with their marks and nothing else |
| Overlaps.SecondHalfKeepsHoldersExactlyWhen | registry/consul.go:348-433 | when requests of one agent overlap, finishing a new registration keeps leased instances held exactly when no leased entry has appeared under its key meanwhile |
| Overlaps.OverlappingRegistersLeak | registry/consul.go:348-433 | two overlapping registrations of one service leave a leased instance that no entry holds |
| Overlaps.StaleReplayIsSafeExactlyWhen | registry/consul.go:348-358 | the late store of a replay undoes nothing exactly when the table still holds the instance it read, at no later state |
| Overlaps.StaleReplayStrandsExactlyWhen | registry/consul.go:348-358 | it leaves a leased instance without an entry exactly when the table holds another leased one by then |
| Overlaps.StaleReplayUndoesDrain | registry/consul.go:348-358 | a drain in between is undone: the entry serves while Consul keeps its instance in maintenance |
| Overlaps.StaleRetireIsSafeExactlyWhen | registry/consul.go:363-370 | the late removal of a changed request undoes nothing exactly when the table still holds the instance it read |
| Overlaps.StaleRetireStrandsExactlyWhen | registry/consul.go:363-370 | it leaves a leased instance without an entry exactly when the table holds another leased one by then |
| Overlaps.OverlappingChangesStrand | registry/consul.go:348-433 | two overlapping changes of one service strand the instance of the one that goes through |
| Overlaps.ChangesMayOverlap | registry/consul.go:348-433 | such changes are possible in a reachable world |
| Overlaps.LateWriteKeepsMeaningsExactlyWhen | registry/consul.go:679-702 | a late route write keeps every meaning exactly when what is there at that moment allows it |
| Overlaps.LateWriteKeepsRecordsExactlyWhen | registry/consul.go:679-702 | it keeps documents and registrations in agreement exactly when everything ever registered under the reference has the meaning written |
| Overlaps.LateWriteSplitsAService | registry/consul.go:679-702 | a run of two agents with one late write ends with two leased instances under one reference that disagree on the port |
| Guarantees.ShutdownComplete | registry/consul.go:203-223 | a complete shutdown leaves every entry deregistered and no leased instance of the run in Consul |
| Guarantees.ShutdownExactly | registry/consul.go:203-223 | a shutdown that stopped early has deregistered and removed exactly the services it got through |
| Guarantees.ShutdownTakes | registry/consul.go:203-223 | what is removed are the instances of those services with their marks, and nothing else |
| AgentIds.CleanupTargetsExactly | registry/consul.go:302-317 | cleanup is after an instance exactly when a run of the same agent ID but another run ID registered it |
| AgentIds.AgentIdIsUniqueExactlyWhen | registry/consul.go:851-858 | an agent ID belongs to one trimmed cluster, zone and host exactly when none of them holds a colon without a blank beside it |
| AgentIds.CleanupStaysAtHomeExactlyWhen | registry/consul.go:290-329 | the cleanups of an agent only ever remove instances registered at its own place, in all reachable worlds, exactly when its place is such a one |
| AgentIds.CleanupOfAStranger | registry/consul.go:290-329 | for every other agent there is a reachable world in which its cleanup removes a stranger's instance |
| AgentIds.CleanupSparesOtherHosts | registry/consul.go:290-329 | agents without colons in cluster and zone that differ in cluster, zone or host never remove each other's instances |
| AgentIds.AgentIdTellsHostsApart | registry/consul.go:851-858 | without colons in cluster and zone, agent IDs agree exactly when cluster, zone and host do |
| Snapshot.GroupInstances | xds/snapshot.go:400-434 | the groups by name, namespace and port in ascending key order, each with its instances in input order, for every map order |
| Snapshot.BuildLoadAssignment | xds/snapshot.go:314-377 | the buckets by priority and zone in ascending key order, for every map order, and the number of instances |
| Snapshot.LocalityKeysAgree | xds/snapshot.go:325-362 | the key buckets are filled by and the key they are sorted by agree exactly when zone and priority do |
| SnapshotBuilder.GroupsSpelledOut | xds/snapshot.go:400-434 | groups ascend by the text of name, namespace and port; each holds the instances of its text in input order under the header of the first, and every instance is in one |
| SnapshotBuilder.Builder.constructor | xds/snapshot.go:92-105 | a blank prefix falls back to the default, versions start at zero |
| SnapshotBuilder.Builder.Build | xds/snapshot.go:108-177 | the snapshot is a function of the instances, the version steps by one as a 64-bit number, the summary counts groups and instances; a bad listener address changes nothing |
| SnapshotBuilder.GroupsConserve | xds/snapshot.go:402-419 | grouping loses and invents no instance and leaves no group empty |
| SnapshotBuilder.BucketsConserve | xds/snapshot.go:320-359 | splitting into buckets loses and invents no endpoint and leaves no bucket empty |
| SnapshotBuilder.GroupsCountInstances | xds/snapshot.go:116-127 | the endpoint count is the number of instances, whatever keys collide |
| SnapshotBuilder.AssignmentsConserve | xds/snapshot.go:118-132 | all load assignments together hold one endpoint per instance |
| SnapshotBuilder.BucketsByLocality | xds/snapshot.go:320-371 | one bucket per zone and side of the local cluster, with address, port and weight of exactly those instances in order; priority 0 is the local side and comes first, zones ascend on either side |
| SnapshotBuilder.PriorityTellsTheSide | xds/snapshot.go:321-324 | the priority 0 endpoints are address, port and weight of exactly the instances whose trimmed cluster is the trimmed local one, the priority 1 endpoints those of the rest |
| SnapshotBuilder.BuildRefinesFilterExactlyWhen | xds/snapshot.go:108-132 | each service's cluster is made from exactly its instances, for all instances, exactly when group keys and cluster names do not collide |
| SnapshotBuilder.PlainNamesDoNotCollide | xds/snapshot.go:380-383 | trimmed names and namespaces without the separators never collide |
| SnapshotBuilder.PlainServiceIsServed | xds/snapshot.go:108-177 | for such names the assignment under the service's cluster name holds exactly the instances of that name, namespace and port |
| SnapshotBuilder.IndexedIsServed | xds/snapshot.go:145-151 | of several resources under one name the last one stays |
| SnapshotBuilder.ResourcesSpelledOut | xds/snapshot.go:108-158 | group by group, a virtual host named like its cluster, answering for the DNS name with and without port; under each cluster name the buckets of the last group that has it |
| SnapshotBuilder.ReferencesClose | xds/snapshot.go:155-158 | every cluster has its assignment and every virtual host routes to a cluster of the snapshot |
| EndToEnd.OnePortPerService | registry/consul.go:608-705 | with a shared KV prefix and atomic route checks, however agents overlap, two discovered instances of one name and namespace have one port |
| EndToEnd.LateWriteBreaksOnePort | registry/consul.go:679-702 | without atomic route checks that fails: one late write, and both ports are discovered |
| EndToEnd.DiscoverHasOneResultExactlyWhen | registry/consul.go:649-661 | in every reachable world Discover has one possible result exactly when no two visible instances tie in the text of name, namespace, address and port |
| EndToEnd.TiesHappen | registry/consul.go:649-661 | two runs on one host that register one service tie, and Discover then has two results |
| EndToEnd.TrimmedNamesDecide | xds/snapshot.go:380-383 | with a shared KV prefix, discovered instances whose names and namespaces differ in surrounding blanks only are of one service |
| EndToEnd.DiscoveredNamesDoNotCollide | xds/snapshot.go:108-132 | so in every reachable world, with namespaces that hold neither separator, each discovered service is served by a cluster of exactly its instances |
| EndToEnd.SeparatorsCollide | xds/snapshot.go:380-383 | with a separator in a namespace two discovered services share a cluster name, under any settings |
| EndToEnd.BlanksCollideAcrossPrefixes | xds/snapshot.go:380-383 | across KV prefixes surrounding blanks do the same |
| EndToEnd.CommasAreLost | registry/consul.go:722-791 | a valid request whose prefix holds a comma is registered and not discovered as registered |
| Publishing.UnchangedSetIsPublishedOnceExactlyWhen | discovery/watcher.go:93-147 | from any point with nothing pending, any mix of refreshes of one healthy set publishes at most once exactly when no two instances of it tie |
| Publishing.TiedSetIsRepublished | discovery/watcher.go:93-147 | with a tie an unchanged set can be published any number of times, whatever the debounce interval |
| EndToEnd.OneClusterPerService | xds/snapshot.go:400-434 | so they end up in the same group and under one cluster name |
| EndToEnd.DiscoveredFields | registry/consul.go:708-793 | a discovered instance carries ID, name, namespace, port and environment of the registration behind it |
| EndToEnd.DiscoveredFromSettings | registry/consul.go:401-415 | zone, cluster, address and route reference are those of the agent's settings, trimmed; DNS name, version, protocol and weight those of the request |
| EndToEnd.DiscoveredAsRegistered | registry/consul.go:708-793 | in every reachable world an instance with a host address is discovered as registered exactly when its prefixes hold no comma |
| EndToEnd.DiscoveredIsServing | registry/consul.go:609-666 | what Consul reports as passing is held by a serving entry; nothing that drains or was deregistered is discovered |
| Watcher.DiscoveryWatcher.constructor | discovery/watcher.go:51-60 | nothing is published yet |
| Watcher.DiscoveryWatcher.RefreshOnce | discovery/watcher.go:93-147 | ends without error exactly when discovery succeeded and the list was the last one, came too soon or was accepted; publishes exactly when it was new, due and accepted; otherwise the memory stays |
| Watcher.DiscoveryWatcher.Run | discovery/watcher.go:63-84 | ends without error exactly when every refresh would; otherwise the memory is what the refreshes before the first failing one left, and a failed discovery anywhere in the feed means an error |
| Watcher.PublicationsAreSafe | discovery/watcher.go:93-147 | for all interleavings the memory describes the last accepted list, consecutive lists differ and are a debounce interval apart |
| Watcher.CommitPublishesExactlyWhen | discovery/watcher.go:118-136 | under the lock a list is published exactly when it differs from the last one, is due and is accepted; otherwise nothing changes |
| Watcher.OrderIsKeptExactlyWhen | discovery/watcher.go:93-147 | at any point of any run, starting one more refresh keeps publications in the order in which refreshes were started, in every continuation without further overlap, exactly when no refresh is pending and the order was kept so far |
| Watcher.SolitaryRunsPublishInOrder | discovery/watcher.go:63-84 | a run in which no refresh starts before the one before it is done publishes in the order of starting |
| Watcher.OlderListMayComeLast | discovery/watcher.go:98-134 | with any debounce interval the list of a refresh started and answered earlier may be the one published last |
| Watcher.UnchangedIsPublishedOnce | discovery/watcher.go:118-122 | while every discovery finds the same list, any mix of overlapping refreshes publishes it at most once, and not if it was the last one |
| Watcher.AlternatingIsRepublished | discovery/watcher.go:118-136 | a source that answers now one list and now another is published any number of times |
| Watcher.SettlesExactlyWhen | discovery/watcher.go:63-84 | a settled list is the published one after n refreshes exactly when it already was, nothing was published, or the last refresh came a debounce interval after the last publication |
| Watcher.SettlesInTime | discovery/watcher.go:63-84 | that takes at most one refresh more than the debounce interval has refresh intervals |
| Watcher.SettledStays | discovery/watcher.go:118-122 | afterwards no refresh of the settled source publishes again |
| Lease.SurvivesExactlyWhen | registry/consul.go:265-287 | leases survive every schedule with at most k failures in a row exactly when k + 1 intervals are shorter than the TTL |
| Lease.ValidatedExactlyWhenLeasesHold | config/config.go:361-364 | leases hold in every failure-free run, whenever the service was added, exactly when the check on the configuration passes and the interval can drive a ticker |
| Refreshing.RefreshDoes | registry/consul.go:273-285 | in every reachable world a refresh passes the check of the next service once and leases its instance exactly if the call goes through and Consul has the instance, and changes nothing else |
| Refreshing.LeaseChecksDiffer | registry/consul.go:243-256 | the active services of one agent all have different lease checks |
| Refreshing.TickPassesEachOnce | registry/consul.go:273-285 | a tick that nothing comes in between passes the check of every active service exactly once if its call goes through and Consul has its instance, and no other check |
| Refreshing.TickIsItsSteps | registry/consul.go:273-285 | that tick is one the fleet can take |
| Refreshing.OthersPassNothing | registry/consul.go:259-285 | besides refreshes only registrations pass lease checks |
| Refreshing.EachServiceIsTriedOnce | registry/consul.go:273-285 | whatever the fleet does during a tick, the tick tries each service that was active when it began exactly once |
| Refreshing.RenewsExactlyWhen | registry/consul.go:273-285 | that try counts one more pass exactly when the call goes through and Consul then has the instance |
| Refreshing.LeaseIsKept | registry/consul.go:265-287 | with accepted settings a lease never expires while the ticks after the registration go well, whatever else happens; with up to k bad ones in a row if k + 1 intervals are shorter than the TTL |
| Envoy.Manager.constructor | envoy/manager.go:51-62 | no child, no context, nothing to cancel |
| Envoy.Manager.Start | envoy/manager.go:65-84 | a second Start does nothing; a failed one is cancelled; a good one records child, channel and context |
| Envoy.Manager.StartProcessLocked | envoy/manager.go:200-235 | a started child becomes the current one with its own channel and no stored exit, a failed start changes nothing |
| Envoy.Manager.OpenContext | envoy/manager.go:72-73 | context and cancellation are set, nothing else changes |
| Envoy.Manager.AbandonStart | envoy/manager.go:75-79 | there is nothing left to cancel |
| Envoy.Manager.Stop | envoy/manager.go:87-125 | nothing to do without a manager or child; a clean exit clears everything, any error leaves the child in place |
| Envoy.Manager.BeginStop | envoy/manager.go:87-105 | nothing without a running manager; otherwise it is cancelled and the current child is the one to signal |
| Envoy.Manager.FinishStop | envoy/manager.go:118-125 | child, channel, stored exit and context are cleared |
| Envoy.Manager.ClearExited | envoy/manager.go:156-163 | only the child the loop waited for is cleared, not a newer one |
| Envoy.Manager.RecordExit | envoy/manager.go:220-222 | the stored exit becomes that of the child just reaped, nothing else changes |
| Envoy.Manager.Perform | envoy/manager.go:65-225 | at every event of the transition system the fields of the object become those of its next state |
| Envoy.StepKeeps | envoy/manager.go:65-225 | every step of every thread keeps the invariant |
| Envoy.RunsKeepInvariant | envoy/manager.go:65-225 | so does every interleaving |
| Envoy.AtMostOneChildUnreaped | envoy/manager.go:134-225 | at most one child is started and not reaped, and it is the newest |
| Envoy.EachChildIsReapedOnce | envoy/manager.go:216-224 | one Wait and one close per child, the close after the Wait, each exactly when its waiter gets there |
| Envoy.StopReadsItsOwnChild | envoy/manager.go:106-117 | the exit result a Stop reads is that of the child it signalled |
| Envoy.ChildrenMatchRestarts | envoy/manager.go:174-195 | the children number the counted restarts or one more |
| Envoy.MutualExclusion | envoy/manager.go:65-126 | at most one thread is inside a long critical section, and it holds the mutex |
| Envoy.ChildrenStartUncancelled | envoy/manager.go:184-215 | a child is started only by Start or the watch loop, under the mutex, and not once Stop has cancelled |
| Envoy.NoChildAfterStop | envoy/manager.go:91-97 | whatever happens after Stop has cancelled, no child is started |
| Envoy.NoChildAfterParent | envoy/manager.go:184-188 | once the parent's context has ended no child is started, unless a restart had already begun |
| Envoy.DeliberateStopsAreNotCounted | envoy/manager.go:164-177 | once the context has ended, by Stop or by the parent, no continuation counts another restart |
| Envoy.RestartIsCountedExactlyWhen | envoy/manager.go:164-177 | a restart is counted exactly when the loop checks after an exit and the context has not ended |
| Envoy.ChildGoesExactlyWhen | envoy/manager.go:106-163 | the current child is let go exactly when a Stop saw it exit cleanly or the loop clears the one it waited for |
| Envoy.ContextGoesExactlyWhen | envoy/manager.go:75-124 | the context is let go by such a Stop only, the cancellation when a Stop takes the mutex or Start fails |
| Envoy.FailedStopLeavesTheFields | envoy/manager.go:100-117 | a Stop that fails is over and leaves the fields as they are |
| Envoy.FailedRestartIsFinal | envoy/manager.go:184-196 | after a restart that fails no child is ever started |
| Envoy.RestartMayBeTried | envoy/manager.go:156-196 | a restart that may fail is reachable |
| Envoy.AnotherChildExactlyWhen | envoy/manager.go:65-225 | some continuation starts another child exactly when Start is to come or under way, or the manager has started, its loop still supervises, Stop has not cancelled, and the parent's context has not ended except under a restart already begun |
| Envoy.StopSeesExitExactlyWhen | envoy/manager.go:106-124 | a Stop that holds the mutex can see its child exit exactly when the waiter recorded the exit before |
| Envoy.StopMayMissTheExit | envoy/manager.go:87-117 | a Stop of a running child, whose exit is not recorded, is reachable |
| Envoy.LoopHangsExactlyWhen | envoy/manager.go:136-153 | the loop waits forever exactly when a Stop finished between its two reads |
| Envoy.LoopMayHang | envoy/manager.go:136-153 | such a state is reachable |

## Left out

- HTTP handlers, the SSE stream, gRPC serving, DNS serving and forwarding, process entry: plumbing around libraries.
- Telemetry, logs, spans and exported metrics; the Envoy restart counter is kept as part of the state.
- YAML loading and the rest of the configuration's checks; only the lease inequality matters here.
- Envoy's bootstrap file, and the contents of listener, cluster and virtual host beyond names, domains, targets, priorities and endpoints.
- SHA-256 and JSON: the fingerprint of a list is the list itself, and a stored route document is its canonical value, so foreign text under a key is not modelled.
- go-control-plane's own consistency check: that it cannot fail follows from `ReferencesClose`, its code is not part of this model.
- Consul's stale reads, and calls that report an error after taking effect.
- The metadata fields `agent_started_at` and `run_date`, the TCP check and the check durations of a registration: nothing reads them back. Metadata is a record, so a missing key and an empty value are one.
- `time.ParseDuration`: a grace period is blank, a duration or text that does not parse.
- The name of the field in a validation error, which Go picks by map order; errors are kinds, not texts.
- Strings that are not valid UTF-8.
- Uniqueness of virtual host domains, which the code does not enforce.
- Shared references in the grouping maps: a group or bucket under construction is written back to its map as a value.
- RegistryClient.Client.constructor: the run ID is a parameter; that the program generates it, or falls back to a timestamp, is not modelled.
- RegistryClient.Client.EnsureRoute: stored text that is not a route document, an error in the program, is not modelled.
- SnapshotBuilder.Builder.Build: whether the listener address parses is an input, and the snapshot library does not fail.
- RegistryClient.Client.Register: the effect of one call that nothing came in between; interleavings with other agents are in `FleetRuns`, with requests of the same agent in `Overlaps`.
- Envoy.Manager.Stop: waiting and signals are inputs here; who waits for whom is in the transition system.
- Lease.SurvivesExactlyWhen: ticks and passes take no time, and the refresh of a tick reaches each service at the tick.
- Watcher.SettlesInTime: refreshes take no time, and the source neither fails nor changes once settled.
- Whether shutting down the whole application succeeds, and whether an Envoy Stop returns before its context ends; the code guarantees neither.
