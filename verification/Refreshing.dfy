/** Lease ticks in a fleet: every active service is tried once a tick, whatever happens in
    between, and what that means for its lease. */
module Refreshing {
  import opened Model
  import opened Consul
  import opened Registry
  import opened InstanceId
  import opened Fleet
  import opened FleetRuns
  import opened Stages
  import L = Lease

  // ------------------------------------------------------------- one refresh

  /** A refresh passes the check of the next service once and leases its instance, exactly
      if the call goes through and Consul has the instance; the service is done with either
      way, and nothing else changes. */
  lemma RefreshDoes(w: World, run: string, up: bool)
    requires Reachable(w) && Enabled(w, TickRefreshes(run, up))
    ensures var w', agent := Step(w, TickRefreshes(run, up)), w.agents[run];
            var s := agent.queue[0];
            && w'.agents == w.agents[run := agent.(queue := agent.queue[1..])] && w'.history == w.history
            && w'.store == if up && s.instanceId in w.store.instances
                           then w.store.(leased := w.store.leased + {s.instanceId},
                                         passes := w.store.passes + multiset{s.leaseCheckId})
                           else w.store
  {
    hide RecordOk, InstanceOk, EntryOk, PendingOk, LeaseCheckIdFor, Owned, Reachable;
    ReachableIsFine(w);
    var s := w.agents[run].queue[0];
    assert s in w.agents[run].queue && QueuedOk(w, run, s);
    HoldersOfLease(w, s.instanceId);
  }

  /** Besides refreshes only registrations pass lease checks. */
  lemma OthersPassNothing(w: World, e: Event)
    requires Enabled(w, e) && !e.TickRefreshes? && !e.RegisterBegins? && !e.RegisterAdopts?
    ensures Step(w, e).store.passes == w.store.passes
  {
    hide LocalKey, NewService, RegistrationFor, RouteRead, DocumentFor, RouteConfigRef, ShutdownLocals,
         RegisterRequest.Valid, BuildAgentId, FreshId, KeyOfService;
    if e.ShutdownCall? {
      ShutdownStoreExactly(w.agents[e.run].locals, w.store, e.order, e.done);
    }
  }

  /** The lease checks of the active services of one agent are all different. */
  lemma LeaseChecksDiffer(w: World, run: string, order: seq<string>, i: nat)
    requires Reachable(w) && run in w.agents && ActiveOrder(w.agents[run].locals, order) && i < |order|
    ensures IsOnly(Lookup(w.agents[run].locals, order), i)
    ensures forall j :: 0 <= j < |order| && j != i ==>
              Lookup(w.agents[run].locals, order)[j].instanceId != Lookup(w.agents[run].locals, order)[i].instanceId
    ensures Known(w.store, Lookup(w.agents[run].locals, order)[i].leaseCheckId)
       <==> Lookup(w.agents[run].locals, order)[i].instanceId in w.store.instances
  {
    hide InstanceOk, EntryOk, QueuedOk, PendingOk, LeaseCheckIdFor, Owned, KeyOfService, IsInstanceId, Reachable,
         RecordOk;
    ReachableIsFine(w);
    var locals := w.agents[run].locals;
    var services := Lookup(locals, order);
    assert order[i] in order;
    EntryFacts(w, run, order[i]);
    RecordFacts(w, services[i].instanceId) by { assert RecordOk(w, services[i].instanceId); }
    KnownHasHolders(w.store, services[i].leaseCheckId);
    HoldersOfLease(w, services[i].instanceId);
    forall j | 0 <= j < |order| && j != i
      ensures services[j].leaseCheckId != services[i].leaseCheckId
      ensures services[j].instanceId != services[i].instanceId
    {
      assert order[j] in order && order[j] != order[i];
      EntryFacts(w, run, order[j]);
      RecordFacts(w, services[j].instanceId) by { assert RecordOk(w, services[j].instanceId); }
      if services[j].leaseCheckId == services[i].leaseCheckId {
        LeaseCheckIdIsInjective(services[j].instanceId, services[i].instanceId);
      }
    }
  }

  /** A tick that nothing comes in between passes the check of every active service
      exactly once if its call goes through and Consul has its instance, and then leases
      the instance; no other check is passed. */
  lemma TickPassesEachOnce(w: World, run: string, order: seq<string>, up: nat -> bool, check: string)
    requires Reachable(w) && run in w.agents && ActiveOrder(w.agents[run].locals, order)
    ensures var services := Lookup(w.agents[run].locals, order);
            var after := RefreshedStore(w.store, services, up, |order|);
            && after == w.store.(leased := after.leased, passes := after.passes)
            && (forall i :: 0 <= i < |order| && services[i].leaseCheckId == check ==>
                  var passed := up(i) && services[i].instanceId in w.store.instances;
                  && after.passes[check] == w.store.passes[check] + (if passed then 1 else 0)
                  && (passed ==> services[i].instanceId in after.leased))
            && ((forall i :: 0 <= i < |order| ==> services[i].leaseCheckId != check) ==>
                  after.passes[check] == w.store.passes[check])
  {
    hide Reachable, Known, IsOnly, RefreshedStore;
    var services := Lookup(w.agents[run].locals, order);
    RefreshedStoreIsTicked(w.store, services, up, |order|);
    assert services[..|order|] == services;
    var after := RefreshedStore(w.store, services, up, |order|);
    forall i | 0 <= i < |order| && services[i].leaseCheckId == check
      ensures var passed := up(i) && services[i].instanceId in w.store.instances;
              && after.passes[check] == w.store.passes[check] + (if passed then 1 else 0)
              && (passed ==> services[i].instanceId in after.leased)
    {
      LeaseChecksDiffer(w, run, order, i);
      assert PassedOnce(w.store, after, services[i].leaseCheckId, up(i));
      if services[i].instanceId in w.store.instances {
        InstanceHasItsCheck(w, run, order, i);
      }
    }
  }

  lemma InstanceHasItsCheck(w: World, run: string, order: seq<string>, i: nat)
    requires Reachable(w) && run in w.agents && ActiveOrder(w.agents[run].locals, order) && i < |order|
    requires Lookup(w.agents[run].locals, order)[i].instanceId in w.store.instances
    ensures var s := Lookup(w.agents[run].locals, order)[i];
            w.store.instances[s.instanceId].leaseCheckId == s.leaseCheckId
  {
    hide InstanceOk, EntryOk, QueuedOk, PendingOk, LeaseCheckIdFor, Owned, KeyOfService, Reachable, RecordOk;
    ReachableIsFine(w);
    assert order[i] in order;
    EntryFacts(w, run, order[i]);
    HoldersOfLease(w, w.agents[run].locals[order[i]].instanceId);
    assert w.agents[run].locals[order[i]].instanceId in w.store.Holders(w.agents[run].locals[order[i]].leaseCheckId);
  }

  /** A tick begun and then `n` refreshes in a row. */
  ghost function Ticking(w: World, run: string, order: seq<string>, up: nat -> bool, n: nat): World
    requires Enabled(w, TickBegins(run, order)) && n <= |order|
  {
    var services := Lookup(w.agents[run].locals, order);
    w.WithStore(RefreshedStore(w.store, services, up, n)).WithAgent(run, w.agents[run].(queue := services[n..]))
  }

  /** That tick is one the fleet can take: its snapshot and then its refreshes in a row. */
  lemma {:induction false} TickIsItsSteps(w: World, run: string, order: seq<string>, up: nat -> bool, n: nat)
    requires Enabled(w, TickBegins(run, order)) && n <= |order|
    ensures Reaches(w, Ticking(w, run, order, up, n))
  {
    hide Reaches, Ticking, Step, Enabled;
    if n == 0 {
      ReachesItself(w);
      ReachesNext(w, w, TickBegins(run, order));
      TickStarts(w, run, order, up);
    } else {
      TickIsItsSteps(w, run, order, up, n - 1);
      TickGoesOn(w, run, order, up, n);
      ReachesNext(w, Ticking(w, run, order, up, n - 1), TickRefreshes(run, up(n - 1)));
    }
  }

  lemma TickStarts(w: World, run: string, order: seq<string>, up: nat -> bool)
    requires Enabled(w, TickBegins(run, order))
    ensures Step(w, TickBegins(run, order)) == Ticking(w, run, order, up, 0)
  {
    var services := Lookup(w.agents[run].locals, order);
    assert services[0..] == services;
  }

  lemma TickGoesOn(w: World, run: string, order: seq<string>, up: nat -> bool, n: nat)
    requires Enabled(w, TickBegins(run, order)) && 0 < n <= |order|
    ensures var v := Ticking(w, run, order, up, n - 1);
            && Enabled(v, TickRefreshes(run, up(n - 1)))
            && Step(v, TickRefreshes(run, up(n - 1))) == Ticking(w, run, order, up, n)
  {
    hide Refreshed;
    var services := Lookup(w.agents[run].locals, order);
    assert services[n - 1..][0] == services[n - 1] && services[n - 1..][1..] == services[n..];
  }

  // -------------------------------------------- ticks with anything in between

  /** One tick of a run: the world it finds, the active services it takes, and all that
      happens up to its last refresh. */
  datatype Tick = Tick(before: World, order: seq<string>, events: seq<Event>)

  ghost predicate IsTick(run: string, t: Tick) {
    && Reachable(t.before) && Enabled(t.before, TickBegins(run, t.order))
    && (forall e :: e in t.events && e.TickBegins? ==> e.run != run)
    && Follow(Step(t.before, TickBegins(run, t.order)), t.events).Some?
    && var end := Follow(Step(t.before, TickBegins(run, t.order)), t.events).value;
       run in end.agents && end.agents[run].queue == []
  }

  /** The services whose lease the tick is to refresh. */
  ghost function Taken(run: string, t: Tick): seq<LocalService>
    requires IsTick(run, t)
  {
    Lookup(t.before.agents[run].locals, t.order)
  }

  predicate IsTry(run: string, e: Event) { e.TickRefreshes? && e.run == run }

  function Tries(run: string, events: seq<Event>): nat {
    if events == [] then 0
    else Tries(run, events[..|events| - 1]) + (if IsTry(run, events[|events| - 1]) then 1 else 0)
  }

  /** Nothing but the refreshes of a run shortens its queue. */
  lemma StepQueue(w: World, run: string, e: Event)
    requires run in w.agents && Enabled(w, e) && !(e.TickBegins? && e.run == run)
    ensures run in Step(w, e).agents
    ensures Step(w, e).agents[run].queue
         == if IsTry(run, e) then w.agents[run].queue[1..] else w.agents[run].queue
    ensures IsTry(run, e) ==> w.agents[run].queue != []
  {
    hide LocalKey, SameRequest, NewService, RegistrationFor, RouteRead, DocumentFor, RouteConfigRef, Refreshed,
         DrainOutcome, DeregisterOutcome, Replay, ShutdownLocals, ShutdownStore, KeyOfService, RegisterRequest.Valid,
         BuildAgentId, ActiveOrder, FreshId;
  }

  lemma {:induction false} FollowsFirst(w: World, events: seq<Event>, n: nat)
    requires Follow(w, events).Some? && n <= |events|
    ensures Follow(w, events[..n]).Some?
    ensures n < |events| ==> Enabled(Follow(w, events[..n]).value, events[n])
    ensures n < |events| ==> Follow(w, events[..n + 1]) == Some(Step(Follow(w, events[..n]).value, events[n]))
  {
    hide Enabled, Step;
    if n == |events| {
      assert events[..n] == events;
    } else {
      assert events[..n + 1][..n] == events[..n];
      FollowsBefore(w, events, n + 1);
    }
  }

  lemma {:induction false} FollowsBefore(w: World, events: seq<Event>, n: nat)
    requires Follow(w, events).Some? && n <= |events|
    ensures Follow(w, events[..n]).Some?
  {
    hide Enabled, Step;
    if n == |events| {
      assert events[..n] == events;
    } else {
      var init := events[..|events| - 1];
      FollowsBefore(w, init, n);
      assert init[..n] == events[..n];
    }
  }

  lemma {:induction false} QueueIsWorkedOff(w: World, run: string, events: seq<Event>)
    requires run in w.agents && Follow(w, events).Some?
    requires forall e :: e in events && e.TickBegins? ==> e.run != run
    ensures var v := Follow(w, events).value;
            && run in v.agents && Tries(run, events) <= |w.agents[run].queue|
            && v.agents[run].queue == w.agents[run].queue[Tries(run, events)..]
  {
    hide Enabled, Step;
    if events != [] {
      var init, last := events[..|events| - 1], events[|events| - 1];
      assert events == init + [last];
      QueueIsWorkedOff(w, run, init);
      StepQueue(Follow(w, init).value, run, last);
    }
  }

  /** The world the k-th event of a tick finds. */
  ghost function FoundBy(run: string, t: Tick, k: nat): World
    requires IsTick(run, t) && k <= |t.events|
  {
    var begun := Step(t.before, TickBegins(run, t.order));
    FollowsBefore(begun, t.events, k);
    Follow(begun, t.events[..k]).value
  }

  lemma FoundInTick(run: string, t: Tick, k: nat)
    requires IsTick(run, t) && k <= |t.events|
    ensures Reachable(FoundBy(run, t, k)) && run in FoundBy(run, t, k).agents
    ensures Tries(run, t.events[..k]) <= |t.order|
    ensures FoundBy(run, t, k).agents[run].queue == Taken(run, t)[Tries(run, t.events[..k])..]
    ensures k < |t.events| ==>
              && Enabled(FoundBy(run, t, k), t.events[k])
              && FoundBy(run, t, k + 1) == Step(FoundBy(run, t, k), t.events[k])
    ensures k == |t.events| ==> Tries(run, t.events[..k]) == |t.order|
  {
    hide Follow, Reaches, RefreshedStore;
    var begun := Step(t.before, TickBegins(run, t.order));
    ReachesNext(INITIAL, t.before, TickBegins(run, t.order));
    assert begun.agents[run].queue == Taken(run, t);
    hide Step, Enabled;
    FollowsFirst(begun, t.events, k);
    QueueIsWorkedOff(begun, run, t.events[..k]);
    assert Reaches(begun, FoundBy(run, t, k)) by { ReachesBy(begun, t.events[..k]); }
    ReachableOn(begun, FoundBy(run, t, k));
    assert t.events[..|t.events|] == t.events;
  }

  lemma ReachesBy(w: World, events: seq<Event>)
    requires Follow(w, events).Some?
    ensures Reaches(w, Follow(w, events).value)
  {
  }

  /** The k-th event of the tick tries to pass the lease of the instance. */
  ghost predicate TriesAt(run: string, t: Tick, k: nat, id: string)
    requires IsTick(run, t)
  {
    && k < |t.events| && IsTry(run, t.events[k])
    && var w := FoundBy(run, t, k);
       run in w.agents && w.agents[run].queue != [] && w.agents[run].queue[0].instanceId == id
  }

  /** The i-th try among the events. */
  lemma {:induction false} PlaceOfTry(run: string, events: seq<Event>, i: nat) returns (k: nat)
    requires i < Tries(run, events)
    ensures k < |events| && IsTry(run, events[k]) && Tries(run, events[..k]) == i
  {
    var init := events[..|events| - 1];
    if i < Tries(run, init) {
      k := PlaceOfTry(run, init, i);
      assert init[..k] == events[..k];
    } else {
      k := |init|;
    }
  }

  lemma {:induction false} LaterTries(run: string, events: seq<Event>, k: nat, n: nat)
    requires k < n <= |events| && IsTry(run, events[k])
    ensures Tries(run, events[..k]) < Tries(run, events[..n])
  {
    assert events[..n][..n - 1] == events[..n - 1];
    if k < n - 1 {
      LaterTries(run, events, k, n - 1);
    }
  }

  /** Whatever else happens during a tick, it tries each service that was active when it
      began exactly once. */
  lemma EachServiceIsTriedOnce(run: string, t: Tick, i: nat) returns (k: nat)
    requires IsTick(run, t) && i < |t.order|
    ensures TriesAt(run, t, k, Taken(run, t)[i].instanceId)
    ensures forall k': nat :: TriesAt(run, t, k', Taken(run, t)[i].instanceId) ==> k' == k
  {
    hide Reachable, Reaches, Follow, Step, Enabled, FoundBy, Tries;
    var id := Taken(run, t)[i].instanceId;
    FoundInTick(run, t, |t.events|);
    assert t.events[..|t.events|] == t.events;
    k := PlaceOfTry(run, t.events, i);
    FoundInTick(run, t, k);
    forall k': nat | TriesAt(run, t, k', id)
      ensures k' == k
    {
      FoundInTick(run, t, k');
      OneTryEach(run, t, i, Tries(run, t.events[..k']));
      if k' < k { LaterTries(run, t.events, k', k); }
      if k < k' { LaterTries(run, t.events, k, k'); }
    }
  }

  lemma OneTryEach(run: string, t: Tick, i: nat, j: nat)
    requires IsTick(run, t) && i < |t.order| && j < |t.order|
    requires Taken(run, t)[i].instanceId == Taken(run, t)[j].instanceId
    ensures i == j
  {
    hide Reachable, Follow;
    LeaseChecksDiffer(t.before, run, t.order, i);
  }

  // ------------------------------------------------------------ and the lease

  /** A tick renews a lease if the check of the service is passed once more when the tick
      comes to it. */
  ghost predicate Renews(run: string, t: Tick, id: string)
    requires IsTick(run, t)
  {
    exists k: nat :: TriesAt(run, t, k, id) &&
      var w := FoundBy(run, t, k);
      var check := w.agents[run].queue[0].leaseCheckId;
      FoundBy(run, t, k + 1).store.passes[check] == w.store.passes[check] + 1
  }

  /** It does so exactly when the call goes through and Consul then has the instance. */
  lemma RenewsExactlyWhen(run: string, t: Tick, id: string, k: nat)
    requires IsTick(run, t) && TriesAt(run, t, k, id)
    requires forall k': nat :: TriesAt(run, t, k', id) ==> k' == k
    ensures Renews(run, t, id) <==> t.events[k].up && id in FoundBy(run, t, k).store.instances
  {
    hide Reachable, Reaches, Follow, Step, Enabled, FoundBy;
    FoundInTick(run, t, k);
    RefreshDoes(FoundBy(run, t, k), run, t.events[k].up);
  }

  ghost predicate AreTicks(run: string, ticks: seq<Tick>) {
    forall n :: 0 <= n < |ticks| ==> IsTick(run, ticks[n])
  }

  /** Which of the ticks renewed the lease. */
  ghost function Renewals(run: string, ticks: seq<Tick>, id: string): seq<bool>
    requires AreTicks(run, ticks)
  {
    seq(|ticks|, n requires 0 <= n < |ticks| => Renews(run, ticks[n], id))
  }

  /** The tick found the instance in an active entry, and when it came to it the call went
      through and Consul had the instance. */
  ghost predicate GoesWell(run: string, t: Tick, id: string)
    requires IsTick(run, t)
  {
    && (exists key :: Active(t.before.agents[run].locals, key) && t.before.agents[run].locals[key].instanceId == id)
    && (forall k: nat :: TriesAt(run, t, k, id) ==> t.events[k].up && id in FoundBy(run, t, k).store.instances)
  }

  lemma WellIsRenewed(run: string, t: Tick, id: string)
    requires IsTick(run, t) && GoesWell(run, t, id)
    ensures Renews(run, t, id)
  {
    hide Reachable, Reaches, Follow, Step, FoundBy, TriesAt, Renews;
    var locals := t.before.agents[run].locals;
    var key :| Active(locals, key) && locals[key].instanceId == id;
    assert key in t.order;
    var i :| 0 <= i < |t.order| && t.order[i] == key;
    assert Taken(run, t)[i].instanceId == id;
    var k := EachServiceIsTriedOnce(run, t, i);
    RenewsExactlyWhen(run, t, id, k);
  }

  /** One of the k + 1 ticks after the i-th goes well. */
  ghost predicate OneGoesWell(run: string, ticks: seq<Tick>, id: string, i: nat, k: nat)
    requires AreTicks(run, ticks)
  {
    exists j :: i <= j <= i + k && j < |ticks| && GoesWell(run, ticks[j], id)
  }

  /** With settings the configuration check accepts, the lease of a service never expires
      as long as the ticks after its registration go well, whatever else the fleet does
      meanwhile. If up to k ticks in a row may fail, k + 1 intervals have to be shorter
      than the TTL. */
  lemma LeaseIsKept(p: L.Plan, run: string, id: string, ticks: seq<Tick>, k: nat)
    requires AreTicks(run, ticks) && p.Running()
    requires if k == 0 then L.Validates(p.interval, p.ttl) else (k + 1) * p.interval < p.ttl
    requires forall i: nat :: i + k < |ticks| && p.Tick(i + 1) > p.registeredAt ==> OneGoesWell(run, ticks, id, i, k)
    ensures L.NeverExpires(p, Renewals(run, ticks, id))
  {
    hide IsTick, GoesWell, Renews, L.HeldAt;
    var refreshed := Renewals(run, ticks, id);
    forall i: nat | i + k < |refreshed| && p.Tick(i + 1) > p.registeredAt
      ensures L.SomeSucceeds(refreshed, i, k)
    {
      assert OneGoesWell(run, ticks, id, i, k);
      var j :| i <= j <= i + k && j < |ticks| && GoesWell(run, ticks[j], id);
      WellIsRenewed(run, ticks[j], id);
      assert refreshed[j];
    }
    hide L.Plan.Tick, Renewals;
    forall now | p.registeredAt < now <= p.Tick(|refreshed| + 1)
      ensures L.HeldAt(p, refreshed, now)
    {
      L.HeldWhileFailuresAreFew(p, refreshed, k, now);
    }
  }
}
