/** Agent IDs: when they tell hosts apart, and whose instances a restart cleanup
    removes. */
module AgentIds {
  import opened Text
  import opened Model
  import opened Registry
  import opened Fleet
  import opened FleetRuns
  import opened Stages
  import opened Scenarios

  // ---------------------------------------------------------------- agent IDs

  /** Where an agent runs. */
  datatype Place = Place(cluster: string, zone: string, host: string)

  function PlaceOf(settings: Settings): Place {
    Place(TrimSpace(settings.clusterName), TrimSpace(settings.zone), TrimSpace(settings.hostIp))
  }

  function IdOf(p: Place): string {
    p.cluster + ":" + p.zone + ":" + p.host
  }

  lemma AgentIdIsTrimmed(settings: Settings)
    ensures TrimSpace(BuildAgentId(settings)) == BuildAgentId(settings)
  {
    var cluster, zone, host := TrimSpace(settings.clusterName), TrimSpace(settings.zone), TrimSpace(settings.hostIp);
    TrimSpaceFixes(settings.clusterName);
    TrimSpaceFixes(settings.hostIp);
    var id := BuildAgentId(settings);
    assert id == cluster + (":" + zone + ":" + host);
    assert id[0] == if cluster == "" then ':' else cluster[0];
    assert id[|id| - 1] == if host == "" then ':' else host[|host| - 1];
    TrimSpaceFixes(id);
  }

  /** Agents whose cluster and zone hold no colon have the same agent ID only if
      they agree on cluster, zone and host. */
  lemma AgentIdTellsHostsApart(a: Settings, b: Settings)
    requires ':' !in a.clusterName && ':' !in a.zone && ':' !in b.clusterName && ':' !in b.zone
    ensures BuildAgentId(a) == BuildAgentId(b)
       <==> && TrimSpace(a.clusterName) == TrimSpace(b.clusterName)
            && TrimSpace(a.zone) == TrimSpace(b.zone)
            && TrimSpace(a.hostIp) == TrimSpace(b.hostIp)
  {
    TrimInvents(a.clusterName, ':');
    TrimInvents(a.zone, ':');
    TrimInvents(b.clusterName, ':');
    TrimInvents(b.zone, ':');
    if BuildAgentId(a) == BuildAgentId(b) {
      var ra, rb := TrimSpace(a.zone) + ":" + TrimSpace(a.hostIp), TrimSpace(b.zone) + ":" + TrimSpace(b.hostIp);
      assert BuildAgentId(a) == TrimSpace(a.clusterName) + [':'] + ra;
      assert BuildAgentId(b) == TrimSpace(b.clusterName) + [':'] + rb;
      SplitAtFirst(TrimSpace(a.clusterName), ra, TrimSpace(b.clusterName), rb, ':');
      SplitAtFirst(TrimSpace(a.zone), TrimSpace(a.hostIp), TrimSpace(b.zone), TrimSpace(b.hostIp), ':');
    }
  }

  /** A colon without a blank on either side. */
  predicate OpenColon(s: string, i: int) {
    && 0 <= i < |s| && s[i] == ':'
    && (i == 0 || !IsSpace(s[i - 1])) && (i == |s| - 1 || !IsSpace(s[i + 1]))
  }

  predicate Breakable(part: string) {
    exists i :: 0 <= i < |part| && OpenColon(part, i)
  }

  predicate PlaceIsBreakable(p: Place) {
    Breakable(p.cluster) || Breakable(p.zone) || Breakable(p.host)
  }

  predicate TrimmedPlace(p: Place) {
    Trimmed(p.cluster) && Trimmed(p.zone) && Trimmed(p.host)
  }

  /** The open colons of an ID are its two separators and those of its parts. */
  lemma OpenColonsOf(p: Place, i: int)
    requires TrimmedPlace(p)
    ensures var zoneAt, hostAt := |p.cluster| + 1, |p.cluster| + |p.zone| + 2;
            (OpenColon(IdOf(p), i) <==>
               || i == zoneAt - 1 || i == hostAt - 1 || OpenColon(p.cluster, i)
               || OpenColon(p.zone, i - zoneAt) || OpenColon(p.host, i - hostAt))
  {
    var id, zoneAt, hostAt := IdOf(p), |p.cluster| + 1, |p.cluster| + |p.zone| + 2;
    assert forall j :: 0 <= j < zoneAt - 1 ==> id[j] == p.cluster[j];
    assert forall j :: zoneAt <= j < hostAt - 1 ==> id[j] == p.zone[j - zoneAt];
    assert forall j :: hostAt <= j < |id| ==> id[j] == p.host[j - hostAt];
    assert id[zoneAt - 1] == ':' && id[hostAt - 1] == ':';
  }

  lemma PlacesRead(p: Place, q: Place)
    requires IdOf(p) == IdOf(q) && |p.cluster| == |q.cluster| && |p.zone| == |q.zone|
    ensures p == q
  {
    var id, c, z := IdOf(p), |p.cluster|, |p.zone|;
    assert p.cluster == id[..c] == q.cluster;
    assert p.zone == id[c + 1..c + 1 + z] == q.zone;
    assert p.host == id[c + z + 2..] == q.host;
  }

  lemma UnbreakableIsUnique(p: Place, q: Place)
    requires TrimmedPlace(p) && TrimmedPlace(q) && !PlaceIsBreakable(p) && IdOf(p) == IdOf(q)
    ensures p == q
  {
    hide IdOf, OpenColon, Trimmed;
    var first, second := |q.cluster|, |q.cluster| + |q.zone| + 1;
    OpenColonsOf(q, first);
    OpenColonsOf(q, second);
    OpenColonsOf(p, first);
    OpenColonsOf(p, second);
    ClosedParts(p, first);
    ClosedParts(p, second);
    PlacesRead(p, q);
  }

  lemma ClosedParts(p: Place, i: int)
    requires !PlaceIsBreakable(p)
    ensures !OpenColon(p.cluster, i) && !OpenColon(p.zone, i - |p.cluster| - 1)
    ensures !OpenColon(p.host, i - |p.cluster| - |p.zone| - 2)
  {
  }

  lemma Break(part: string) returns (x: string, y: string)
    requires Trimmed(part) && Breakable(part)
    ensures part == x + ":" + y && Trimmed(x) && Trimmed(y)
  {
    var i :| 0 <= i < |part| && OpenColon(part, i);
    x, y := part[..i], part[i + 1..];
  }

  lemma Rejoin(x: string, y: string)
    requires Trimmed(x) && Trimmed(y)
    ensures Trimmed(x + ":" + y)
  {
    var s := x + ":" + y;
    assert s[0] == if x == "" then ':' else x[0];
    assert s[|s| - 1] == if y == "" then ':' else y[|y| - 1];
  }

  lemma FiveParts(a: string, b: string, c: string, d: string)
    ensures IdOf(Place(a, b + ":" + c, d)) == IdOf(Place(a + ":" + b, c, d)) == IdOf(Place(a, b, c + ":" + d))
  {
    var ab, bc, cd := a + ":" + b, b + ":" + c, c + ":" + d;
    assert a + ":" + bc + ":" + d == ab + ":" + c + ":" + d;
    assert a + ":" + b + ":" + cd == ab + ":" + c + ":" + d;
  }

  /** Another place with the same ID: the break moves a separator. */
  lemma BrokenPlace(p: Place) returns (q: Place)
    requires TrimmedPlace(p) && PlaceIsBreakable(p)
    ensures TrimmedPlace(q) && q != p && IdOf(q) == IdOf(p)
  {
    hide IdOf, Breakable, Trimmed;
    if Breakable(p.cluster) {
      var x, y := Break(p.cluster);
      q := Place(x, y + ":" + p.zone, p.host);
      Rejoin(y, p.zone);
      FiveParts(x, y, p.zone, p.host);
      assert |p.cluster| > |x|;
    } else if Breakable(p.zone) {
      var x, y := Break(p.zone);
      q := Place(p.cluster + ":" + x, y, p.host);
      Rejoin(p.cluster, x);
      FiveParts(p.cluster, x, y, p.host);
      assert |q.cluster| > |p.cluster|;
    } else {
      var x, y := Break(p.host);
      q := Place(p.cluster, p.zone + ":" + x, y);
      Rejoin(p.zone, x);
      FiveParts(p.cluster, p.zone, x, y);
      assert |q.zone| > |p.zone|;
    }
  }

  lemma PlacesAreTrimmed(settings: Settings)
    ensures TrimmedPlace(PlaceOf(settings)) && IdOf(PlaceOf(settings)) == BuildAgentId(settings)
  {
    TrimSpaceFixes(settings.clusterName);
    TrimSpaceFixes(settings.zone);
    TrimSpaceFixes(settings.hostIp);
  }

  /** Settings of an agent at another place with the same agent ID. */
  lemma Stranger(a: Settings) returns (b: Settings)
    requires PlaceIsBreakable(PlaceOf(a))
    ensures BuildAgentId(b) == BuildAgentId(a) && PlaceOf(b) != PlaceOf(a)
  {
    hide IdOf;
    PlacesAreTrimmed(a);
    var q := BrokenPlace(PlaceOf(a));
    b := a.(clusterName := q.cluster, zone := q.zone, hostIp := q.host);
    TrimSpaceFixes(q.cluster);
    TrimSpaceFixes(q.zone);
    TrimSpaceFixes(q.host);
    PlacesAreTrimmed(b);
  }

  /** An agent ID belongs to one place exactly when no part of the place holds a colon
      with no blank beside it. */
  lemma AgentIdIsUniqueExactlyWhen(a: Settings)
    ensures (forall b :: BuildAgentId(b) == BuildAgentId(a) ==> PlaceOf(b) == PlaceOf(a))
              <==> !PlaceIsBreakable(PlaceOf(a))
  {
    hide BuildAgentId, PlaceOf, PlaceIsBreakable;
    if PlaceIsBreakable(PlaceOf(a)) {
      var b := Stranger(a);
    } else {
      forall b | BuildAgentId(b) == BuildAgentId(a)
        ensures PlaceOf(b) == PlaceOf(a)
      {
        PlacesAreTrimmed(a);
        PlacesAreTrimmed(b);
        UnbreakableIsUnique(PlaceOf(a), PlaceOf(b));
      }
    }
  }

  // ------------------------------------------------------------------ cleanup

  /** Restart cleanup of an agent is after an instance exactly when it was
      registered under the same agent ID by a run of another (trimmed) run ID. */
  lemma CleanupTargetsExactly(w: World, run: string, id: string)
    requires Reachable(w) && run in w.agents && id in w.store.instances
    ensures id in w.history
    ensures id in Stale(w.store, BuildAgentId(w.agents[run].settings), run)
       <==> && BuildAgentId(w.history[id].settings) == BuildAgentId(w.agents[run].settings)
            && TrimSpace(w.history[id].RunId()) != run
  {
    hide EntryOk, QueuedOk, Owned, RouteDocument.Meaning, RouteConfigRef, LocalKey, LeaseCheckIdFor, BuildAgentId,
         Reachable, RoutePrefixes, Join;
    ReachableIsFine(w);
    assert InstanceOk(w, id) && RecordOk(w, id);
    AgentIdIsTrimmed(w.history[id].settings);
  }

  /** A restart cleanup takes an instance out of Consul. */
  ghost predicate CleanupRemoves(w: World, e: Event, id: string) {
    e.CleanupCall? && Enabled(w, e) && id in w.store.instances && id !in Step(w, e).store.instances
  }

  lemma RemovedIsStale(w: World, e: Event, id: string)
    requires CleanupRemoves(w, e, id)
    ensures e.run in w.agents && id in Stale(w.store, BuildAgentId(w.agents[e.run].settings), e.run)
  {
  }

  /** No cleanup of an agent removes an instance of an agent at another place, if
      neither has a colon in cluster or zone. */
  lemma CleanupSparesOtherHosts(w: World, e: Event, id: string)
    requires Reachable(w) && CleanupRemoves(w, e, id)
    ensures e.run in w.agents && id in w.history
    ensures var a, b := w.agents[e.run].settings, w.history[id].settings;
            ':' !in a.clusterName && ':' !in a.zone && ':' !in b.clusterName && ':' !in b.zone ==>
              PlaceOf(a) == PlaceOf(b)
  {
    hide Reachable, BuildAgentId, Step;
    RemovedIsStale(w, e, id);
    StaleIsRegistered(w, e.run, id);
    CleanupTargetsExactly(w, e.run, id);
    var a, b := w.agents[e.run].settings, w.history[id].settings;
    if ':' !in a.clusterName && ':' !in a.zone && ':' !in b.clusterName && ':' !in b.zone {
      AgentIdTellsHostsApart(a, b);
    }
  }

  lemma StaleIsRegistered(w: World, run: string, id: string)
    requires run in w.agents && id in Stale(w.store, BuildAgentId(w.agents[run].settings), run)
    ensures id in w.store.instances
  {
  }

  /** The cleanups of an agent with given settings only ever remove instances that were
      registered at its own place exactly when no part of that place holds an open
      colon. */
  lemma CleanupStaysAtHomeExactlyWhen(a: Settings)
    ensures (forall w, e, id :: Reachable(w) && CleanupRemoves(w, e, id) && w.agents[e.run].settings == a ==>
               id in w.history && PlaceOf(w.history[id].settings) == PlaceOf(a))
       <==> !PlaceIsBreakable(PlaceOf(a))
  {
    hide Reachable, BuildAgentId, Step, PlaceOf, PlaceIsBreakable;
    if PlaceIsBreakable(PlaceOf(a)) {
      var w, e, id := CleanupOfAStranger(a);
    } else {
      AgentIdIsUniqueExactlyWhen(a);
      forall w, e, id | Reachable(w) && CleanupRemoves(w, e, id) && w.agents[e.run].settings == a
        ensures id in w.history && PlaceOf(w.history[id].settings) == PlaceOf(a)
      {
        RemovedIsStale(w, e, id);
        StaleIsRegistered(w, e.run, id);
        CleanupTargetsExactly(w, e.run, id);
      }
    }
  }

  /** A stranger registers a service; the agent starts, cleans up, and the service is
      gone. */
  lemma CleanupOfAStranger(a: Settings) returns (w: World, e: Event, id: string)
    requires PlaceIsBreakable(PlaceOf(a))
    ensures Reachable(w) && CleanupRemoves(w, e, id) && e.run in w.agents && w.agents[e.run].settings == a
    ensures id in w.history && PlaceOf(w.history[id].settings) != PlaceOf(a)
  {
    hide Reachable, Reaches, NewService, RegistrationFor, RouteConfigRef, DocumentFor, LocalKey, AUTH, FIRST_ID,
         SECOND_ID, Inv, RegisterRequest.Valid, BuildAgentId, PlaceOf, Record.Registration, CleanupRemoves, Stale;
    var b := Stranger(a);
    AuthIsValid(80);
    AuthIsAuth();
    TwoIds();
    id := FIRST_ID;
    var w0 := TwoAgents(a, b);
    ReachableIsFine(w0);
    w := GoesThrough(w0, "b", AUTH, id);
    ReachableOn(w0, w);
    CleanupTargetsExactly(w, "a", id);
    RunIdsDiffer();
    assert w.history[id].RunId() == "b" by { RegisteredBy(b, AUTH, id); }
    e := CleanupCall("a", {id});
    CleanupTakes(w, "a", id);
  }

  lemma CleanupTakes(w: World, run: string, id: string)
    requires run in w.agents && id in Stale(w.store, BuildAgentId(w.agents[run].settings), run)
    ensures CleanupRemoves(w, CleanupCall(run, {id}), id)
  {
  }

  lemma AuthIsAuth()
    ensures AUTH.(port := 80) == AUTH
  {
  }

  lemma RunIdsDiffer()
    ensures TrimSpace("b") != "a"
  {
    TrimSpaceFixes("b");
  }

  lemma RegisteredBy(settings: Settings, request: RegisterRequest, id: string)
    ensures Record(settings, NewService(settings, "b", request, id, 0)).RunId() == "b"
  {
  }
}
