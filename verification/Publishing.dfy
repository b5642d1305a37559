/** The watcher over what it watches: how often an unchanged healthy set is published. */
module Publishing {
  import opened Model
  import opened Discovery
  import opened Fleet
  import opened Stages
  import opened EndToEnd
  import W = Watcher

  /** Whatever a refresh finds is a list Discover may return of one and the same set of
      healthy instances. */
  ghost predicate AllDiscover(v: View, events: seq<W.Event>) {
    forall e :: e in events && e.Answers? && e.discovered.Ok? ==> v.IsDiscovery(e.discovered.value)
  }

  /** From any point at which nothing is pending, any mix of refreshes of that set
      publishes at most once. */
  ghost predicate PublishesAtMostOnce(debounce: int, v: View) {
    forall s: W.System, events: seq<W.Event> ::
      s.pending == map[] && W.Follow(debounce, s, events).Some? && AllDiscover(v, events) ==>
        |W.Follow(debounce, s, events).value.log| <= |s.log| + 1
  }

  /** While the healthy set is unchanged the watcher publishes at most once exactly when
      no two visible instances tie. */
  lemma UnchangedSetIsPublishedOnceExactlyWhen(debounce: int, w: World, v: View)
    requires Reachable(w) && v.store == w.store
    ensures PublishesAtMostOnce(debounce, v) <==> NoneTie(v)
  {
    hide Reachable, NoneTie, View.IsDiscovery;
    DiscoverHasOneResultExactlyWhen(w, v);
    if NoneTie(v) {
      var list := DiscoveryExists(v);
      forall s: W.System, events: seq<W.Event> |
        s.pending == map[] && W.Follow(debounce, s, events).Some? && AllDiscover(v, events)
        ensures |W.Follow(debounce, s, events).value.log| <= |s.log| + 1
      {
        hide W.Follow;
        assert W.AllFound(s, list);
        assert forall e :: e in events ==> W.Finds(e, list);
        W.UnchangedIsPublishedOnce(debounce, s, list, events);
      }
    } else {
      var events := TiedSetIsRepublished(debounce, w, v, 2);
    }
  }

  /** Otherwise an unchanged set can be published any number of times. */
  lemma TiedSetIsRepublished(debounce: int, w: World, v: View, n: nat) returns (events: seq<W.Event>)
    requires Reachable(w) && v.store == w.store && !NoneTie(v)
    ensures AllDiscover(v, events) && W.Follow(debounce, W.Start(0), events).Some?
    ensures |W.Follow(debounce, W.Start(0), events).value.log| == n
  {
    hide Reachable, NoneTie, View.IsDiscovery, W.Follow;
    DiscoverHasOneResultExactlyWhen(w, v);
    var r, s :| v.IsDiscovery(r) && v.IsDiscovery(s) && r != s;
    events := W.AlternatingIsRepublished(debounce, r, s, n);
    assert forall e :: e in events ==> W.FindsEither(e, r, s);
  }
}
