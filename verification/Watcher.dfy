/** The discovery watcher: publish on change, at most once per debounce interval.

    A fingerprint is taken to tell lists apart, so the list itself stands for it;
    the empty fingerprint a watcher starts with matches no list. Times are readings
    of one monotone clock. */
module Watcher {
  import opened Model

  type Instances = seq<ServiceInstance>

  datatype State = State(lastFingerprint: Option<Instances>, lastPublishAt: Option<int>)

  const NOTHING_PUBLISHED := State(None, None)

  /** The list is new, and the last publication is long enough ago. */
  predicate Due(debounce: int, s: State, list: Instances, now: int) {
    s.lastFingerprint != Some(list) && (s.lastPublishAt.Some? ==> now - s.lastPublishAt.value >= debounce)
  }

  /** One refresh under the lock: looked at `now`, and published at `doneAt` if due
      and accepted. */
  function Commit(debounce: int, s: State, list: Instances, now: int, accepted: bool, doneAt: int): State {
    if Due(debounce, s, list, now) && accepted then State(Some(list), Some(doneAt)) else s
  }

  /** One refresh as its caller sees it: what Discover answered, when the lock was
      held, and whether a publication was accepted. */
  datatype Refresh = Refresh(discovered: Result<Instances>, now: int, accepted: bool, doneAt: int)

  /** A refresh fails if Discover fails or a due publication is rejected. */
  predicate Fails(debounce: int, s: State, r: Refresh) {
    r.discovered.Err? || (Due(debounce, s, r.discovered.value, r.now) && !r.accepted)
  }

  function AfterRefresh(debounce: int, s: State, r: Refresh): State {
    if r.discovered.Err? then s else Commit(debounce, s, r.discovered.value, r.now, r.accepted, r.doneAt)
  }

  /** Run refreshes once per element of `feed`, up to the first refresh that fails. */
  function AfterRun(debounce: int, s: State, feed: seq<Refresh>): State
    decreases |feed|
  {
    if feed == [] then s
    else if Fails(debounce, s, feed[0]) then AfterRefresh(debounce, s, feed[0])
    else AfterRun(debounce, AfterRefresh(debounce, s, feed[0]), feed[1..])
  }

  predicate RunFails(debounce: int, s: State, feed: seq<Refresh>)
    decreases |feed|
  {
    feed != [] &&
    (Fails(debounce, s, feed[0]) || RunFails(debounce, AfterRefresh(debounce, s, feed[0]), feed[1..]))
  }

  /** A refresh ends without error: Discover answered, and the list was the last one,
      came too soon, or was accepted. */
  predicate Goes(debounce: int, s: State, r: Refresh) {
    && r.discovered.Ok?
    && (|| s.lastFingerprint == Some(r.discovered.value)
        || (s.lastPublishAt.Some? && r.now < s.lastPublishAt.value + debounce)
        || r.accepted)
  }

  /** The memory after any number of refreshes, each of which remembers its list and the
      time if that list was new, not too soon, and accepted. */
  function Remembered(debounce: int, s: State, feed: seq<Refresh>): State {
    if feed == [] then s
    else
      var before, r := Remembered(debounce, s, feed[..|feed| - 1]), feed[|feed| - 1];
      if && r.discovered.Ok? && before.lastFingerprint != Some(r.discovered.value) && r.accepted
         && (before.lastPublishAt.None? || before.lastPublishAt.value + debounce <= r.now)
      then State(Some(r.discovered.value), Some(r.doneAt))
      else before
  }

  /** The n-th refresh of a run ends without error, if the run gets that far. */
  predicate GoesAt(debounce: int, s: State, feed: seq<Refresh>, n: nat)
    requires n < |feed|
  {
    Goes(debounce, Remembered(debounce, s, feed[..n]), feed[n])
  }

  /** The n-th refresh is the first one to end with an error, and the memory is as the
      refreshes before it left it. */
  predicate EndsAt(debounce: int, s: State, feed: seq<Refresh>, n: nat, last: State)
    requires n < |feed|
  {
    && (forall i :: 0 <= i < n ==> GoesAt(debounce, s, feed, i)) && !GoesAt(debounce, s, feed, n)
    && last == Remembered(debounce, s, feed[..n])
  }

  class DiscoveryWatcher {
    const debounceInterval: int
    var lastFingerprint: Option<Instances>
    var lastPublishAt: Option<int>

    constructor (debounceInterval: int)
      ensures Current() == NOTHING_PUBLISHED && this.debounceInterval == debounceInterval
    {
      this.debounceInterval := debounceInterval;
      lastFingerprint := None;
      lastPublishAt := None;
    }

    function Current(): State
      reads this
    {
      State(lastFingerprint, lastPublishAt)
    }

    method RefreshOnce(r: Refresh) returns (ok: bool, published: bool)
      modifies this
      ensures Current() == AfterRefresh(debounceInterval, old(Current()), r)
      ensures ok <==> !Fails(debounceInterval, old(Current()), r)
      ensures (published <==>
                 && r.discovered.Ok? && r.accepted
                 && Due(debounceInterval, old(Current()), r.discovered.value, r.now))
      ensures (ok <==>
                 && r.discovered.Ok?
                 && (|| old(lastFingerprint) == Some(r.discovered.value)
                     || (old(lastPublishAt).Some? && r.now - old(lastPublishAt).value < debounceInterval)
                     || r.accepted))
      ensures (published <==>
                 && r.discovered.Ok? && old(lastFingerprint) != Some(r.discovered.value) && r.accepted
                 && (old(lastPublishAt).Some? ==> r.now - old(lastPublishAt).value >= debounceInterval))
      ensures published ==> lastFingerprint == Some(r.discovered.value) && lastPublishAt == Some(r.doneAt)
      ensures !published ==> lastFingerprint == old(lastFingerprint) && lastPublishAt == old(lastPublishAt)
    {
      if r.discovered.Err? {
        return false, false;
      }
      var fingerprint := Some(r.discovered.value);
      if fingerprint == lastFingerprint {
        return true, false;
      }
      if lastPublishAt.Some? && r.now - lastPublishAt.value < debounceInterval {
        return true, false;
      }
      if !r.accepted {
        return false, false;
      }
      lastFingerprint := fingerprint;
      lastPublishAt := Some(r.doneAt);
      return true, true;
    }

    /** The loop of Run over the refreshes its ticker gives rise to, the first one
        before the first tick. It ends early at the first refresh that fails. */
    method Run(feed: seq<Refresh>) returns (ok: bool)
      modifies this
      ensures Current() == AfterRun(debounceInterval, old(Current()), feed)
      ensures ok <==> !RunFails(debounceInterval, old(Current()), feed)
      ensures ok <==> forall n :: 0 <= n < |feed| ==> GoesAt(debounceInterval, old(Current()), feed, n)
      ensures ok ==> Current() == Remembered(debounceInterval, old(Current()), feed)
      ensures !ok ==> exists n :: 0 <= n < |feed| && EndsAt(debounceInterval, old(Current()), feed, n, Current())
      ensures (exists n :: 0 <= n < |feed| && feed[n].discovered.Err?) ==> !ok
    {
      var n := 0;
      assert feed[..0] == [];
      while n < |feed|
        invariant 0 <= n <= |feed|
        invariant Current() == Remembered(debounceInterval, old(Current()), feed[..n])
        invariant forall i :: 0 <= i < n ==> GoesAt(debounceInterval, old(Current()), feed, i)
        invariant AfterRun(debounceInterval, old(Current()), feed) == AfterRun(debounceInterval, Current(), feed[n..])
        invariant RunFails(debounceInterval, old(Current()), feed) <==> RunFails(debounceInterval, Current(), feed[n..])
      {
        assert feed[n..][0] == feed[n] && feed[n..][1..] == feed[n + 1..];
        assert feed[..n + 1][..n] == feed[..n] && feed[..n + 1][n] == feed[n];
        var published;
        ok, published := RefreshOnce(feed[n]);
        if !ok {
          assert EndsAt(debounceInterval, old(Current()), feed, n, Current());
          return false;
        }
        n := n + 1;
      }
      assert feed[..|feed|] == feed;
      assert forall i :: 0 <= i < |feed| && feed[i].discovered.Err? ==>
               !GoesAt(debounceInterval, old(Current()), feed, i);
      ok := true;
    }
  }

  // ---------------------------------------------------- overlapping refreshes

  /** A refresh under way, with its number among all that were started: inside Discover
      until it has found a list. */
  datatype Refreshing = Refreshing(order: nat, found: Option<Instances>)

  datatype Publication = Publication(list: Instances, order: nat, at: int)

  /** A watcher refreshed by any number of callers. `pending` holds the refresh of each
      caller from its start to its turn under the lock; `log` what onUpdate accepted. */
  datatype System = System(
    state: State, clock: int, started: nat, pending: map<nat, Refreshing>, log: seq<Publication>)

  datatype Event =
    | Begins(caller: nat)
    | Answers(caller: nat, discovered: Result<Instances>)
    | Commits(caller: nat, now: int, accepted: bool, doneAt: int)

  predicate Enabled(s: System, e: Event) {
    match e
    case Begins(caller) => caller !in s.pending
    case Answers(caller, _) => caller in s.pending && s.pending[caller].found.None?
    case Commits(caller, now, _, doneAt) =>
      caller in s.pending && s.pending[caller].found.Some? && s.clock <= now <= doneAt
  }

  /** What a commit publishes if its list is due and accepted. */
  function Offered(s: System, caller: nat, at: int): Publication
    requires caller in s.pending && s.pending[caller].found.Some?
  {
    Publication(s.pending[caller].found.value, s.pending[caller].order, at)
  }

  function Step(debounce: int, s: System, e: Event): System
    requires Enabled(s, e)
  {
    match e
    case Begins(caller) => s.(started := s.started + 1, pending := s.pending[caller := Refreshing(s.started, None)])
    case Answers(caller, discovered) =>
      if discovered.Ok? then
        s.(pending := s.pending[caller := s.pending[caller].(found := Some(discovered.value))])
      else s.(pending := s.pending - {caller})
    case Commits(caller, now, accepted, doneAt) =>
      var p := Offered(s, caller, doneAt);
      System(Commit(debounce, s.state, p.list, now, accepted, doneAt), doneAt, s.started, s.pending - {caller},
             if Due(debounce, s.state, p.list, now) && accepted then s.log + [p] else s.log)
  }

  function Follow(debounce: int, s: System, events: seq<Event>): Option<System> {
    if events == [] then Some(s)
    else
      var before, last := Follow(debounce, s, events[..|events| - 1]), events[|events| - 1];
      if before.Some? && Enabled(before.value, last) then Some(Step(debounce, before.value, last)) else None
  }

  function Start(clock: int): System {
    System(NOTHING_PUBLISHED, clock, 0, map[], [])
  }

  /** `q` may be published right after `p`. */
  predicate Succeeds(debounce: int, p: Publication, q: Publication) {
    p.list != q.list && p.at <= q.at && q.at - p.at >= debounce
  }

  /** The watcher's memory describes the last accepted list; no list was published
      twice in a row; publications are a debounce interval apart. */
  predicate Safe(debounce: int, s: System) {
    && (s.state == if s.log == [] then NOTHING_PUBLISHED
                   else State(Some(s.log[|s.log| - 1].list), Some(s.log[|s.log| - 1].at)))
    && (s.log != [] ==> s.log[|s.log| - 1].at <= s.clock)
    && (forall i :: 0 < i < |s.log| ==> Succeeds(debounce, s.log[i - 1], s.log[i]))
  }

  lemma StepKeepsSafe(debounce: int, s: System, e: Event)
    requires Safe(debounce, s) && Enabled(s, e)
    ensures Safe(debounce, Step(debounce, s, e))
  {
    if e.Commits? && Due(debounce, s.state, Offered(s, e.caller, e.doneAt).list, e.now) && e.accepted {
      var n, p := |s.log|, Offered(s, e.caller, e.doneAt);
      assert n > 0 ==> Succeeds(debounce, s.log[n - 1], p);
      assert (s.log + [p])[n] == p;
    }
  }

  /** Publication is safe whatever refreshes overlap. */
  lemma {:induction false} PublicationsAreSafe(debounce: int, clock: int, events: seq<Event>)
    requires Follow(debounce, Start(clock), events).Some?
    ensures Safe(debounce, Follow(debounce, Start(clock), events).value)
  {
    hide Step, Enabled;
    if events == [] {
    } else {
      hide Safe;
      var before, last := Follow(debounce, Start(clock), events[..|events| - 1]), events[|events| - 1];
      PublicationsAreSafe(debounce, clock, events[..|events| - 1]);
      StepKeepsSafe(debounce, before.value, last);
    }
  }

  /** A refresh leaves its mark exactly when its list is due and accepted; a list
      that is unchanged, debounced or rejected changes nothing but the clock. */
  lemma CommitPublishesExactlyWhen(
    debounce: int, clock: int, events: seq<Event>, caller: nat, now: int, accepted: bool, doneAt: int)
    requires Follow(debounce, Start(clock), events).Some?
    requires Enabled(Follow(debounce, Start(clock), events).value, Commits(caller, now, accepted, doneAt))
    ensures var s := Follow(debounce, Start(clock), events).value;
            var s' := Step(debounce, s, Commits(caller, now, accepted, doneAt));
            var list := s.pending[caller].found.value;
            && (s'.log != s.log <==>
                  && accepted
                  && (s.log == [] || (list != s.log[|s.log| - 1].list && now - s.log[|s.log| - 1].at >= debounce)))
            && (s'.log != s.log ==> s'.log == s.log + [Offered(s, caller, doneAt)])
            && (s'.log == s.log ==> s'.state == s.state)
  {
    PublicationsAreSafe(debounce, clock, events);
  }

  // ---------------------------------------------- the order of publications

  /** What was started later was published later. */
  predicate Ordered(log: seq<Publication>) {
    forall i, j :: 0 <= i < j < |log| ==> log[i].order < log[j].order
  }

  predicate Numbered(s: System) {
    && (forall c :: c in s.pending ==> s.pending[c].order < s.started)
    && (forall i :: 0 <= i < |s.log| ==> s.log[i].order < s.started)
  }

  /** The event starts no refresh while another one is pending. */
  predicate Alone(s: System, e: Event) {
    e.Begins? ==> s.pending == map[]
  }

  predicate Solitary(debounce: int, s: System, events: seq<Event>)
    requires Follow(debounce, s, events).Some?
  {
    events == [] ||
    (Solitary(debounce, s, events[..|events| - 1])
     && Alone(Follow(debounce, s, events[..|events| - 1]).value, events[|events| - 1]))
  }

  /** At most one refresh is pending, and it is newer than all that was published. */
  predicate InLine(s: System) {
    && Numbered(s) && Ordered(s.log)
    && (forall c, d :: c in s.pending && d in s.pending ==> c == d)
    && (forall c, i :: c in s.pending && 0 <= i < |s.log| ==> s.log[i].order < s.pending[c].order)
  }

  lemma StepKeepsInLine(debounce: int, s: System, e: Event)
    requires InLine(s) && Enabled(s, e) && Alone(s, e)
    ensures InLine(Step(debounce, s, e))
  {
  }

  lemma {:induction false} SolitaryRunsStayInLine(debounce: int, s: System, events: seq<Event>)
    requires InLine(s) && Follow(debounce, s, events).Some? && Solitary(debounce, s, events)
    ensures InLine(Follow(debounce, s, events).value)
  {
    hide Step, Enabled, InLine, Alone;
    if events != [] {
      SolitaryRunsStayInLine(debounce, s, events[..|events| - 1]);
      StepKeepsInLine(debounce, Follow(debounce, s, events[..|events| - 1]).value, events[|events| - 1]);
    }
  }

  lemma {:induction false} RunsAreNumbered(debounce: int, clock: int, events: seq<Event>)
    requires Follow(debounce, Start(clock), events).Some?
    ensures Numbered(Follow(debounce, Start(clock), events).value)
  {
    if events != [] {
      RunsAreNumbered(debounce, clock, events[..|events| - 1]);
    }
  }

  /** A run in which no refresh starts while another one is pending publishes in the
      order in which its refreshes were started. */
  lemma SolitaryRunsPublishInOrder(debounce: int, clock: int, events: seq<Event>)
    requires Follow(debounce, Start(clock), events).Some? && Solitary(debounce, Start(clock), events)
    ensures Ordered(Follow(debounce, Start(clock), events).value.log)
  {
    SolitaryRunsStayInLine(debounce, Start(clock), events);
  }

  /** A run goes on by one event that starts nothing. */
  lemma GoesOn(debounce: int, s: System, events: seq<Event>, e: Event) returns (more: seq<Event>)
    requires Follow(debounce, s, events).Some? && Enabled(Follow(debounce, s, events).value, e)
    ensures more == events + [e]
    ensures Follow(debounce, s, more) == Some(Step(debounce, Follow(debounce, s, events).value, e))
    ensures Solitary(debounce, s, events) && !e.Begins? ==> Solitary(debounce, s, more)
  {
    hide Step, Enabled;
    more := events + [e];
    assert more[..|events|] == events;
  }

  const ANY_INSTANCE := ServiceInstance("", "", "", "", "", "", "", "", "", 1, 1, "", "", [])

  /** A list that differs from two others. */
  function Another(a: Instances, b: Instances): (list: Instances)
    ensures list != a && list != b
  {
    var list := seq(|a| + |b| + 1, _ => ANY_INSTANCE);
    assert |list| > |a| && |list| > |b|;
    list
  }

  function Wait(debounce: int): nat {
    if debounce > 0 then debounce else 0
  }

  /** A refresh that has found a new list can be published once the debounce interval
      is over. */
  lemma CanPublish(debounce: int, s: System, caller: nat) returns (e: Event)
    requires Safe(debounce, s) && caller in s.pending && s.pending[caller].found.Some?
    requires s.state.lastFingerprint != s.pending[caller].found
    ensures e.Commits? && Enabled(s, e)
    ensures var t, p := Step(debounce, s, e), Offered(s, caller, s.clock + Wait(debounce));
            && t.log == s.log + [p] && t.pending == s.pending - {caller} && t.started == s.started
            && t.state.lastFingerprint == Some(p.list) && Safe(debounce, t)
  {
    var at := s.clock + Wait(debounce);
    e := Commits(caller, at, true, at);
    StepKeepsSafe(debounce, s, e);
  }

  /** What a pending refresh answers, or has answered, so that it will be new after
      `newer`. */
  lemma AnswersDifferently(debounce: int, t: System, events: seq<Event>, late: nat, newer: Instances)
    returns (more: seq<Event>)
    requires Follow(debounce, t, events).Some? && Solitary(debounce, t, events)
    requires var s := Follow(debounce, t, events).value;
             && Safe(debounce, s) && late in s.pending && s.pending[late].found != Some(newer)
    ensures Follow(debounce, t, more).Some? && Solitary(debounce, t, more)
    ensures var s, s' := Follow(debounce, t, events).value, Follow(debounce, t, more).value;
            && Safe(debounce, s') && s'.log == s.log && s'.state == s.state
            && late in s'.pending && s'.pending[late].order == s.pending[late].order
            && s'.pending[late].found.Some? && s'.pending[late].found != Some(newer)
  {
    var s := Follow(debounce, t, events).value;
    if s.pending[late].found.Some? {
      more := events;
    } else {
      var e := Answers(late, Ok(Another(newer, newer)));
      more := GoesOn(debounce, t, events, e);
      StepKeepsSafe(debounce, s, e);
    }
  }

  lemma PublishesNow(debounce: int, t: System, events: seq<Event>, caller: nat) returns (more: seq<Event>)
    requires Follow(debounce, t, events).Some? && Solitary(debounce, t, events)
    requires var s := Follow(debounce, t, events).value;
             && Safe(debounce, s) && caller in s.pending && s.pending[caller].found.Some?
             && s.state.lastFingerprint != s.pending[caller].found
    ensures Follow(debounce, t, more).Some? && Solitary(debounce, t, more)
    ensures var s, s' := Follow(debounce, t, events).value, Follow(debounce, t, more).value;
            && s'.log == s.log + [Offered(s, caller, s.clock + Wait(debounce))] && s'.pending == s.pending - {caller}
            && s'.state.lastFingerprint == s.pending[caller].found && Safe(debounce, s')
  {
    hide Step, Safe;
    var e := CanPublish(debounce, Follow(debounce, t, events).value, caller);
    more := GoesOn(debounce, t, events, e);
  }

  /** One more refresh starts and finds a list that is new. */
  lemma FindsNews(debounce: int, s: System, late: nat)
    returns (caller: nat, newer: Instances, more: seq<Event>)
    requires Safe(debounce, s) && late in s.pending
    ensures Enabled(s, Begins(caller)) && late != caller
    ensures s.pending[late].found != Some(newer) && s.state.lastFingerprint != Some(newer)
    ensures var t := Step(debounce, s, Begins(caller));
            && Follow(debounce, t, more).Some? && Solitary(debounce, t, more)
            && Safe(debounce, Follow(debounce, t, more).value)
            && Follow(debounce, t, more).value
            == s.(started := s.started + 1, pending := s.pending[caller := Refreshing(s.started, Some(newer))])
  {
    caller := FreeCaller(s.pending.Keys);
    newer := NewTo(s, late);
    var t := Step(debounce, s, Begins(caller));
    StepKeepsSafe(debounce, s, Begins(caller));
    StepKeepsSafe(debounce, t, Answers(caller, Ok(newer)));
    hide Safe;
    NothingHappens(debounce, s, caller);
    more := GoesOn(debounce, t, [], Answers(caller, Ok(newer)));
  }

  /** With a refresh pending, one more refresh can be published before it. */
  lemma Overtakes(debounce: int, s: System, late: nat) returns (caller: nat, more: seq<Event>)
    requires Safe(debounce, s) && Numbered(s) && late in s.pending
    ensures Enabled(s, Begins(caller))
    ensures var t := Step(debounce, s, Begins(caller));
            && Follow(debounce, t, more).Some? && Solitary(debounce, t, more)
            && !Ordered(Follow(debounce, t, more).value.log)
  {
    assert s.pending[late].order < s.started;
    var newer;
    caller, newer, more := FindsNews(debounce, s, late);
    var t := Step(debounce, s, Begins(caller));
    hide Safe, Step, Follow, Solitary, Ordered, Numbered, Enabled;
    assert Follow(debounce, t, more).value.state == s.state;
    more := PublishesNow(debounce, t, more, caller);
    more := ComesLast(debounce, t, more, late, newer);
  }

  /** A refresh older than the last publication is published after it. */
  lemma ComesLast(debounce: int, t: System, events: seq<Event>, late: nat, newer: Instances) returns (more: seq<Event>)
    requires Follow(debounce, t, events).Some? && Solitary(debounce, t, events)
    requires var s := Follow(debounce, t, events).value;
             && Safe(debounce, s) && late in s.pending && s.pending[late].found != Some(newer)
             && s.state.lastFingerprint == Some(newer)
             && s.log != [] && s.log[|s.log| - 1].order > s.pending[late].order
    ensures Follow(debounce, t, more).Some? && Solitary(debounce, t, more)
    ensures !Ordered(Follow(debounce, t, more).value.log)
  {
    hide Safe, Step, Follow, Solitary, Ordered;
    var s := Follow(debounce, t, events).value;
    more := AnswersDifferently(debounce, t, events, late, newer);
    more := PublishesNow(debounce, t, more, late);
    var v := Follow(debounce, t, more).value;
    assert v.log[..|s.log|] == s.log;
    Reversed(v.log, |s.log| - 1);
  }

  lemma Reversed(log: seq<Publication>, i: nat)
    requires i + 1 < |log| && log[i].order > log[i + 1].order
    ensures !Ordered(log)
  {
  }

  /** A list that a pending refresh has not found and that is not the last one. */
  lemma NewTo(s: System, late: nat) returns (list: Instances)
    requires late in s.pending
    ensures s.pending[late].found != Some(list) && s.state.lastFingerprint != Some(list)
  {
    var found, last := s.pending[late].found, s.state.lastFingerprint;
    list := Another(if found.Some? then found.value else [], if last.Some? then last.value else []);
  }

  lemma FreeCaller(taken: set<nat>) returns (caller: nat)
    ensures caller !in taken
  {
    if taken == {} {
      caller := 0;
    } else {
      var top := Top(taken);
      caller := top + 1;
    }
  }

  lemma {:induction false} Top(taken: set<nat>) returns (top: nat)
    requires taken != {}
    ensures top in taken && forall c :: c in taken ==> c <= top
  {
    top :| top in taken;
    if taken != {top} {
      var rest := Top(taken - {top});
      assert forall c :: c in taken ==> c == top || c in taken - {top};
      top := if rest > top then rest else top;
    }
  }

  /** At any point of any run: whatever refresh is started next, all that follows is
      published in the order of starting as long as no further refresh overlaps,
      exactly when no refresh is pending now and the order was kept so far. */
  lemma OrderIsKeptExactlyWhen(debounce: int, clock: int, past: seq<Event>)
    requires Follow(debounce, Start(clock), past).Some?
    ensures var s := Follow(debounce, Start(clock), past).value;
            (s.pending == map[] && Ordered(s.log) <==>
               forall caller, more |
                 && Enabled(s, Begins(caller))
                 && Follow(debounce, Step(debounce, s, Begins(caller)), more).Some?
                 && Solitary(debounce, Step(debounce, s, Begins(caller)), more) ::
                 Ordered(Follow(debounce, Step(debounce, s, Begins(caller)), more).value.log))
  {
    hide Ordered, Safe, Numbered, Solitary, Step;
    var s := Follow(debounce, Start(clock), past).value;
    RunsAreNumbered(debounce, clock, past);
    PublicationsAreSafe(debounce, clock, past);
    if s.pending == map[] && Ordered(s.log) {
      forall caller, more |
        && Enabled(s, Begins(caller))
        && Follow(debounce, Step(debounce, s, Begins(caller)), more).Some?
        && Solitary(debounce, Step(debounce, s, Begins(caller)), more)
        ensures Ordered(Follow(debounce, Step(debounce, s, Begins(caller)), more).value.log)
      {
        NothingPendingIsInLine(s);
        StepKeepsInLine(debounce, s, Begins(caller));
        SolitaryRunsStayInLine(debounce, Step(debounce, s, Begins(caller)), more);
      }
    } else if s.pending != map[] {
      var late :| late in s.pending;
      var caller, more := Overtakes(debounce, s, late);
    } else {
      NothingHappens(debounce, s, 0);
      assert Follow(debounce, Step(debounce, s, Begins(0)), []).Some?;
    }
  }

  lemma NothingPendingIsInLine(s: System)
    requires s.pending == map[] && Numbered(s) && Ordered(s.log)
    ensures InLine(s)
  {
  }

  lemma NothingHappens(debounce: int, s: System, caller: nat)
    requires Enabled(s, Begins(caller))
    ensures var t := Step(debounce, s, Begins(caller));
            t.log == s.log && Follow(debounce, t, []) == Some(t) && Solitary(debounce, t, [])
  {
  }

  /** Two refreshes have found a list each, the older one the list of the first. */
  function BothFound(older: Instances, newer: Instances): System {
    System(NOTHING_PUBLISHED, 0, 2, map[0 := Refreshing(0, Some(older)), 1 := Refreshing(1, Some(newer))], [])
  }

  lemma BothMayFind(debounce: int, older: Instances, newer: Instances) returns (events: seq<Event>)
    ensures events == [Begins(0), Answers(0, Ok(older)), Begins(1), Answers(1, Ok(newer))]
    ensures Follow(debounce, Start(0), events) == Some(BothFound(older, newer))
  {
    assert Follow(debounce, Start(0), []) == Some(Start(0));
    hide Follow;
    events := GoesOn(debounce, Start(0), [], Begins(0));
    events := GoesOn(debounce, Start(0), events, Answers(0, Ok(older)));
    events := GoesOn(debounce, Start(0), events, Begins(1));
    events := GoesOn(debounce, Start(0), events, Answers(1, Ok(newer)));
    assert Follow(debounce, Start(0), events).value.pending == BothFound(older, newer).pending;
  }

  /** With any debounce interval an older list may be the one published last. */
  lemma OlderListMayComeLast(debounce: int, older: Instances, newer: Instances) returns (events: seq<Event>)
    requires older != newer
    ensures events == [Begins(0), Answers(0, Ok(older)), Begins(1), Answers(1, Ok(newer)),
                       Commits(1, 0, true, 0), Commits(0, Wait(debounce), true, Wait(debounce))]
    ensures Follow(debounce, Start(0), events).Some?
    ensures var s := Follow(debounce, Start(0), events).value;
            s.state.lastFingerprint == Some(older) && !Ordered(s.log)
  {
    hide Follow;
    var at, s := Wait(debounce), BothFound(older, newer);
    events := BothMayFind(debounce, older, newer);
    events := GoesOn(debounce, Start(0), events, Commits(1, 0, true, 0));
    var t := Step(debounce, s, Commits(1, 0, true, 0));
    assert t.log == [Publication(newer, 1, 0)];
    events := GoesOn(debounce, Start(0), events, Commits(0, at, true, at));
    var u := Step(debounce, t, Commits(0, at, true, at));
    assert u.log == [Publication(newer, 1, 0), Publication(older, 0, at)];
    assert u.log[0].order > u.log[1].order;
  }

  // ------------------------------------------------------ an unchanged source

  predicate Finds(e: Event, list: Instances) {
    e.Answers? && e.discovered.Ok? ==> e.discovered.value == list
  }

  predicate AllFound(s: System, list: Instances) {
    forall c :: c in s.pending && s.pending[c].found.Some? ==> s.pending[c].found.value == list
  }

  /** While every discovery finds the same list, it is published at most once whatever
      refreshes overlap, and not at all if it was the last published one. */
  lemma {:induction false} UnchangedIsPublishedOnce(debounce: int, s: System, list: Instances, events: seq<Event>)
    requires AllFound(s, list) && Follow(debounce, s, events).Some? && forall e :: e in events ==> Finds(e, list)
    ensures var t := Follow(debounce, s, events).value;
            && AllFound(t, list)
            && if t.log == s.log then t.state == s.state
               else && s.state.lastFingerprint != Some(list) && |t.log| == |s.log| + 1
                    && t.log[..|s.log|] == s.log && t.log[|s.log|].list == list
                    && t.state.lastFingerprint == Some(list)
  {
    if events != [] {
      var init, e := events[..|events| - 1], events[|events| - 1];
      assert events == init + [e];
      assert e in events && forall d :: d in init ==> d in events;
      UnchangedIsPublishedOnce(debounce, s, list, init);
    }
  }

  predicate FindsEither(e: Event, a: Instances, b: Instances) {
    e.Answers? && e.discovered.Ok? ==> e.discovered.value in {a, b}
  }

  /** A source that answers now one list and now another is published again and again,
      as often as one likes. */
  lemma {:induction false} AlternatingIsRepublished(debounce: int, a: Instances, b: Instances, n: nat)
    returns (events: seq<Event>)
    requires a != b
    ensures Follow(debounce, Start(0), events).Some? && forall e :: e in events ==> FindsEither(e, a, b)
    ensures var s := Follow(debounce, Start(0), events).value;
            && |s.log| == n && s.pending == map[]
            && s.state.lastFingerprint == if n == 0 then None else Some(if n % 2 == 0 then b else a)
    decreases n
  {
    if n == 0 {
      events := [];
    } else {
      events := AlternatingIsRepublished(debounce, a, b, n - 1);
      PublicationsAreSafe(debounce, 0, events);
      var s := Follow(debounce, Start(0), events).value;
      events := OneMore(debounce, events, a, b, if n % 2 == 0 then b else a);
    }
  }

  lemma OneMore(debounce: int, past: seq<Event>, a: Instances, b: Instances, next: Instances)
    returns (events: seq<Event>)
    requires Follow(debounce, Start(0), past).Some? && (forall e :: e in past ==> FindsEither(e, a, b))
               && next in {a, b}
    requires var s := Follow(debounce, Start(0), past).value;
             Safe(debounce, s) && s.pending == map[] && s.state.lastFingerprint != Some(next)
    ensures Follow(debounce, Start(0), events).Some? && forall e :: e in events ==> FindsEither(e, a, b)
    ensures var s, t := Follow(debounce, Start(0), past).value, Follow(debounce, Start(0), events).value;
            |t.log| == |s.log| + 1 && t.pending == map[] && t.state.lastFingerprint == Some(next)
  {
    var s := Follow(debounce, Start(0), past).value;
    events := GoesOn(debounce, Start(0), past, Begins(0));
    events := GoesOn(debounce, Start(0), events, Answers(0, Ok(next)));
    var t := s.(started := s.started + 1, pending := map[0 := Refreshing(s.started, Some(next))]);
    assert Follow(debounce, Start(0), events).value.pending == t.pending;
    var e := CanPublish(debounce, t, 0);
    events := GoesOn(debounce, Start(0), events, e);
    assert t.pending - {0} == map[];
  }

  // -------------------------------------------------------------- convergence

  /** `n` refreshes at `start`, `start + interval`, ... of a source that keeps
      answering `list`, each instantaneous and accepted. */
  function SteadyFeed(list: Instances, start: int, interval: int, n: nat): (feed: seq<Refresh>)
    ensures |feed| == n
    decreases n
  {
    if n == 0 then []
    else [Refresh(Ok(list), start, true, start)] + SteadyFeed(list, start + interval, interval, n - 1)
  }

  /** The least number of intervals that span a duration. */
  function IntervalsIn(duration: nat, interval: nat): nat
    requires interval > 0
  {
    (duration + interval - 1) / interval
  }

  lemma IntervalsSpan(duration: nat, interval: nat)
    requires interval > 0
    ensures IntervalsIn(duration, interval) * interval >= duration
  {
  }

  /** Once the source has settled, the settled list is the published one after `n`
      refreshes exactly when it already was, nothing ever was published, or the last
      of the refreshes came a debounce interval after the last publication. */
  lemma {:induction false} SettlesExactlyWhen(
    debounce: int, s: State, list: Instances, start: int, interval: nat, n: nat)
    requires n > 0 && (s.lastPublishAt.None? ==> s.lastFingerprint.None?)
    ensures AfterRun(debounce, s, SteadyFeed(list, start, interval, n)).lastFingerprint == Some(list)
       <==> || s.lastFingerprint == Some(list) || s.lastPublishAt.None?
            || start + (n - 1) * interval - s.lastPublishAt.value >= debounce
    ensures !RunFails(debounce, s, SteadyFeed(list, start, interval, n))
    decreases n
  {
    var feed := SteadyFeed(list, start, interval, n);
    var s' := AfterRefresh(debounce, s, feed[0]);
    assert feed[1..] == SteadyFeed(list, start + interval, interval, n - 1);
    assert start + (n - 1) * interval == start + interval + (n - 2) * interval;
    if n > 1 {
      SettlesExactlyWhen(debounce, s', list, start + interval, interval, n - 1);
    } else {
      assert feed[1..] == [];
    }
  }

  /** So with a positive refresh interval the settled list is published after at most
      one refresh more than the debounce interval has intervals. */
  lemma SettlesInTime(debounce: nat, s: State, list: Instances, start: int, interval: nat)
    requires interval > 0 && (s.lastPublishAt.None? ==> s.lastFingerprint.None?)
    requires s.lastPublishAt.Some? ==> s.lastPublishAt.value <= start
    ensures AfterRun(debounce, s,
              SteadyFeed(list, start, interval, IntervalsIn(debounce, interval) + 1)).lastFingerprint
         == Some(list)
  {
    IntervalsSpan(debounce, interval);
    SettlesExactlyWhen(debounce, s, list, start, interval, IntervalsIn(debounce, interval) + 1);
  }

  /** And once it is published, no further refresh of the settled source changes
      anything: while the healthy set stays the same it is published at most once. */
  lemma {:induction false} SettledStays(debounce: int, s: State, list: Instances, start: int, interval: int, n: nat)
    requires s.lastFingerprint == Some(list)
    ensures AfterRun(debounce, s, SteadyFeed(list, start, interval, n)) == s
    decreases n
  {
    if n > 0 {
      var feed := SteadyFeed(list, start, interval, n);
      assert feed[1..] == SteadyFeed(list, start + interval, interval, n - 1);
      SettledStays(debounce, s, list, start + interval, interval, n - 1);
    }
  }
}
