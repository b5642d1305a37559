/** The arithmetic of ownership leases: a pass at registration, one attempt to pass
    again at every tick of the refresh loop, and Consul's TTL in between. Ticks and
    passes are instantaneous; the refresh loop starts before any registration. */
module Lease {

  /** One registered service as the loop's clock sees it. */
  datatype Plan = Plan(loopStart: int, interval: int, ttl: int, registeredAt: int) {
    predicate Running() { interval > 0 && loopStart <= registeredAt }

    /** The time of the n-th tick. */
    function Tick(n: nat): int { loopStart + n * interval }
  }

  /** The ticks so far refreshed, or failed to refresh, the lease. A tick before the
      service is stored does not touch it. */
  ghost predicate PassedAt(p: Plan, refreshed: seq<bool>, t: int) {
    || t == p.registeredAt
    || exists n: nat :: 0 < n <= |refreshed| && refreshed[n - 1] && t == p.Tick(n) && t > p.registeredAt
  }

  /** Some pass came less than a TTL ago. A pass at `now` itself would come too late. */
  ghost predicate HeldAt(p: Plan, refreshed: seq<bool>, now: int) {
    exists t :: PassedAt(p, refreshed, t) && t < now && now - t < p.ttl
  }

  /** The lease is held at every moment up to the next tick. */
  ghost predicate NeverExpires(p: Plan, refreshed: seq<bool>) {
    forall now :: p.registeredAt < now <= p.Tick(|refreshed| + 1) ==> HeldAt(p, refreshed, now)
  }

  /** Some of the k + 1 ticks after the i-th succeeds. */
  predicate SomeSucceeds(refreshed: seq<bool>, i: nat, k: nat) {
    exists j :: i <= j <= i + k && j < |refreshed| && refreshed[j]
  }

  /** No more than k ticks fail in a row once the service is registered. */
  predicate FailsInARowAtMost(p: Plan, refreshed: seq<bool>, k: nat) {
    forall i: nat :: i + k < |refreshed| && p.Tick(i + 1) > p.registeredAt ==> SomeSucceeds(refreshed, i, k)
  }

  /** The last tick before `now`. */
  lemma TickBefore(p: Plan, now: int) returns (n: nat)
    requires p.Running() && now > p.registeredAt
    ensures p.Tick(n) < now <= p.Tick(n + 1)
  {
    var past := now - p.loopStart - 1;
    n := past / p.interval;
    assert past == n * p.interval + past % p.interval;
    assert (n + 1) * p.interval == n * p.interval + p.interval;
  }

  lemma TicksApart(p: Plan, m: nat, n: nat)
    requires p.interval > 0
    ensures m <= n <==> p.Tick(m) <= p.Tick(n)
    ensures forall k: nat :: n - m <= k ==> p.Tick(n) - p.Tick(m) <= k * p.interval
  {
    assert p.Tick(n) - p.Tick(m) == (n - m) * p.interval;
    Grows(p.interval, n - m, 0);
    Grows(p.interval, 0, n - m);
    forall k: nat | n - m <= k ensures (n - m) * p.interval <= k * p.interval {
      Grows(p.interval, n - m, k);
    }
  }

  lemma Grows(interval: int, m: int, n: int)
    requires interval > 0
    ensures m < n ==> m * interval < n * interval
  {
    if m < n {
      assert (n - m) * interval > 0;
    }
  }

  lemma HeldWhileFailuresAreFew(p: Plan, refreshed: seq<bool>, k: nat, now: int)
    requires p.Running() && FailsInARowAtMost(p, refreshed, k) && (k + 1) * p.interval < p.ttl
    requires p.registeredAt < now <= p.Tick(|refreshed| + 1)
    ensures HeldAt(p, refreshed, now)
  {
    assert p.Tick(0) <= p.registeredAt;
    hide Plan.Tick;
    var n := TickBefore(p, now);
    TicksApart(p, |refreshed| + 1, n);
    var first := if n > k then n - k else 0;
    TicksApart(p, first, n + 1);
    assert p.Tick(n + 1) - p.Tick(first) <= (k + 1) * p.interval;
    if p.Tick(first) <= p.registeredAt {
      assert PassedAt(p, refreshed, p.registeredAt);
    } else {
      assert SomeSucceeds(refreshed, first - 1, k);
      var j :| first - 1 <= j <= first - 1 + k && j < |refreshed| && refreshed[j];
      TicksApart(p, first, j + 1);
      TicksApart(p, j + 1, n);
      assert PassedAt(p, refreshed, p.Tick(j + 1));
    }
  }

  /** k failures in a row right after a registration at a tick. */
  lemma TooManyFailuresExpire(interval: int, ttl: int, k: nat) returns (p: Plan, refreshed: seq<bool>)
    requires interval > 0 && (k + 1) * interval >= ttl
    ensures p.Running() && p.interval == interval && p.ttl == ttl && FailsInARowAtMost(p, refreshed, k)
    ensures |refreshed| == k && !NeverExpires(p, refreshed)
  {
    p, refreshed := Plan(0, interval, ttl, 0), seq(k, _ => false);
    assert forall t :: PassedAt(p, refreshed, t) ==> t == 0;
    var now := p.Tick(|refreshed| + 1);
    assert !HeldAt(p, refreshed, now);
  }

  /** Leases survive every schedule in which at most k refreshes fail in a row
      exactly when k + 1 intervals are shorter than the TTL. */
  lemma SurvivesExactlyWhen(interval: int, ttl: int, k: nat)
    requires interval > 0
    ensures (k + 1) * interval < ttl <==>
            (forall p: Plan, refreshed: seq<bool> ::
               p.Running() && p.interval == interval && p.ttl == ttl && FailsInARowAtMost(p, refreshed, k)
               ==> NeverExpires(p, refreshed))
  {
    if (k + 1) * interval < ttl {
      forall p: Plan, refreshed: seq<bool>, now: int |
        && p.Running() && p.interval == interval && p.ttl == ttl && FailsInARowAtMost(p, refreshed, k)
        && p.registeredAt < now <= p.Tick(|refreshed| + 1)
        ensures HeldAt(p, refreshed, now)
      {
        HeldWhileFailuresAreFew(p, refreshed, k, now);
      }
    } else {
      var p, refreshed := TooManyFailuresExpire(interval, ttl, k);
    }
  }

  /** The check on the configuration: the interval must be smaller than the TTL. */
  predicate Validates(interval: int, ttl: int) { !(interval >= ttl) }

  /** The refresh loop runs, and no failure-free run lets a lease expire, whenever the
      service was added. A ticker of no or negative interval cannot be started. */
  ghost predicate LeasesHold(interval: int, ttl: int) {
    && interval > 0
    && forall p: Plan, refreshed: seq<bool> ::
         && p.Running() && p.interval == interval && p.ttl == ttl
         && (forall n :: 0 <= n < |refreshed| ==> refreshed[n])
         ==> NeverExpires(p, refreshed)
  }

  /** The check accepts exactly the settings under which leases hold, and besides them
      those whose interval cannot drive a ticker at all. */
  lemma ValidatedExactlyWhenLeasesHold(interval: int, ttl: int)
    ensures LeasesHold(interval, ttl) <==> Validates(interval, ttl) && interval > 0
  {
    if interval > 0 {
      SurvivesExactlyWhen(interval, ttl, 0);
      if Validates(interval, ttl) {
        forall p: Plan, refreshed: seq<bool> |
          p.Running() && p.interval == interval && p.ttl == ttl && (forall n :: 0 <= n < |refreshed| ==> refreshed[n])
          ensures FailsInARowAtMost(p, refreshed, 0)
        {
          assert forall i: nat :: i < |refreshed| ==> refreshed[i] ==> SomeSucceeds(refreshed, i, 0);
        }
      } else {
        var p, refreshed := TooManyFailuresExpire(interval, ttl, 0);
      }
    }
  }
}
