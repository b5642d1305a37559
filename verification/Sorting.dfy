/** Sorting by a comparison, and splitting a list into parts by a string key.

    The library sort is known to its callers by its contract only: the result is
    sorted and has the same elements. Which of two tied elements comes first is
    left open, as `slices.SortFunc` leaves it. */
module Sorting {
  import opened Text

  // ---------------------------------------------------------- library sort

  ghost predicate IsOrder<T(!new)>(leq: (T, T) -> bool) {
    && (forall x, y :: leq(x, y) || leq(y, x))
    && (forall x, y, z :: leq(x, y) && leq(y, z) ==> leq(x, z))
  }

  ghost predicate SortedBy<T>(xs: seq<T>, leq: (T, T) -> bool) {
    forall i, j :: 0 <= i < j < |xs| ==> leq(xs[i], xs[j])
  }

  /** Elements that tie are the same element. */
  ghost predicate NoTies<T>(xs: seq<T>, leq: (T, T) -> bool) {
    forall i, j :: 0 <= i < |xs| && 0 <= j < |xs| && leq(xs[i], xs[j]) && leq(xs[j], xs[i]) ==> xs[i] == xs[j]
  }

  /** An element goes in after those it may follow and before the first that it may not. */
  lemma InsertKeepsSorted<T(!new)>(r: seq<T>, at: nat, x: T, leq: (T, T) -> bool)
    requires IsOrder(leq) && SortedBy(r, leq) && at <= |r|
    requires forall i :: 0 <= i < at ==> leq(r[i], x)
    requires at < |r| ==> !leq(r[at], x)
    ensures SortedBy(r[..at] + [x] + r[at..], leq)
  {
    var s := r[..at] + [x] + r[at..];
    assert forall i :: at <= i < |r| ==> leq(x, r[i]) by {
      forall i | at <= i < |r| ensures leq(x, r[i]) {
        assert leq(x, r[at]);
        assert i == at || leq(r[at], r[i]);
      }
    }
    hide IsOrder;
    assert forall i :: 0 <= i < |s| ==> s[i] == if i < at then r[i] else if i == at then x else r[i - 1];
  }

  lemma InsertAddsOne<T>(r: seq<T>, at: nat, x: T)
    requires at <= |r|
    ensures multiset(r[..at] + [x] + r[at..]) == multiset(r) + multiset{x}
  {
    assert r == r[..at] + r[at..];
  }

  /** slices.SortFunc and sort.Strings */
  method SortFunc<T(!new, ==)>(xs: seq<T>, leq: (T, T) -> bool) returns (r: seq<T>)
    requires IsOrder(leq)
    ensures SortedBy(r, leq)
    ensures multiset(r) == multiset(xs)
  {
    hide IsOrder;
    r := [];
    for n := 0 to |xs|
      invariant SortedBy(r, leq)
      invariant multiset(r) == multiset(xs[..n])
    {
      var at := 0;
      while at < |r| && leq(r[at], xs[n])
        invariant 0 <= at <= |r|
        invariant forall i :: 0 <= i < at ==> leq(r[i], xs[n])
      {
        at := at + 1;
      }
      InsertKeepsSorted(r, at, xs[n], leq);
      InsertAddsOne(r, at, xs[n]);
      assert xs[..n + 1] == xs[..n] + [xs[n]];
      hide SortedBy;
      r := r[..at] + [xs[n]] + r[at..];
    }
    assert xs[..|xs|] == xs;
  }

  function Without<T>(ys: seq<T>, k: nat): seq<T>
    requires k < |ys|
  {
    ys[..k] + ys[k + 1..]
  }

  /** A rearrangement has the head of the list somewhere, and around it a
      rearrangement of the tail. */
  lemma FindHead<T>(xs: seq<T>, ys: seq<T>) returns (k: nat)
    requires multiset(xs) == multiset(ys) && xs != []
    ensures k < |ys| && ys[k] == xs[0]
    ensures multiset(Without(ys, k)) == multiset(xs[1..])
  {
    assert xs[0] in multiset(ys);
    k :| 0 <= k < |ys| && ys[k] == xs[0];
    assert xs == [xs[0]] + xs[1..];
    assert ys == ys[..k] + [ys[k]] + ys[k + 1..];
    assert multiset(xs[1..]) == multiset(xs) - multiset{xs[0]};
    assert multiset(Without(ys, k)) == multiset(ys) - multiset{ys[k]};
  }

  lemma RearrangesEmpty<T>(ys: seq<T>)
    requires multiset(ys) == multiset{}
    ensures ys == []
  {
    assert |multiset(ys)| == 0;
  }

  lemma {:induction false} SortedExists<T(!new)>(xs: seq<T>, leq: (T, T) -> bool) returns (r: seq<T>)
    requires IsOrder(leq)
    ensures SortedBy(r, leq) && multiset(r) == multiset(xs)
  {
    hide IsOrder;
    if xs == [] {
      r := [];
    } else {
      var x := xs[|xs| - 1];
      var t := SortedExists(xs[..|xs| - 1], leq);
      var at := 0;
      while at < |t| && leq(t[at], x)
        invariant 0 <= at <= |t|
        invariant forall i :: 0 <= i < at ==> leq(t[i], x)
      {
        at := at + 1;
      }
      InsertKeepsSorted(t, at, x, leq);
      InsertAddsOne(t, at, x);
      assert xs == xs[..|xs| - 1] + [x];
      r := t[..at] + [x] + t[at..];
    }
  }

  lemma TailIsSorted<T(!new)>(r: seq<T>, leq: (T, T) -> bool)
    requires r != [] && SortedBy(r, leq)
    ensures SortedBy(r[1..], leq)
    ensures NoTies(r, leq) ==> NoTies(r[1..], leq)
  {
    assert forall i :: 0 <= i < |r[1..]| ==> r[1..][i] == r[i + 1];
  }

  /** Without ties every sorted arrangement is the same list. */
  lemma {:induction false} SortedArrangementIsUnique<T(!new)>(r: seq<T>, s: seq<T>, leq: (T, T) -> bool)
    requires IsOrder(leq) && SortedBy(r, leq) && SortedBy(s, leq)
    requires multiset(r) == multiset(s)
    requires NoTies(r, leq)
    ensures r == s
  {
    hide IsOrder, SortedBy, NoTies;
    if r == [] {
      RearrangesEmpty(s);
    } else if s == [] {
      RearrangesEmpty(r);
    } else {
      HeadsAgree(r, s, leq);
      SameTails(r, s);
      TailIsSorted(r, leq);
      TailIsSorted(s, leq);
      SortedArrangementIsUnique(r[1..], s[1..], leq);
      assert r == [r[0]] + r[1..] && s == [s[0]] + s[1..];
    }
  }

  lemma SameTails<T>(r: seq<T>, s: seq<T>)
    requires multiset(r) == multiset(s) && r != [] && s != [] && r[0] == s[0]
    ensures multiset(r[1..]) == multiset(s[1..])
  {
    assert r == [r[0]] + r[1..] && s == [s[0]] + s[1..];
    assert multiset(r[1..]) == multiset(r) - multiset{r[0]};
    assert multiset(s[1..]) == multiset(s) - multiset{s[0]};
  }

  lemma HeadsAgree<T(!new)>(r: seq<T>, s: seq<T>, leq: (T, T) -> bool)
    requires IsOrder(leq) && SortedBy(r, leq) && SortedBy(s, leq) && NoTies(r, leq)
    requires multiset(r) == multiset(s) && r != [] && s != []
    ensures r[0] == s[0]
  {
    assert r[0] in multiset(s) && s[0] in multiset(r);
    var i :| 0 <= i < |s| && s[i] == r[0];
    var j :| 0 <= j < |r| && r[j] == s[0];
    assert leq(r[0], r[0]) && leq(s[0], s[0]);
    assert leq(r[0], r[j]) && leq(s[0], s[i]);
  }

  /** A sorted list is the only arrangement of its elements exactly when ties
      are identical: two different tied elements can always change places. */
  lemma UniqueExactlyWithoutTies<T(!new)>(r: seq<T>, leq: (T, T) -> bool)
    requires IsOrder(leq) && SortedBy(r, leq)
    ensures NoTies(r, leq)
       <==> forall s :: SortedBy(s, leq) && multiset(s) == multiset(r) ==> s == r
  {
    if NoTies(r, leq) {
      forall s | SortedBy(s, leq) && multiset(s) == multiset(r)
        ensures s == r
      {
        SortedArrangementIsUnique(r, s, leq);
      }
    } else {
      var i, j :| 0 <= i < |r| && 0 <= j < |r| && leq(r[i], r[j]) && leq(r[j], r[i]) && r[i] != r[j];
      var s := r[i := r[j]][j := r[i]];
      forall p, q | 0 <= p < q < |s|
        ensures leq(s[p], s[q])
      {
        TieSwap(r, leq, i, j, p);
        TieSwap(r, leq, i, j, q);
        assert leq(s[p], r[p]) && leq(r[p], r[q]) && leq(r[q], s[q]);
        assert leq(s[p], r[q]);
      }
      assert SortedBy(s, leq);
      assert multiset(s) == multiset(r);
      assert s[j] == r[i];
      assert s != r;
    }
  }

  lemma TieSwap<T(!new)>(r: seq<T>, leq: (T, T) -> bool, i: nat, j: nat, p: nat)
    requires IsOrder(leq)
    requires i < |r| && j < |r| && p < |r| && leq(r[i], r[j]) && leq(r[j], r[i])
    ensures var s := r[i := r[j]][j := r[i]]; leq(s[p], r[p]) && leq(r[p], s[p])
  {
  }

  // ---------------------------------------------------- strings in byte order

  predicate NotAfter(a: string, b: string) { !Less(b, a) }

  lemma NotAfterIsOrder()
    ensures IsOrder(NotAfter)
    ensures forall a, b :: NotAfter(a, b) && NotAfter(b, a) ==> a == b
  {
    forall a, b
      ensures NotAfter(a, b) || NotAfter(b, a)
      ensures NotAfter(a, b) && NotAfter(b, a) ==> a == b
    {
      LessIsTotal(a, b);
    }
    forall a, b, c | NotAfter(a, b) && NotAfter(b, c)
      ensures NotAfter(a, c)
    {
      LessIsTotal(a, b);
      LessIsTotal(b, c);
      LessIsTotal(a, c);
      if Less(c, a) {
        if a != b { LessIsTransitive(c, a, b); }
        if b != c && Less(c, b) { LessIsTotal(c, b); }
      }
    }
  }

  /** Comparison of any items through a string key. */
  function ByKey<T>(key: T -> string): (T, T) -> bool {
    (x, y) => NotAfter(key(x), key(y))
  }

  lemma ByKeyIsOrder<T(!new)>(key: T -> string)
    ensures IsOrder(ByKey(key))
  {
    NotAfterIsOrder();
    var leq := ByKey(key);
    forall x, y, z | leq(x, y) && leq(y, z)
      ensures leq(x, z)
    {
      assert NotAfter(key(x), key(y)) && NotAfter(key(y), key(z));
    }
    forall x, y
      ensures leq(x, y) || leq(y, x)
    {
      assert NotAfter(key(x), key(y)) || NotAfter(key(y), key(x));
    }
  }

  lemma ByKeyMeans<T>(key: T -> string, x: T, y: T)
    ensures ByKey(key)(x, y) <==> !Less(key(y), key(x))
  {
  }

  lemma ByKeyTies<T>(key: T -> string, x: T, y: T)
    ensures ByKey(key)(x, y) && ByKey(key)(y, x) <==> key(x) == key(y)
  {
    LessIsTotal(key(x), key(y));
  }

  predicate StrictlySorted(r: seq<string>) {
    forall i, j :: 0 <= i < j < |r| ==> Less(r[i], r[j])
  }

  lemma {:induction false} LeastExists(s: set<string>) returns (m: string)
    requires s != {}
    ensures m in s && forall x :: x in s ==> x == m || Less(m, x)
  {
    m :| m in s;
    if s != {m} {
      var n := LeastExists(s - {m});
      LessIsTotal(m, n);
      if Less(n, m) {
        m := n;
      } else {
        forall x | x in s && x != m
          ensures Less(m, x)
        {
          assert x in s - {m};
          if x != n { LessIsTransitive(m, n, x); }
        }
      }
    }
  }

  /** The members of a set in ascending order. */
  ghost function Ascending(s: set<string>): (r: seq<string>)
    ensures StrictlySorted(r)
    ensures forall x :: x in r <==> x in s
  {
    if s == {} then []
    else
      assert exists m :: m in s && forall x :: x in s ==> x == m || Less(m, x) by {
        var m := LeastExists(s);
      }
      var m :| m in s && forall x :: x in s ==> x == m || Less(m, x);
      [m] + Ascending(s - {m})
  }

  /** The ascending order of a set is unique. */
  lemma {:induction false} AscendingIsUnique(r: seq<string>, s: set<string>)
    requires StrictlySorted(r)
    requires forall x :: x in r <==> x in s
    ensures r == Ascending(s)
  {
    var t := Ascending(s);
    if r == [] {
      assert s == {} by {
        assert forall x :: x in s ==> x in r;
      }
    } else {
      assert r[0] in s && r[0] in t && t != [];
      assert t[0] in s && t[0] in r;
      LessIsTotal(r[0], t[0]);
      assert r[0] == t[0];
      forall i | 0 <= i < |r[1..]|
        ensures r[1..][i] != r[0]
      {
        assert Less(r[0], r[i + 1]);
        LessIsTotal(r[0], r[i + 1]);
      }
      assert forall x :: x in r[1..] <==> x in s - {r[0]} by {
        assert r == [r[0]] + r[1..];
      }
      AscendingIsUnique(r[1..], s - {r[0]});
      assert t == [t[0]] + Ascending(s - {t[0]});
    }
  }

  /** A sorted list without repetitions is strictly sorted. */
  lemma DistinctSortedIsStrict(r: seq<string>)
    requires SortedBy(r, NotAfter)
    requires forall i, j :: 0 <= i < j < |r| ==> r[i] != r[j]
    ensures StrictlySorted(r)
  {
    forall i, j | 0 <= i < j < |r|
      ensures Less(r[i], r[j])
    {
      assert NotAfter(r[i], r[j]);
      LessIsTotal(r[i], r[j]);
    }
  }

  // --------------------------------------------------------- parts by key

  /** The items with a given key, in their original order. */
  function WithKey<T>(xs: seq<T>, key: T -> string, k: string): (r: seq<T>)
  {
    if xs == [] then []
    else
      var last := xs[|xs| - 1];
      WithKey(xs[..|xs| - 1], key, k) + (if key(last) == k then [last] else [])
  }

  function KeysOf<T>(xs: seq<T>, key: T -> string): set<string> {
    set i | 0 <= i < |xs| :: key(xs[i])
  }

  lemma {:induction false} WithKeyMembers<T>(xs: seq<T>, key: T -> string, k: string)
    ensures forall x :: x in WithKey(xs, key, k) <==> x in xs && key(x) == k
    ensures WithKey(xs, key, k) != [] <==> k in KeysOf(xs, key)
  {
    if xs != [] {
      var init, last := xs[..|xs| - 1], xs[|xs| - 1];
      assert xs == init + [last];
      WithKeyMembers(init, key, k);
      assert KeysOf(xs, key) == KeysOf(init, key) + {key(last)} by {
        forall k' | k' in KeysOf(xs, key)
          ensures k' in KeysOf(init, key) + {key(last)}
        {
          var i :| 0 <= i < |xs| && key(xs[i]) == k';
          if i < |init| { assert init[i] == xs[i]; }
        }
        forall k' | k' in KeysOf(init, key)
          ensures k' in KeysOf(xs, key)
        {
          var i :| 0 <= i < |init| && key(init[i]) == k';
          assert xs[i] == init[i];
        }
        assert key(xs[|xs| - 1]) in KeysOf(xs, key);
      }
    }
  }

  function Flatten<T>(parts: seq<seq<T>>): seq<T> {
    if parts == [] then [] else Flatten(parts[..|parts| - 1]) + parts[|parts| - 1]
  }

  function Parts<T>(xs: seq<T>, key: T -> string, ks: seq<string>): (r: seq<seq<T>>)
    ensures |r| == |ks|
  {
    seq(|ks|, i requires 0 <= i < |ks| => WithKey(xs, key, ks[i]))
  }

  /** The items whose key is in a set. */
  function Within<T>(xs: seq<T>, key: T -> string, ks: set<string>): seq<T> {
    if xs == [] then []
    else
      var last := xs[|xs| - 1];
      Within(xs[..|xs| - 1], key, ks) + (if key(last) in ks then [last] else [])
  }

  lemma {:induction false} WithinAll<T>(xs: seq<T>, key: T -> string, ks: set<string>)
    requires forall x :: x in xs ==> key(x) in ks
    ensures Within(xs, key, ks) == xs
  {
    if xs != [] {
      assert xs[|xs| - 1] in xs;
      WithinAll(xs[..|xs| - 1], key, ks);
    }
  }

  lemma {:induction false} WithinNone<T>(xs: seq<T>, key: T -> string)
    ensures Within(xs, key, {}) == []
  {
    if xs != [] {
      WithinNone(xs[..|xs| - 1], key);
    }
  }

  lemma {:induction false} WithinOneMore<T>(xs: seq<T>, key: T -> string, ks: set<string>, k: string)
    requires k !in ks
    ensures multiset(Within(xs, key, ks + {k})) == multiset(Within(xs, key, ks)) + multiset(WithKey(xs, key, k))
  {
    if xs != [] {
      WithinOneMore(xs[..|xs| - 1], key, ks, k);
    }
  }

  lemma {:induction false} PartsCover<T>(xs: seq<T>, key: T -> string, ks: seq<string>)
    requires forall i, j :: 0 <= i < j < |ks| ==> ks[i] != ks[j]
    ensures multiset(Flatten(Parts(xs, key, ks))) == multiset(Within(xs, key, (set k | k in ks)))
  {
    if ks == [] {
      WithinNone(xs, key);
      assert (set k | k in ks) == {};
    } else {
      var init, k := ks[..|ks| - 1], ks[|ks| - 1];
      assert Parts(xs, key, ks)[..|ks| - 1] == Parts(xs, key, init);
      PartsCover(xs, key, init);
      assert ks == init + [k];
      assert (set x | x in ks) == (set x | x in init) + {k};
      WithinOneMore(xs, key, (set x | x in init), k);
    }
  }

  /** Splitting a list by its keys loses nothing and invents nothing. */
  lemma PartsConserve<T>(xs: seq<T>, key: T -> string)
    ensures multiset(Flatten(Parts(xs, key, Ascending(KeysOf(xs, key))))) == multiset(xs)
  {
    var ks := Ascending(KeysOf(xs, key));
    forall i, j | 0 <= i < j < |ks|
      ensures ks[i] != ks[j]
    {
      LessIsTotal(ks[i], ks[j]);
    }
    PartsCover(xs, key, ks);
    WithinAll(xs, key, (set k | k in ks));
  }

  lemma WithKeySnoc<T>(xs: seq<T>, key: T -> string, x: T, k: string)
    ensures WithKey(xs + [x], key, k) == WithKey(xs, key, k) + (if key(x) == k then [x] else [])
    ensures KeysOf(xs + [x], key) == KeysOf(xs, key) + {key(x)}
  {
    var ys := xs + [x];
    assert ys[..|ys| - 1] == xs;
    forall i | 0 <= i < |xs|
      ensures ys[i] == xs[i]
    {
    }
    assert ys[|xs|] == x;
    forall k' | k' in KeysOf(ys, key)
      ensures k' in KeysOf(xs, key) + {key(x)}
    {
      var i :| 0 <= i < |ys| && key(ys[i]) == k';
      if i < |xs| { assert key(xs[i]) == k'; }
    }
    forall k' | k' in KeysOf(xs, key)
      ensures k' in KeysOf(ys, key)
    {
      var i :| 0 <= i < |xs| && key(xs[i]) == k';
      assert key(ys[i]) == k';
    }
    assert key(ys[|xs|]) in KeysOf(ys, key);
  }

  // ------------------------------------------------------------------- maps

  function Map<T, U>(f: T -> U, xs: seq<T>): (r: seq<U>)
    ensures |r| == |xs| && forall i :: 0 <= i < |xs| ==> r[i] == f(xs[i])
  {
    seq(|xs|, i requires 0 <= i < |xs| => f(xs[i]))
  }

  lemma MapConcat<T, U>(f: T -> U, xs: seq<T>, ys: seq<T>)
    ensures Map(f, xs + ys) == Map(f, xs) + Map(f, ys)
  {
  }

  lemma MapTakesOut<T, U>(f: T -> U, ys: seq<T>, k: nat)
    requires k < |ys|
    ensures multiset(Map(f, ys)) == multiset{f(ys[k])} + multiset(Map(f, Without(ys, k)))
  {
    MapConcat(f, ys[..k], ys[k + 1..]);
    assert Map(f, ys) == Map(f, ys[..k]) + ([f(ys[k])] + Map(f, ys[k + 1..]));
  }

  lemma {:induction false} MapRearranges<T, U>(f: T -> U, xs: seq<T>, ys: seq<T>)
    requires multiset(xs) == multiset(ys)
    ensures multiset(Map(f, xs)) == multiset(Map(f, ys))
  {
    if xs == [] {
      RearrangesEmpty(ys);
    } else {
      var k := FindHead(xs, ys);
      MapRearranges(f, xs[1..], Without(ys, k));
      MapTakesOut(f, ys, k);
      MapTakesOut(f, xs, 0);
      assert Without(xs, 0) == xs[1..];
    }
  }

  lemma {:induction false} FlattenMaps<T, U>(f: T -> U, parts: seq<seq<T>>, mapped: seq<seq<U>>)
    requires |mapped| == |parts| && forall i :: 0 <= i < |parts| ==> mapped[i] == Map(f, parts[i])
    ensures Flatten(mapped) == Map(f, Flatten(parts))
  {
    if parts != [] {
      var n := |parts| - 1;
      FlattenMaps(f, parts[..n], mapped[..n]);
      MapConcat(f, Flatten(parts[..n]), parts[n]);
    }
  }

  // ------------------------------------------------- lists without repetition

  lemma {:induction false} AtMostOnce<T>(xs: seq<T>, x: T)
    requires forall i, j :: 0 <= i < j < |xs| ==> xs[i] != xs[j]
    ensures multiset(xs)[x] <= 1
  {
    if xs != [] {
      assert xs == [xs[0]] + xs[1..];
      AtMostOnce(xs[1..], x);
      if xs[0] == x {
        assert x !in xs[1..];
      }
    }
  }

  /** Two lists that hold the members of a set once each are rearrangements. */
  lemma SameMembersSameMultiset<T>(xs: seq<T>, ys: seq<T>)
    requires forall x :: x in xs <==> x in ys
    requires forall i, j :: 0 <= i < j < |xs| ==> xs[i] != xs[j]
    requires forall i, j :: 0 <= i < j < |ys| ==> ys[i] != ys[j]
    ensures multiset(xs) == multiset(ys)
  {
    forall x
      ensures multiset(xs)[x] == multiset(ys)[x]
    {
      AtMostOnce(xs, x);
      AtMostOnce(ys, x);
      assert x in multiset(xs) <==> x in xs;
      assert x in multiset(ys) <==> x in ys;
    }
  }

  lemma AscendingIsDistinct(s: set<string>)
    ensures forall i, j :: 0 <= i < j < |Ascending(s)| ==> Ascending(s)[i] != Ascending(s)[j]
  {
    var r := Ascending(s);
    forall i, j | 0 <= i < j < |r|
      ensures r[i] != r[j]
    {
      LessIsTotal(r[i], r[j]);
    }
  }

  /** Sorting by a key that ascends strictly along a list with the same members
      yields that list. */
  lemma SortingYields<T(!new)>(listed: seq<T>, sorted: seq<T>, spec: seq<T>, key: T -> string)
    requires forall x :: x in listed <==> x in spec
    requires forall i, j :: 0 <= i < j < |listed| ==> listed[i] != listed[j]
    requires forall i, j :: 0 <= i < j < |spec| ==> Less(key(spec[i]), key(spec[j]))
    requires multiset(sorted) == multiset(listed) && SortedBy(sorted, ByKey(key))
    ensures sorted == spec
  {
    forall i, j | 0 <= i < |spec| && 0 <= j < |spec| && key(spec[i]) == key(spec[j])
      ensures i == j
    {
      LessIsTotal(key(spec[i]), key(spec[j]));
    }
    SameMembersSameMultiset(listed, spec);
    ByKeyIsOrder(key);
    forall i, j | 0 <= i < j < |spec|
      ensures ByKey(key)(spec[i], spec[j])
    {
      LessIsTotal(key(spec[i]), key(spec[j]));
    }
    forall i, j | 0 <= i < |spec| && 0 <= j < |spec| && ByKey(key)(spec[i], spec[j]) && ByKey(key)(spec[j], spec[i])
      ensures spec[i] == spec[j]
    {
      ByKeyTies(key, spec[i], spec[j]);
    }
    SortedArrangementIsUnique(spec, sorted, ByKey(key));
  }
}
