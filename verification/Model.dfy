/** Requests, local services, route documents and discovered instances, with
    the canonical forms on which replay and conflict decisions rest. */
module Model {
  import opened Text
  import opened Sorting

  datatype Option<+T> = None | Some(value: T)

  datatype Error =
    | InvalidRequest
    | NotFound
    | CallFailed
    | RouteConflict
    | ListenerAddressInvalid

  datatype Result<+T> = Ok(value: T) | Err(error: Error)

  /** Go's int on a 64-bit host. */
  const MAX_INT := 0x7FFF_FFFF_FFFF_FFFF
  type GoInt = n: int | -MAX_INT - 1 <= n <= MAX_INT

  datatype ServiceState = Registered | Serving | Draining | Deregistered

  datatype RegisterRequest = RegisterRequest(
    appId: string, appName: string, name: string, namespace: string, port: GoInt,
    dns: string, env: string, weight: GoInt, protocol: string,
    kernelLanguage: string, kernelVersion: string, methods: seq<string>, version: string)
  {
    function RequiredFields(): seq<string> {
      [appId, appName, name, namespace, dns, env, protocol, version, kernelLanguage, kernelVersion]
    }

    predicate Valid() {
      && (forall field :: field in RequiredFields() ==> TrimSpace(field) != "")
      && 0 < port <= 65535
      && 0 < weight
      && methods != []
      && forall m :: m in methods ==> "/" <= TrimSpace(m)
    }
  }

  const NANOS_PER_SECOND := 1_000_000_000
  const DEFAULT_GRACE := 20 * NANOS_PER_SECOND

  /** What time.ParseDuration makes of the grace period text of a request. */
  datatype GraceText = Blank | Duration(nanos: int) | Unparsable

  datatype DrainRequest = DrainRequest(name: string, port: GoInt, gracePeriodRaw: GraceText) {
    function GracePeriod(): Result<int> {
      match gracePeriodRaw
      case Blank => Ok(DEFAULT_GRACE)
      case Duration(nanos) => if nanos <= 0 then Err(InvalidRequest) else Ok(nanos)
      case Unparsable => Err(InvalidRequest)
    }

    predicate Valid() {
      TrimSpace(name) != "" && 0 < port <= 65535 && GracePeriod().Ok?
    }
  }

  datatype DeregisterRequest = DeregisterRequest(name: string, port: GoInt) {
    predicate Valid() {
      TrimSpace(name) != "" && 0 < port <= 65535
    }
  }

  datatype LocalService = LocalService(
    request: RegisterRequest, instanceId: string, agentId: string, agentRunId: string,
    address: string, zone: string, routePrefixes: seq<string>, routeConfigRef: string,
    leaseCheckId: string, state: ServiceState, registeredAt: int, updatedAt: int,
    drainDeadline: Option<int>)

  datatype ServiceInstance = ServiceInstance(
    instanceId: string, name: string, namespace: string, dns: string, env: string, zone: string,
    version: string, protocol: string, address: string, port: GoInt, weight: GoInt,
    cluster: string, routeConfigRef: string, routePrefixes: seq<string>)

  // ------------------------------------------------------- set-like lists

  /** The trimmed, non-blank values of a list. */
  ghost function NonBlank(values: seq<string>): set<string> {
    set v | v in values && TrimSpace(v) != "" :: TrimSpace(v)
  }

  ghost function Canonical(values: seq<string>): seq<string> {
    Ascending(NonBlank(values))
  }

  method UniqueSortedStrings(values: seq<string>) returns (result: seq<string>)
    ensures result == Canonical(values)
    ensures forall i, j :: 0 <= i < j < |result| ==> Less(result[i], result[j])
    ensures forall x :: x in result <==> x != "" && exists v :: v in values && TrimSpace(v) == x
  {
    var unique: set<string> := {};
    for n := 0 to |values|
      invariant unique == NonBlank(values[..n])
    {
      var trimmed := TrimSpace(values[n]);
      assert values[..n + 1] == values[..n] + [values[n]];
      NonBlankSnoc(values[..n], values[n]);
      if trimmed != "" {
        unique := unique + {trimmed};
      }
    }
    assert values[..|values|] == values;
    result := [];
    var left := unique;
    while left != {}
      invariant left <= unique
      invariant forall x :: x in result <==> x in unique - left
      invariant forall i, j :: 0 <= i < j < |result| ==> result[i] != result[j]
      decreases left
    {
      var value :| value in left;
      assert forall i :: 0 <= i < |result| ==> result[i] in result && result[i] != value;
      left := left - {value};
      result := result + [value];
    }
    result := SortDistinct(result);
    AscendingIsUnique(result, unique);
  }

  lemma NonBlankSnoc(values: seq<string>, v: string)
    ensures NonBlank(values + [v])
         == NonBlank(values) + (if TrimSpace(v) != "" then {TrimSpace(v)} else {})
  {
    assert v in values + [v];
    forall w | w in values
      ensures w in values + [v]
    {
    }
  }

  /** sort.Strings on a list without repetitions. */
  method SortDistinct(values: seq<string>) returns (r: seq<string>)
    requires forall i, j :: 0 <= i < j < |values| ==> values[i] != values[j]
    ensures StrictlySorted(r)
    ensures forall x :: x in r <==> x in values
  {
    NotAfterIsOrder();
    r := SortFunc(values, NotAfter);
    DistinctByCount(values, r);
    DistinctSortedIsStrict(r);
    forall x
      ensures x in r <==> x in values
    {
      assert x in multiset(r) <==> x in multiset(values);
    }
  }

  lemma DistinctByCount<T>(xs: seq<T>, ys: seq<T>)
    requires multiset(xs) == multiset(ys)
    requires forall i, j :: 0 <= i < j < |xs| ==> xs[i] != xs[j]
    ensures forall i, j :: 0 <= i < j < |ys| ==> ys[i] != ys[j]
  {
    forall i, j | 0 <= i < j < |ys|
      ensures ys[i] != ys[j]
    {
      if ys[i] == ys[j] {
        assert ys == ys[..i] + [ys[i]] + ys[i + 1..j] + [ys[j]] + ys[j + 1..];
        assert multiset(xs)[ys[i]] >= 2;
        AtMostOnce(xs, ys[i]);
      }
    }
  }

  /** Only the set of trimmed non-blank values matters, and a canonical list is
      its own canonical form. */
  lemma CanonicalIsIdempotent(values: seq<string>)
    ensures Canonical(Canonical(values)) == Canonical(values)
    ensures NonBlank(Canonical(values)) == NonBlank(values)
  {
    var c := Canonical(values);
    forall x | x in c
      ensures TrimSpace(x) == x && x != ""
    {
      var v :| v in values && TrimSpace(v) == x;
      TrimSpaceFixes(v);
    }
    assert NonBlank(c) == NonBlank(values) by {
      assert forall x :: x in NonBlank(c) ==> exists v :: v in c && TrimSpace(v) == x;
      assert forall x :: x in c ==> TrimSpace(x) in NonBlank(c);
    }
  }

  lemma CanonicalDeterminedBySet(a: seq<string>, b: seq<string>)
    ensures Canonical(a) == Canonical(b) <==> NonBlank(a) == NonBlank(b)
  {
    if Canonical(a) == Canonical(b) {
      forall x
        ensures x in NonBlank(a) <==> x in NonBlank(b)
      {
        assert x in Canonical(a) <==> x in Canonical(b);
      }
    }
  }

  /** Every text of the first list that is not blank is in the second, up to surrounding
      blanks. */
  predicate Covers(a: seq<string>, b: seq<string>) {
    forall v :: v in a && TrimSpace(v) != "" ==> exists u :: u in b && TrimSpace(u) == TrimSpace(v)
  }

  predicate SameValues(a: seq<string>, b: seq<string>) {
    Covers(a, b) && Covers(b, a)
  }

  lemma CoveredIsSubset(a: seq<string>, b: seq<string>)
    ensures Covers(a, b) <==> NonBlank(a) <= NonBlank(b)
  {
    hide TrimSpace;
    if NonBlank(a) <= NonBlank(b) {
      forall v | v in a && TrimSpace(v) != ""
        ensures exists u :: u in b && TrimSpace(u) == TrimSpace(v)
      {
        assert TrimSpace(v) in NonBlank(b);
      }
    }
  }

  lemma ValuesDecide(a: seq<string>, b: seq<string>)
    ensures SameValues(a, b) <==> NonBlank(a) == NonBlank(b)
    ensures SameValues(a, b) <==> Canonical(a) == Canonical(b)
  {
    hide NonBlank, Covers, Canonical;
    CoveredIsSubset(a, b);
    CoveredIsSubset(b, a);
    CanonicalDeterminedBySet(a, b);
  }

  // ------------------------------------------------------- route prefixes

  /** strings.LastIndex for one character; -1 when absent. */
  function LastIndex(s: string, c: char): (i: int)
    ensures -1 <= i < |s|
    ensures i >= 0 ==> s[i] == c
    ensures forall j :: i < j < |s| ==> s[j] != c
  {
    if s == "" then -1
    else if s[|s| - 1] == c then |s| - 1
    else LastIndex(s[..|s| - 1], c)
  }

  /** The service prefix of one method path: everything up to its last slash. */
  function PrefixOf(path: string): Option<string> {
    var trimmed := TrimSpace(path);
    var index := LastIndex(trimmed, '/');
    if !("/" <= trimmed) || index <= 0 then None else Some(trimmed[..index + 1])
  }

  ghost function PrefixSet(methods: seq<string>): set<string> {
    set m | m in methods && PrefixOf(m).Some? :: PrefixOf(m).value
  }

  ghost function RoutePrefixes(methods: seq<string>): seq<string> {
    Ascending(PrefixSet(methods))
  }

  lemma PrefixIsTrimmed(path: string)
    requires PrefixOf(path).Some?
    ensures var p := PrefixOf(path).value;
            p != "" && p[0] == '/' && p[|p| - 1] == '/' && TrimSpace(p) == p
  {
    var p := PrefixOf(path).value;
    assert p[0] == TrimSpace(path)[0] == "/"[0];
    TrimSpaceFixes(p);
  }

  /** The prefix reaches from the first character of the trimmed path, a slash, to its
      last slash, which is another one. */
  predicate LeadsUpToLastSlash(prefix: string, path: string) {
    && |prefix| >= 2 && prefix[0] == '/' && prefix[|prefix| - 1] == '/'
    && prefix <= TrimSpace(path) && '/' !in TrimSpace(path)[|prefix|..]
  }

  lemma PrefixSpelledOut(prefix: string, path: string)
    ensures PrefixOf(path) == Some(prefix) <==> LeadsUpToLastSlash(prefix, path)
  {
    var t := TrimSpace(path);
    var last := LastIndex(t, '/');
    hide TrimSpace, LastIndex;
    if LeadsUpToLastSlash(prefix, path) {
      assert t[|prefix| - 1] == '/' && t[0] == '/';
      assert forall j :: |prefix| <= j < |t| ==> t[j] == t[|prefix|..][j - |prefix|];
      assert last == |prefix| - 1 && prefix == t[..last + 1] && "/" == t[..1];
    }
  }

  lemma PrefixesSpelledOut(methods: seq<string>)
    ensures StrictlySorted(RoutePrefixes(methods))
    ensures forall p :: p in RoutePrefixes(methods) <==> exists m :: m in methods && LeadsUpToLastSlash(p, m)
  {
    hide PrefixOf, LeadsUpToLastSlash;
    forall p
      ensures p in PrefixSet(methods) <==> exists m :: m in methods && LeadsUpToLastSlash(p, m)
    {
      if p in PrefixSet(methods) {
        var m :| m in methods && PrefixOf(m).Some? && PrefixOf(m).value == p;
        PrefixSpelledOut(p, m);
      }
      if m :| m in methods && LeadsUpToLastSlash(p, m) {
        PrefixSpelledOut(p, m);
      }
    }
  }

  method ExtractRoutePrefixes(methods: seq<string>) returns (result: seq<string>)
    ensures result == RoutePrefixes(methods)
    ensures StrictlySorted(result)
    ensures forall p :: p in result <==> exists m :: m in methods && LeadsUpToLastSlash(p, m)
  {
    var prefixes: seq<string> := [];
    for n := 0 to |methods|
      invariant NonBlank(prefixes) == PrefixSet(methods[..n])
    {
      var trimmed := TrimSpace(methods[n]);
      assert methods[..n + 1] == methods[..n] + [methods[n]];
      PrefixSetSnoc(methods[..n], methods[n]);
      if !("/" <= trimmed) {
        continue;
      }
      var index := LastIndex(trimmed, '/');
      if index <= 0 {
        continue;
      }
      PrefixIsTrimmed(methods[n]);
      NonBlankSnoc(prefixes, trimmed[..index + 1]);
      prefixes := prefixes + [trimmed[..index + 1]];
    }
    assert methods[..|methods|] == methods;
    result := UniqueSortedStrings(prefixes);
    PrefixesSpelledOut(methods);
  }

  lemma PrefixSetSnoc(methods: seq<string>, m: string)
    ensures PrefixSet(methods + [m])
         == PrefixSet(methods) + (if PrefixOf(m).Some? then {PrefixOf(m).value} else {})
  {
    assert m in methods + [m];
    forall w | w in methods
      ensures w in methods + [m]
    {
    }
  }

  /** Prefixes depend only on the canonical method list. */
  lemma PrefixesOfCanonicalMethods(a: seq<string>, b: seq<string>)
    requires NonBlank(a) == NonBlank(b)
    ensures RoutePrefixes(a) == RoutePrefixes(b)
  {
    PrefixSetMonotone(a, b);
    PrefixSetMonotone(b, a);
    assert PrefixSet(a) == PrefixSet(b);
  }

  lemma PrefixSetMonotone(a: seq<string>, b: seq<string>)
    requires NonBlank(a) <= NonBlank(b)
    ensures PrefixSet(a) <= PrefixSet(b)
  {
    forall m | m in a && PrefixOf(m).Some?
      ensures PrefixOf(m).value in PrefixSet(b)
    {
      PathsAreNotBlank(m);
      assert TrimSpace(m) in NonBlank(a);
      SamePrefix(m, b);
    }
  }

  lemma SamePrefix(path: string, methods: seq<string>)
    requires PrefixOf(path).Some? && TrimSpace(path) in NonBlank(methods)
    ensures PrefixOf(path).value in PrefixSet(methods)
  {
    hide TrimSpace, LastIndex;
    var m := FromNonBlank(methods, TrimSpace(path));
    hide NonBlank;
    assert PrefixOf(m) == PrefixOf(path);
  }

  lemma FromNonBlank(values: seq<string>, v: string) returns (w: string)
    requires v in NonBlank(values)
    ensures w in values && TrimSpace(w) == v
  {
    w :| w in values && TrimSpace(w) == v;
  }

  lemma PathsAreNotBlank(path: string)
    requires PrefixOf(path).Some?
    ensures TrimSpace(path) != ""
  {
  }

  // ------------------------------------------------------ route documents

  datatype RouteDocument = RouteDocument(
    service: string, version: string, updatedAt: int, namespace: string, port: GoInt,
    protocol: string, prefixes: seq<string>, exactPaths: seq<string>)
  {
    ghost function Canonicalized(): RouteDocument {
      this.(prefixes := Canonical(prefixes), exactPaths := Canonical(exactPaths))
    }

    /** What a document means: everything but when it was written. */
    ghost function Meaning(): RouteDocument {
      Canonicalized().(updatedAt := 0)
    }

    method Canonicalize() returns (d: RouteDocument)
      ensures d == Canonicalized()
      ensures d == this.(prefixes := d.prefixes, exactPaths := d.exactPaths)
      ensures forall p :: p in d.prefixes <==> p != "" && exists v :: v in prefixes && TrimSpace(v) == p
      ensures forall p :: p in d.exactPaths <==> p != "" && exists v :: v in exactPaths && TrimSpace(v) == p
    {
      var p := UniqueSortedStrings(prefixes);
      var e := UniqueSortedStrings(exactPaths);
      d := this.(prefixes := p, exactPaths := e);
    }

    method Equal(other: RouteDocument) returns (same: bool)
      ensures same <==> Meaning() == other.Meaning()
      ensures (same <==>
                 && service == other.service && version == other.version && namespace == other.namespace
                 && port == other.port && protocol == other.protocol
                 && SameValues(prefixes, other.prefixes) && SameValues(exactPaths, other.exactPaths))
    {
      ValuesDecide(prefixes, other.prefixes);
      ValuesDecide(exactPaths, other.exactPaths);
      var left := Canonicalize();
      var right := other.Canonicalize();
      same := && left.service == right.service
              && left.version == right.version
              && left.namespace == right.namespace
              && left.port == right.port
              && left.protocol == right.protocol
              && left.prefixes == right.prefixes
              && left.exactPaths == right.exactPaths;
    }
  }

  /** Storing a document in canonical form keeps its meaning. */
  lemma CanonicalizedKeepsMeaning(d: RouteDocument)
    ensures d.Canonicalized().Meaning() == d.Meaning()
    ensures d.Canonicalized().Canonicalized() == d.Canonicalized()
  {
    CanonicalIsIdempotent(d.prefixes);
    CanonicalIsIdempotent(d.exactPaths);
  }

  // --------------------------------------------------------------- replay

  /** The service semantics two requests must share to count as a replay. */
  ghost predicate SameRequest(left: RegisterRequest, right: RegisterRequest) {
    && left.(methods := []) == right.(methods := [])
    && NonBlank(left.methods) == NonBlank(right.methods)
  }

  method SameRegisterRequest(left: RegisterRequest, right: RegisterRequest) returns (same: bool)
    ensures same <==> SameRequest(left, right)
    ensures same <==> left.(methods := []) == right.(methods := []) && SameValues(left.methods, right.methods)
  {
    ValuesDecide(left.methods, right.methods);
    if left.appId != right.appId ||
       left.appName != right.appName ||
       left.name != right.name ||
       left.namespace != right.namespace ||
       left.port != right.port ||
       left.dns != right.dns ||
       left.env != right.env ||
       left.weight != right.weight ||
       left.protocol != right.protocol ||
       left.kernelLanguage != right.kernelLanguage ||
       left.kernelVersion != right.kernelVersion ||
       left.version != right.version
    {
      return false;
    }
    var leftMethods := UniqueSortedStrings(left.methods);
    var rightMethods := UniqueSortedStrings(right.methods);
    CanonicalDeterminedBySet(left.methods, right.methods);
    return leftMethods == rightMethods;
  }

  /** The route document a request asks for, written at a given time. */
  ghost function DocumentFor(request: RegisterRequest, now: int): RouteDocument {
    RouteDocument(request.name, request.version, now, request.namespace, request.port, request.protocol,
                  RoutePrefixes(request.methods), Canonical(request.methods))
  }

  lemma PrefixesAreCanonical(methods: seq<string>)
    ensures Canonical(RoutePrefixes(methods)) == RoutePrefixes(methods)
  {
    var r := RoutePrefixes(methods);
    forall x | x in r
      ensures TrimSpace(x) == x && x != ""
    {
      var m :| m in methods && PrefixOf(m) == Some(x);
      PrefixIsTrimmed(m);
    }
    assert NonBlank(r) == PrefixSet(methods) by {
      assert forall x :: x in NonBlank(r) ==> exists v :: v in r && TrimSpace(v) == x;
      assert forall x :: x in r ==> TrimSpace(x) in NonBlank(r);
    }
  }

  /** A request's document is already canonical. */
  lemma DocumentIsCanonical(request: RegisterRequest, now: int)
    ensures DocumentFor(request, now).Canonicalized() == DocumentFor(request, now)
  {
    PrefixesAreCanonical(request.methods);
    CanonicalIsIdempotent(request.methods);
  }

  /** Two requests ask for the same route exactly when they agree on service,
      version, namespace, port, protocol and set of methods. */
  lemma SameRouteMeaning(a: RegisterRequest, b: RegisterRequest, s: int, t: int)
    ensures DocumentFor(a, s).Meaning() == DocumentFor(b, t).Meaning()
       <==> && a.name == b.name && a.version == b.version && a.namespace == b.namespace
            && a.port == b.port && a.protocol == b.protocol
            && NonBlank(a.methods) == NonBlank(b.methods)
  {
    DocumentIsCanonical(a, s);
    DocumentIsCanonical(b, t);
    CanonicalDeterminedBySet(a.methods, b.methods);
    if NonBlank(a.methods) == NonBlank(b.methods) {
      PrefixesOfCanonicalMethods(a.methods, b.methods);
    }
  }
}
