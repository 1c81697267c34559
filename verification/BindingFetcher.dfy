/** From the applications of the binding provider to the syslog bindings of an agent. */
module BindingFetcher {
  import opened Wrappers
  import opened ByteStrings

  datatype Binding = Binding(appId: string, hostname: string, drain: string)

  /** An application as fetched; its drains are sorted in place. */
  datatype App = App(appId: string, hostname: string, drains: array<string>)

  datatype AppView = AppView(appId: string, hostname: string, drains: seq<string>)

  /** url.Parse followed by URL.String; None where parsing fails. */
  type ParseUrl = string -> Option<string>

  function View(a: App): AppView
    reads a.drains
  {
    AppView(a.appId, a.hostname, a.drains[..])
  }

  /** sort.Strings on a slice. */
  method SortStrings(a: array<string>)
    modifies a
    ensures a[..] == Sort(old(a[..]))
  {
    for n := 0 to a.Length
      invariant multiset(a[..]) == multiset(old(a[..]))
      invariant Sorted(a[..n])
    {
      InsertLast(a, n);
    }
    assert a[..a.Length] == a[..];
    SortedUnique(a[..], Sort(old(a[..])));
  }

  /** Elements 0 to m are in order, except that the one at position k may belong further left. */
  ghost predicate SortedBut(s: seq<string>, k: nat, m: nat)
    requires k <= m < |s|
  {
    forall i, j | 0 <= i < j <= m && j != k :: Leq(s[i], s[j])
  }

  function SwapBack(s: seq<string>, k: nat): seq<string>
    requires 0 < k < |s|
  {
    s[k := s[k - 1]][k - 1 := s[k]]
  }

  lemma SwapBackKeeps(s: seq<string>, k: nat, m: nat)
    requires 0 < k <= m < |s| && SortedBut(s, k, m) && Less(s[k], s[k - 1])
    ensures SortedBut(SwapBack(s, k), k - 1, m)
  {
  }

  lemma SortedAtLast(s: seq<string>, k: nat, m: nat)
    requires k <= m < |s| && SortedBut(s, k, m) && (k > 0 ==> !Less(s[k], s[k - 1]))
    ensures Sorted(s[..m + 1])
  {
    hide Less;
    forall i, j | 0 <= i < j <= m ensures Leq(s[i], s[j]) {
      if j == k {
        Trichotomy(s[k], s[k - 1]);
        if i < k - 1 { LeqTransitive(s[i], s[k - 1], s[k]); }
      }
    }
  }

  /** One step of insertion. */
  method Swap(a: array<string>, k: nat)
    requires 0 < k < a.Length
    modifies a
    ensures a[..] == SwapBack(old(a[..]), k) && multiset(a[..]) == multiset(old(a[..]))
  {
    a[k], a[k - 1] := a[k - 1], a[k];
    assert a[..] == SwapBack(old(a[..]), k);
  }

  method InsertLast(a: array<string>, n: nat)
    requires n < a.Length && Sorted(a[..n])
    modifies a
    ensures multiset(a[..]) == multiset(old(a[..]))
    ensures Sorted(a[..n + 1])
  {
    hide Less, SwapBack;
    var k := n;
    assert forall i, j | 0 <= i < j < n :: a[..][i] == a[..n][i] && a[..][j] == a[..n][j];
    while k > 0 && Less(a[k], a[k - 1])
      invariant 0 <= k <= n
      invariant multiset(a[..]) == multiset(old(a[..]))
      invariant SortedBut(a[..], k, n)
    {
      SwapBackKeeps(a[..], k, n);
      Swap(a, k);
      k := k - 1;
    }
    SortedAtLast(a[..], k, n);
    assert a[..][..n + 1] == a[..n + 1];
  }

  // ----- toSyslogBindings -----

  function Min(x: nat, y: nat): nat {
    if x < y then x else y
  }

  /** The drains of one application that are kept. */
  function Kept(drains: seq<string>, limit: nat): seq<string> {
    Sort(drains)[..Min(limit, |drains|)]
  }

  function ParsedBindings(appId: string, hostname: string, drains: seq<string>, parse: ParseUrl): seq<Binding> {
    if drains == [] then [] else
    ParsedBindings(appId, hostname, drains[..|drains| - 1], parse)
    + match parse(drains[|drains| - 1])
      case None => []
      case Some(u) => [Binding(appId, hostname, u)]
  }

  function OfApp(a: AppView, limit: nat, parse: ParseUrl): seq<Binding> {
    ParsedBindings(a.appId, a.hostname, Kept(a.drains, limit), parse)
  }

  function OfApps(apps: seq<AppView>, limit: nat, parse: ParseUrl): seq<Binding> {
    if apps == [] then [] else OfApps(apps[..|apps| - 1], limit, parse) + OfApp(apps[|apps| - 1], limit, parse)
  }

  /** Sort the drains in place and cut them to the limit. */
  method KeepSmallest(a: array<string>, limit: nat) returns (drains: seq<string>)
    modifies a
    ensures a[..] == Sort(old(a[..])) && drains == Kept(old(a[..]), limit)
  {
    SortStrings(a);
    drains := a[..];
    if limit < |drains| {
      drains := drains[..limit];
    }
  }

  method ParseAll(appId: string, hostname: string, drains: seq<string>, parse: ParseUrl)
    returns (bindings: seq<Binding>)
    ensures bindings == ParsedBindings(appId, hostname, drains, parse)
  {
    bindings := [];
    for i := 0 to |drains|
      invariant bindings == ParsedBindings(appId, hostname, drains[..i], parse)
    {
      assert drains[..i + 1][..i] == drains[..i];
      var u := parse(drains[i]);
      if u.Some? {
        bindings := bindings + [Binding(appId, hostname, u.value)];
      }
    }
    assert drains[..|drains|] == drains;
  }

  lemma OfAppsNext(views: seq<AppView>, n: nat, limit: nat, parse: ParseUrl)
    requires n < |views|
    ensures OfApps(views[..n + 1], limit, parse) == OfApps(views[..n], limit, parse) + OfApp(views[n], limit, parse)
  {
    assert views[..n + 1][..n] == views[..n];
  }

  method ToSyslogBindings(bs: seq<App>, perAppLimit: nat, parse: ParseUrl)
    returns (bindings: seq<Binding>, ghost views: seq<AppView>)
    requires forall i, j | 0 <= i < j < |bs| :: bs[i].drains != bs[j].drains
    modifies set b | b in bs :: b.drains
    ensures |views| == |bs| && forall i | 0 <= i < |bs| :: views[i] == old(View(bs[i]))
    ensures bindings == OfApps(views, perAppLimit, parse)
    ensures forall x :: x in bindings <==> Returned(views, perAppLimit, parse, x)
    ensures forall i | 0 <= i < |bs| :: bs[i].drains[..] == Sort(views[i].drains)
  {
    hide Sort, Less, Sorted, Min, ParsedBindings;
    views := seq(|bs|, i requires 0 <= i < |bs| reads set b | b in bs :: b.drains => View(bs[i]));
    bindings := [];
    for n := 0 to |bs|
      invariant forall i | 0 <= i < n :: bs[i].drains[..] == Sort(views[i].drains)
      invariant forall i | n <= i < |bs| :: View(bs[i]) == views[i]
      invariant bindings == OfApps(views[..n], perAppLimit, parse)
    {
      var b := bs[n];
      assert View(b) == views[n] && b in bs;
      var drains := KeepSmallest(b.drains, perAppLimit);
      var parsed := ParseAll(b.appId, b.hostname, drains, parse);
      bindings := bindings + parsed;
      OfAppsNext(views, n, perAppLimit, parse);
    }
    assert views[..|bs|] == views;
    forall x ensures x in bindings <==> Returned(views, perAppLimit, parse, x) {
      ReturnedExactly(views, perAppLimit, parse, x);
    }
  }

  // ----- what is kept -----

  /** How many of the drains come before d. */
  function CountLess(drains: seq<string>, d: string): nat {
    if drains == [] then 0
    else CountLess(drains[..|drains| - 1], d) + if Less(drains[|drains| - 1], d) then 1 else 0
  }

  lemma {:induction false} CountLessSplit(a: seq<string>, b: seq<string>, d: string)
    ensures CountLess(a + b, d) == CountLess(a, d) + CountLess(b, d)
    decreases |b|
  {
    if b == [] {
      assert a + b == a;
    } else {
      var n := |b| - 1;
      assert (a + b)[..|a| + n] == a + b[..n];
      CountLessSplit(a, b[..n], d);
    }
  }

  lemma DropOne(front: seq<string>, x: string, q: seq<string>, j: nat)
    requires multiset(front + [x]) == multiset(q) && j < |q| && q[j] == x
    ensures multiset(front) == multiset(q[..j] + q[j + 1..])
  {
    assert q == q[..j] + [x] + q[j + 1..];
    assert multiset(front) == multiset(q) - multiset{x};
  }

  lemma {:induction false} CountLessPermuted(p: seq<string>, q: seq<string>, d: string)
    requires multiset(p) == multiset(q)
    ensures CountLess(p, d) == CountLess(q, d)
    decreases |p|
  {
    hide Less;
    assert |p| == |multiset(p)| && |q| == |multiset(q)|;
    if p != [] {
      var front, x := p[..|p| - 1], p[|p| - 1];
      assert p == front + [x];
      assert x in multiset(q);
      var j :| 0 <= j < |q| && q[j] == x;
      assert q == q[..j] + ([x] + q[j + 1..]);
      DropOne(front, x, q, j);
      CountLessPermuted(front, q[..j] + q[j + 1..], d);
      CountLessSplit(q[..j], [x] + q[j + 1..], d);
      CountLessSplit([x], q[j + 1..], d);
      CountLessSplit(q[..j], q[j + 1..], d);
      CountLessSplit(front, [x], d);
    }
  }

  /** In a sorted sequence the smaller ones come first. */
  lemma {:induction false} SortedCount(s: seq<string>, d: string)
    requires Sorted(s)
    ensures CountLess(s, d) <= |s|
    ensures forall i | 0 <= i < |s| :: Less(s[i], d) <==> i < CountLess(s, d)
    decreases |s|
  {
    if s != [] {
      hide Less;
      var front, x := s[..|s| - 1], s[|s| - 1];
      SortedCount(front, d);
      assert forall i | 0 <= i < |front| :: s[i] == front[i];
      if Less(x, d) {
        forall i | 0 <= i < |front| ensures Less(front[i], d) {
          if s[i] != x { LessTransitive(s[i], x, d); }
        }
      }
    }
  }

  /** A drain is kept exactly when fewer than limit drains come before it. */
  lemma KeptExactly(drains: seq<string>, limit: nat, d: string)
    ensures d in Kept(drains, limit) <==> d in drains && CountLess(drains, d) < limit
  {
    hide Less, CountLess, Sort;
    var s, c := Sort(drains), CountLess(drains, d);
    CountLessPermuted(s, drains, d);
    SortedCount(s, d);
    assert d in drains <==> d in multiset(drains);
    assert d in s <==> d in multiset(s);
    if d in s {
      var j :| 0 <= j < |s| && s[j] == d && (d in Kept(drains, limit) ==> j < Min(limit, |s|));
      Trichotomy(d, d);
      Trichotomy(s[c], d);
      assert s[c] == d;
    }
  }

  /** As many as the limit allows, each as often as it came unless the limit cuts it. */
  lemma KeptLength(drains: seq<string>, limit: nat)
    ensures |Kept(drains, limit)| == if limit < |drains| then limit else |drains|
    ensures multiset(Kept(drains, limit)) <= multiset(drains) && Sorted(Kept(drains, limit))
  {
    var s, n := Sort(drains), Min(limit, |drains|);
    assert s == s[..n] + s[n..];
    assert multiset(s) == multiset(s[..n]) + multiset(s[n..]);
  }

  /** The binding x comes from drain d of application a. */
  predicate ComesFrom(x: Binding, a: AppView, d: string, parse: ParseUrl) {
    x.appId == a.appId && x.hostname == a.hostname && parse(d) == Some(x.drain)
  }

  /** Some application has the binding's drain among its smallest. */
  ghost predicate Returned(apps: seq<AppView>, limit: nat, parse: ParseUrl, x: Binding) {
    exists a, d ::
      a in apps && d in a.drains && CountLess(a.drains, d) < limit && ComesFrom(x, a, d, parse)
  }

  lemma {:induction false} ParsedExactly(
    appId: string, hostname: string, drains: seq<string>, parse: ParseUrl, x: Binding)
    ensures x in ParsedBindings(appId, hostname, drains, parse)
       <==> x.appId == appId && x.hostname == hostname && exists d :: d in drains && parse(d) == Some(x.drain)
    decreases |drains|
  {
    if drains != [] {
      var front, last := drains[..|drains| - 1], drains[|drains| - 1];
      ParsedExactly(appId, hostname, front, parse, x);
      assert drains == front + [last];
      if x.appId == appId && x.hostname == hostname && parse(last) == Some(x.drain) { assert last in drains; }
    }
  }

  /** When all drains parse, there is one binding for each, in order. */
  lemma {:induction false} ParsedInOrder(appId: string, hostname: string, drains: seq<string>, parse: ParseUrl)
    requires forall d | d in drains :: parse(d).Some?
    ensures |ParsedBindings(appId, hostname, drains, parse)| == |drains|
    ensures forall i | 0 <= i < |drains| ::
              ParsedBindings(appId, hostname, drains, parse)[i] == Binding(appId, hostname, parse(drains[i]).value)
    decreases |drains|
  {
    if drains != [] {
      ParsedInOrder(appId, hostname, drains[..|drains| - 1], parse);
    }
  }

  lemma {:induction false} ReturnedExactly(apps: seq<AppView>, limit: nat, parse: ParseUrl, x: Binding)
    ensures x in OfApps(apps, limit, parse) <==> Returned(apps, limit, parse, x)
  {
    hide Kept, ParsedBindings, CountLess;
    if x in OfApps(apps, limit, parse) {
      var i := OriginOf(apps, limit, parse, x);
      var a := apps[i];
      ParsedExactly(a.appId, a.hostname, Kept(a.drains, limit), parse, x);
      var d :| d in Kept(a.drains, limit) && parse(d) == Some(x.drain);
      KeptExactly(a.drains, limit, d);
      assert ComesFrom(x, a, d, parse);
    }
    if Returned(apps, limit, parse, x) {
      var a, d :| a in apps && d in a.drains && CountLess(a.drains, d) < limit && ComesFrom(x, a, d, parse);
      KeptExactly(a.drains, limit, d);
      ParsedExactly(a.appId, a.hostname, Kept(a.drains, limit), parse, x);
      var i :| 0 <= i < |apps| && apps[i] == a;
      FromOrigin(apps, limit, parse, x, i);
    }
  }

  // ----- what is kept does not depend on the order of arrival -----

  /** The kept drains are the smallest ones, with their repetitions. */
  lemma KeepsTheSmallest(drains: seq<string>, limit: nat, k: string, d: string)
    requires k in Kept(drains, limit)
    requires multiset(Kept(drains, limit))[d] < multiset(drains)[d]
    ensures multiset(Kept(drains, limit)) <= multiset(drains) && Leq(k, d)
  {
    var s, n := Sort(drains), Min(limit, |drains|);
    assert s == s[..n] + s[n..];
    assert multiset(s) == multiset(s[..n]) + multiset(s[n..]);
    assert d in multiset(s[n..]);
    var i :| 0 <= i < n && s[i] == k;
    var j :| 0 <= j < |s[n..]| && s[n..][j] == d;
    assert s[n + j] == d;
  }

  lemma KeptOfPermutation(p: seq<string>, q: seq<string>, limit: nat)
    requires multiset(p) == multiset(q)
    ensures Kept(p, limit) == Kept(q, limit)
  {
    SortedUnique(Sort(p), Sort(q));
    assert |p| == |multiset(p)| && |q| == |multiset(q)|;
  }

  ghost predicate SameApp(a: AppView, b: AppView) {
    a.appId == b.appId && a.hostname == b.hostname && multiset(a.drains) == multiset(b.drains)
  }

  ghost predicate Covered(p: seq<AppView>, q: seq<AppView>) {
    forall a | a in p :: exists b :: b in q && SameApp(a, b)
  }

  lemma {:induction false} OriginOf(apps: seq<AppView>, limit: nat, parse: ParseUrl, x: Binding) returns (i: nat)
    requires x in OfApps(apps, limit, parse)
    ensures i < |apps| && x in OfApp(apps[i], limit, parse)
    decreases |apps|
  {
    hide OfApp;
    var n := |apps| - 1;
    if x in OfApp(apps[n], limit, parse) {
      i := n;
    } else {
      i := OriginOf(apps[..n], limit, parse, x);
    }
  }

  lemma {:induction false} FromOrigin(apps: seq<AppView>, limit: nat, parse: ParseUrl, x: Binding, i: nat)
    requires i < |apps| && x in OfApp(apps[i], limit, parse)
    ensures x in OfApps(apps, limit, parse)
    decreases |apps|
  {
    hide OfApp;
    if i < |apps| - 1 {
      FromOrigin(apps[..|apps| - 1], limit, parse, x, i);
    }
  }

  lemma CoveredBindings(p: seq<AppView>, q: seq<AppView>, limit: nat, parse: ParseUrl, x: Binding)
    requires Covered(p, q) && x in OfApps(p, limit, parse)
    ensures x in OfApps(q, limit, parse)
  {
    var i := OriginOf(p, limit, parse, x);
    var a := p[i];
    assert a in p;
    var j :| 0 <= j < |q| && SameApp(a, q[j]);
    KeptOfPermutation(a.drains, q[j].drains, limit);
    FromOrigin(q, limit, parse, x, j);
  }

  /** The same applications with the same drains, in any order, give the same bindings. */
  lemma OrderDoesNotMatter(p: seq<AppView>, q: seq<AppView>, limit: nat, parse: ParseUrl)
    requires Covered(p, q) && Covered(q, p)
    ensures (set x | x in OfApps(p, limit, parse)) == (set x | x in OfApps(q, limit, parse))
  {
    forall x | x in OfApps(p, limit, parse) ensures x in OfApps(q, limit, parse) {
      CoveredBindings(p, q, limit, parse, x);
    }
    forall x | x in OfApps(q, limit, parse) ensures x in OfApps(p, limit, parse) {
      CoveredBindings(q, p, limit, parse, x);
    }
  }
}
