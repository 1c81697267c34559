/** The canonical key under which both aggregators file a counter's tags. */
module TagHash {
  import opened ByteStrings

  const DIGEST_LENGTH: nat := 40

  type Tags = map<string, string>
  type Digest = string -> string

  datatype MapElement = MapElement(k: string, v: string)

  // ----- the canonical arrangement of a map -----

  lemma MinExists(ks: set<string>) returns (k: string)
    requires ks != {}
    ensures k in ks && forall j | j in ks :: Leq(k, j)
  {
    k :| k in ks;
    if ks != {k} {
      var m := MinExists(ks - {k});
      assert forall j | j in ks :: j == k || j in ks - {k};
      Trichotomy(k, m);
      if Leq(k, m) {
        forall j | j in ks ensures Leq(k, j) { if j != k { LeqTransitive(k, m, j); } }
      } else {
        k := m;
      }
    }
  }

  ghost predicate Increasing(r: seq<string>) {
    forall i, j | 0 <= i < j < |r| :: Less(r[i], r[j])
  }

  ghost predicate SameMembers(r: seq<string>, ks: set<string>) {
    (forall k | k in ks :: k in r) && (forall k | k in r :: k in ks)
  }

  lemma PrependLeast(ks: set<string>, k: string, r: seq<string>)
    requires k in ks && forall j | j in ks :: Leq(k, j)
    requires Increasing(r) && SameMembers(r, ks - {k})
    ensures Increasing([k] + r) && SameMembers([k] + r, ks)
  {
    forall i | 0 <= i < |r| ensures Less(k, r[i]) {
      assert r[i] in ks - {k};
    }
    forall j | j in ks ensures j in [k] + r { assert j != k ==> j in ks - {k}; }
  }

  /** The keys of a map in increasing order. */
  ghost function SortedKeys(ks: set<string>): (r: seq<string>)
    ensures Increasing(r) && SameMembers(r, ks)
  {
    if ks == {} then [] else
      assert exists k :: k in ks && forall j | j in ks :: Leq(k, j) by { var m := MinExists(ks); }
      var k :| k in ks && forall j | j in ks :: Leq(k, j);
      var r := SortedKeys(ks - {k});
      PrependLeast(ks, k, r);
      [k] + r
  }

  function DigestAll(ks: seq<string>, tags: Tags, digest: Digest): string
    requires forall i | 0 <= i < |ks| :: ks[i] in tags
  {
    if ks == [] then "" else digest(ks[0]) + digest(tags[ks[0]]) + DigestAll(ks[1..], tags, digest)
  }

  /** The hash as a function of the tag map alone. */
  ghost function HashOf(tags: Tags, digest: Digest): string {
    DigestAll(SortedKeys(tags.Keys), tags, digest)
  }

  // ----- hashTags -----

  function Keys(es: seq<MapElement>): (r: seq<string>)
    ensures |r| == |es|
  {
    seq(|es|, i requires 0 <= i < |es| => es[i].k)
  }

  ghost predicate ByKey(es: seq<MapElement>) {
    forall i, j | 0 <= i < j < |es| :: Leq(es[i].k, es[j].k)
  }

  /** Everything in `after` has a greater key than e, and e goes after everything in `before`. */
  lemma InsertKeepsByKey(before: seq<MapElement>, e: MapElement, after: seq<MapElement>)
    requires ByKey(before + after)
    requires before != [] ==> Leq(before[|before| - 1].k, e.k)
    requires forall j | 0 <= j < |after| :: Less(e.k, after[j].k)
    ensures ByKey(before + [e] + after)
  {
    var old_, r := before + after, before + [e] + after;
    forall i, j | 0 <= i < j < |r| ensures Leq(r[i].k, r[j].k) {
      var n := |before|;
      if j < n {
        assert Leq(old_[i].k, old_[j].k);
      } else if j == n {
        assert i < n - 1 ==> Leq(old_[i].k, old_[n - 1].k);
        if i < n - 1 { LeqTransitive(r[i].k, before[n - 1].k, e.k); }
      } else if i < n {
        assert Leq(old_[i].k, old_[j - 1].k);
      } else if i > n {
        assert Leq(old_[i - 1].k, old_[j - 1].k);
      }
    }
  }

  /** sort.Sort(byKey(elements)): some permutation whose keys do not decrease. */
  method SortByKey(es: seq<MapElement>) returns (r: seq<MapElement>)
    ensures multiset(r) == multiset(es) && ByKey(r)
  {
    r := [];
    for n := 0 to |es|
      invariant multiset(r) == multiset(es[..n]) && ByKey(r)
    {
      r := InsertByKey(es[n], r);
      assert es[..n + 1] == es[..n] + [es[n]];
    }
    assert es[..|es|] == es;
  }

  method InsertByKey(e: MapElement, r: seq<MapElement>) returns (s: seq<MapElement>)
    requires ByKey(r)
    ensures multiset(s) == multiset(r) + multiset{e} && ByKey(s)
  {
    var at := |r|;
    while at > 0 && Less(e.k, r[at - 1].k)
      invariant 0 <= at <= |r|
      invariant forall j | at <= j < |r| :: Less(e.k, r[j].k)
    {
      at := at - 1;
    }
    assert r == r[..at] + r[at..];
    if at > 0 { Trichotomy(e.k, r[at - 1].k); }
    InsertKeepsByKey(r[..at], e, r[at..]);
    s := r[..at] + [e] + r[at..];
  }

  /** Two strictly increasing sequences with the same elements are equal. */
  lemma {:induction false} IncreasingUnique(a: seq<string>, b: seq<string>)
    requires Increasing(a) && Increasing(b)
    requires forall k :: k in a <==> k in b
    ensures a == b
    decreases |a|
  {
    assert b != [] ==> b[0] in a;
    if a != [] {
      assert a[0] in b && b != [] && b[0] in a;
      var i :| 0 <= i < |b| && b[i] == a[0];
      var j :| 0 <= j < |a| && a[j] == b[0];
      Trichotomy(a[0], b[0]);
      Trichotomy(a[0], a[0]);
      forall k ensures k in a[1..] <==> k in b[1..] {
        assert k in a <==> k == a[0] || k in a[1..];
        assert k in b <==> k == b[0] || k in b[1..];
        Trichotomy(k, k);
      }
      IncreasingUnique(a[1..], b[1..]);
    }
  }

  /** Exactly one element for every entry of the map. */
  ghost predicate Lists(es: seq<MapElement>, tags: Tags, todo: set<string>) {
    && todo <= tags.Keys
    && (forall e | e in es :: e.k in tags && e.k !in todo && tags[e.k] == e.v)
    && (forall k | k in tags && k !in todo :: MapElement(k, tags[k]) in es)
    && (forall i, j | 0 <= i < j < |es| :: es[i].k != es[j].k)
  }

  lemma SameElements(a: seq<MapElement>, b: seq<MapElement>)
    requires multiset(a) == multiset(b)
    ensures forall e :: e in a <==> e in b
  {
    forall e ensures e in a <==> e in b {
      assert e in a <==> e in multiset(a);
      assert e in b <==> e in multiset(b);
    }
  }

  lemma DistinctKeys(es: seq<MapElement>, e: MapElement)
    requires forall i, j | 0 <= i < j < |es| :: es[i].k != es[j].k
    ensures multiset(es)[e] <= 1
    decreases |es|
  {
    if es != [] {
      assert es == [es[0]] + es[1..];
      DistinctKeys(es[1..], e);
    }
  }

  lemma RepeatedElement(es: seq<MapElement>, i: nat, j: nat)
    requires i < j < |es| && es[i] == es[j]
    ensures multiset(es)[es[i]] >= 2
  {
    assert es == es[..j] + [es[j]] + es[j + 1..];
    assert es[i] in es[..j];
  }

  /** A sorted permutation of a listing enumerates the sorted keys. */
  lemma SortedListing(es: seq<MapElement>, r: seq<MapElement>, tags: Tags)
    requires Lists(es, tags, {}) && multiset(r) == multiset(es) && ByKey(r)
    ensures Keys(r) == SortedKeys(tags.Keys)
    ensures forall i | 0 <= i < |r| :: r[i].k in tags && r[i].v == tags[r[i].k]
  {
    SameElements(es, r);
    forall i | 0 <= i < |r| ensures r[i].k in tags && r[i].v == tags[r[i].k] { assert r[i] in es; }
    var ks := Keys(r);
    forall i, j | 0 <= i < j < |ks| ensures Less(ks[i], ks[j]) {
      if r[i].k == r[j].k {
        RepeatedElement(r, i, j);
        DistinctKeys(es, r[i]);
      }
    }
    forall k ensures k in ks <==> k in tags.Keys {
      if k in tags {
        assert MapElement(k, tags[k]) in r;
        var i :| 0 <= i < |r| && r[i] == MapElement(k, tags[k]);
        assert ks[i] == k;
      }
    }
    IncreasingUnique(ks, SortedKeys(tags.Keys));
  }

  method ListElements(tags: Tags) returns (elements: seq<MapElement>)
    ensures Lists(elements, tags, {})
  {
    elements := [];
    var todo := tags.Keys;
    while todo != {}
      invariant Lists(elements, tags, todo)
      decreases todo
    {
      var k :| k in todo;
      ListOneMore(elements, tags, todo, k);
      elements := elements + [MapElement(k, tags[k])];
      todo := todo - {k};
    }
  }

  lemma ListOneMore(es: seq<MapElement>, tags: Tags, todo: set<string>, k: string)
    requires Lists(es, tags, todo) && k in todo
    ensures Lists(es + [MapElement(k, tags[k])], tags, todo - {k})
  {
    var more := es + [MapElement(k, tags[k])];
    forall i, j | 0 <= i < j < |more| ensures more[i].k != more[j].k {
      if j == |es| { assert es[i] in es; }
    }
    forall j | j in tags && j !in todo - {k} ensures MapElement(j, tags[j]) in more {
      if j == k { assert more[|es|] == MapElement(k, tags[k]); } else { assert MapElement(j, tags[j]) in es; }
    }
  }

  lemma DigestNext(ks: seq<string>, n: nat, tags: Tags, digest: Digest)
    requires n < |ks| && forall i | 0 <= i < |ks| :: ks[i] in tags
    ensures DigestAll(ks[n..], tags, digest)
         == (digest(ks[n]) + digest(tags[ks[n]])) + DigestAll(ks[n + 1..], tags, digest)
  {
    assert ks[n..][1..] == ks[n + 1..];
  }

  method DigestElements(es: seq<MapElement>, ghost tags: Tags, digest: Digest) returns (hash: string)
    requires forall i | 0 <= i < |es| :: es[i].k in tags && es[i].v == tags[es[i].k]
    ensures hash == DigestAll(Keys(es), tags, digest)
  {
    ghost var ks := Keys(es);
    hash := "";
    for n := 0 to |es|
      invariant hash + DigestAll(ks[n..], tags, digest) == DigestAll(ks, tags, digest)
    {
      DigestNext(ks, n, tags, digest);
      var part := digest(es[n].k) + digest(es[n].v);
      ghost var rest := DigestAll(ks[n + 1..], tags, digest);
      assert hash + (part + rest) == (hash + part) + rest;
      hash := hash + part;
    }
  }

  /** hashTags: whatever order the map is ranged over, the result depends on the map alone. */
  method HashTags(tags: Tags, digest: Digest) returns (hash: string)
    ensures hash == HashOf(tags, digest)
  {
    var elements := ListElements(tags);
    var sorted := SortByKey(elements);
    SortedListing(elements, sorted, tags);
    hash := DigestElements(sorted, tags, digest);
  }

  // ----- the hash identifies the map -----

  ghost function Words(tags: Tags): set<string> {
    tags.Keys + tags.Values
  }

  /** On these words the digest has its fixed length and no collision. */
  ghost predicate GoodDigest(digest: Digest, words: set<string>) {
    && (forall x | x in words :: |digest(x)| == DIGEST_LENGTH)
    && (forall x, y | x in words && y in words && digest(x) == digest(y) :: x == y)
  }

  lemma {:induction false} DigestLength(ks: seq<string>, tags: Tags, digest: Digest)
    requires forall k | k in ks :: k in tags
    requires forall x | x in Words(tags) :: |digest(x)| == DIGEST_LENGTH
    ensures |DigestAll(ks, tags, digest)| == 2 * DIGEST_LENGTH * |ks|
  {
    if ks != [] {
      assert tags[ks[0]] in tags.Values;
      DigestLength(ks[1..], tags, digest);
    }
  }

  lemma SplitEqual(a: string, b: string, c: string, x: string, y: string, z: string)
    requires |a| == |x| && |b| == |y| && a + b + c == x + y + z
    ensures a == x && b == y && c == z
  {
    var l, r := a + b + c, x + y + z;
    assert l[..|a|] == a && r[..|a|] == x;
    assert l[|a|..|a| + |b|] == b && r[|a|..|a| + |b|] == y;
    assert l[|a| + |b|..] == c && r[|a| + |b|..] == z;
  }

  lemma SameWord(digest: Digest, words: set<string>, x: string, y: string)
    requires GoodDigest(digest, words) && x in words && y in words
    ensures |digest(x)| == |digest(y)| && (digest(x) == digest(y) ==> x == y)
  {
  }

  lemma FirstPairEqual(a: seq<string>, s: Tags, b: seq<string>, t: Tags, digest: Digest)
    requires a != [] && b != [] && (forall k | k in a :: k in s) && (forall k | k in b :: k in t)
    requires GoodDigest(digest, Words(s) + Words(t))
    requires DigestAll(a, s, digest) == DigestAll(b, t, digest)
    ensures a[0] == b[0] && s[a[0]] == t[b[0]]
    ensures DigestAll(a[1..], s, digest) == DigestAll(b[1..], t, digest)
  {
    var u, v := s[a[0]], t[b[0]];
    assert u in s.Values && v in t.Values;
    assert DigestAll(a, s, digest) == digest(a[0]) + digest(u) + DigestAll(a[1..], s, digest);
    assert DigestAll(b, t, digest) == digest(b[0]) + digest(v) + DigestAll(b[1..], t, digest);
    SameWord(digest, Words(s) + Words(t), a[0], b[0]);
    SameWord(digest, Words(s) + Words(t), u, v);
    hide DigestAll, GoodDigest, Words;
    SplitEqual(digest(a[0]), digest(u), DigestAll(a[1..], s, digest),
               digest(b[0]), digest(v), DigestAll(b[1..], t, digest));
  }

  lemma {:induction false} DigestAllInjective(
    a: seq<string>, s: Tags, b: seq<string>, t: Tags, digest: Digest)
    requires forall k | k in a :: k in s
    requires forall k | k in b :: k in t
    requires GoodDigest(digest, Words(s) + Words(t))
    requires DigestAll(a, s, digest) == DigestAll(b, t, digest)
    ensures a == b && forall k | k in a :: s[k] == t[k]
    decreases |a|
  {
    DigestLength(a, s, digest);
    DigestLength(b, t, digest);
    hide DigestAll, GoodDigest, Words;
    if a != [] {
      FirstPairEqual(a, s, b, t, digest);
      DigestAllInjective(a[1..], s, b[1..], t, digest);
      assert a == [a[0]] + a[1..] && b == [b[0]] + b[1..];
    }
  }

  /** Forty characters for the key and forty for the value, for every key in increasing order. */
  lemma {:induction false} HashLayout(ks: seq<string>, tags: Tags, digest: Digest, i: nat)
    requires i < |ks| && forall k | k in ks :: k in tags
    requires forall x | x in Words(tags) :: |digest(x)| == DIGEST_LENGTH
    ensures |DigestAll(ks, tags, digest)| == 80 * |ks|
    ensures DigestAll(ks, tags, digest)[80 * i..80 * i + 40] == digest(ks[i])
    ensures DigestAll(ks, tags, digest)[80 * i + 40..80 * i + 80] == digest(tags[ks[i]])
    decreases |ks|
  {
    DigestLength(ks, tags, digest);
    DigestLength(ks[1..], tags, digest);
    assert tags[ks[0]] in tags.Values;
    var all, rest := DigestAll(ks, tags, digest), DigestAll(ks[1..], tags, digest);
    assert all == digest(ks[0]) + digest(tags[ks[0]]) + rest;
    hide DigestAll;
    TakeApart(all, digest(ks[0]), digest(tags[ks[0]]), rest);
    if i > 0 {
      HashLayout(ks[1..], tags, digest, i - 1);
      SliceShift(all, rest, 80 * (i - 1), 80 * (i - 1) + 40);
      SliceShift(all, rest, 80 * (i - 1) + 40, 80 * (i - 1) + 80);
    }
  }

  lemma TakeApart(all: string, k: string, v: string, rest: string)
    requires all == k + v + rest && |k| == |v| == 40
    ensures all[..40] == k && all[40..80] == v && all[80..] == rest
  {
  }

  lemma SliceShift(all: string, rest: string, lo: nat, hi: nat)
    requires |all| >= 80 && all[80..] == rest && lo <= hi <= |rest|
    ensures all[80 + lo..80 + hi] == rest[lo..hi]
  {
  }

  /** The hash of a map is laid out over its keys in increasing order, each once. */
  lemma HashIsLaidOut(tags: Tags, digest: Digest) returns (ks: seq<string>)
    requires forall x | x in Words(tags) :: |digest(x)| == DIGEST_LENGTH
    ensures (forall i, j | 0 <= i < j < |ks| :: Less(ks[i], ks[j])) && forall k :: k in ks <==> k in tags
    ensures |HashOf(tags, digest)| == 80 * |ks|
    ensures forall i: nat | i < |ks| ::
              && HashOf(tags, digest)[80 * i..80 * i + 40] == digest(ks[i])
              && HashOf(tags, digest)[80 * i + 40..80 * i + 80] == digest(tags[ks[i]])
  {
    hide DigestAll, Words;
    ks := SortedKeys(tags.Keys);
    DigestLength(ks, tags, digest);
    forall i: nat | i < |ks|
      ensures HashOf(tags, digest)[80 * i..80 * i + 40] == digest(ks[i])
      ensures HashOf(tags, digest)[80 * i + 40..80 * i + 80] == digest(tags[ks[i]])
    {
      HashLayout(ks, tags, digest, i);
    }
  }

  /** With a digest that does not collide on their words, equal hashes mean equal tag maps. */
  lemma HashIsCanonical(s: Tags, t: Tags, digest: Digest)
    requires GoodDigest(digest, Words(s) + Words(t))
    ensures HashOf(s, digest) == HashOf(t, digest) <==> s == t
  {
    if HashOf(s, digest) == HashOf(t, digest) {
      var a, b := SortedKeys(s.Keys), SortedKeys(t.Keys);
      DigestAllInjective(a, s, b, t, digest);
      forall k ensures k in s.Keys <==> k in t.Keys {
        assert k in s.Keys <==> k in a;
        assert k in t.Keys <==> k in b;
      }
      assert s.Keys == t.Keys;
      forall k | k in s.Keys ensures s[k] == t[k] { assert k in a; }
    }
  }
}
