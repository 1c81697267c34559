/**
  Go strings.  A string is a sequence of bytes; each char stands for one byte,
  and the order is the bytewise one of Go's < and sort.Strings.
  */
module ByteStrings {
  predicate Less(a: string, b: string) {
    b != [] && (a == [] || a[0] < b[0] || (a[0] == b[0] && Less(a[1..], b[1..])))
  }

  predicate Leq(a: string, b: string) {
    a == b || Less(a, b)
  }

  /** The first i bytes agree, and a then ends or has the smaller byte. */
  predicate DiffersAt(a: string, b: string, i: nat)
    requires i <= |a| && i < |b|
  {
    a[..i] == b[..i] && (i == |a| || a[i] < b[i])
  }

  lemma {:induction false} LessDiffers(a: string, b: string) returns (i: nat)
    requires Less(a, b)
    ensures i <= |a| && i < |b| && DiffersAt(a, b, i)
  {
    if a == [] || a[0] < b[0] {
      i := 0;
    } else {
      i := LessDiffers(a[1..], b[1..]);
      assert a[..i + 1] == [a[0]] + a[1..][..i] && b[..i + 1] == [b[0]] + b[1..][..i];
      i := i + 1;
    }
  }

  lemma {:induction false} DiffersLess(a: string, b: string, i: nat)
    requires i <= |a| && i < |b| && DiffersAt(a, b, i)
    ensures Less(a, b)
  {
    if i > 0 {
      assert a[0] == a[..i][0] == b[..i][0] == b[0];
      assert a[1..][..i - 1] == a[..i][1..] && b[1..][..i - 1] == b[..i][1..];
      DiffersLess(a[1..], b[1..], i - 1);
    }
  }

  /** The order is decided by the first byte that differs, or by the length. */
  lemma LessExactly(a: string, b: string)
    ensures Less(a, b) <==> exists i :: 0 <= i <= |a| && i < |b| && DiffersAt(a, b, i)
  {
    hide Less, DiffersAt;
    if Less(a, b) {
      var i := LessDiffers(a, b);
    } else if i :| 0 <= i <= |a| && i < |b| && DiffersAt(a, b, i) {
      DiffersLess(a, b, i);
    }
  }

  lemma {:induction false} LessTransitive(a: string, b: string, c: string)
    requires Less(a, b) && Less(b, c)
    ensures Less(a, c)
  {
    if a != [] && a[0] == b[0] && b[0] == c[0] {
      LessTransitive(a[1..], b[1..], c[1..]);
    }
  }

  lemma {:induction false} Trichotomy(a: string, b: string)
    ensures Less(a, b) || a == b || Less(b, a)
    ensures !(Less(a, b) && Less(b, a)) && !Less(a, a)
  {
    if a != [] && b != [] {
      Trichotomy(a[1..], b[1..]);
      Trichotomy(a[1..], a[1..]);
      if a[0] == b[0] && a[1..] == b[1..] { assert a == [a[0]] + a[1..] && b == [b[0]] + b[1..]; }
    } else if a != [] {
      Trichotomy(a[1..], a[1..]);
    }
  }

  lemma LeqTransitive(a: string, b: string, c: string)
    requires Leq(a, b) && Leq(b, c)
    ensures Leq(a, c)
  {
    if a != b && b != c { LessTransitive(a, b, c); }
  }

  ghost predicate Sorted(s: seq<string>) {
    forall i, j | 0 <= i < j < |s| :: Leq(s[i], s[j])
  }

  function Insert(x: string, s: seq<string>): (r: seq<string>)
    requires Sorted(s)
    ensures Sorted(r) && multiset(r) == multiset(s) + multiset{x}
  {
    if s == [] then [x]
    else if Leq(x, s[0]) then
      BeforeAll(x, s);
      [x] + s
    else
      var t := Insert(x, s[1..]);
      AfterFirst(x, s, t);
      [s[0]] + t
  }

  lemma BeforeAll(x: string, s: seq<string>)
    requires Sorted(s) && s != [] && Leq(x, s[0])
    ensures Sorted([x] + s)
  {
    hide Leq;
    forall j | 0 <= j < |s| ensures Leq(x, s[j]) {
      if j > 0 { LeqTransitive(x, s[0], s[j]); }
    }
  }

  lemma AfterFirst(x: string, s: seq<string>, t: seq<string>)
    requires s != [] && Sorted(s) && Sorted(t) && !Leq(x, s[0]) && multiset(t) == multiset(s[1..]) + multiset{x}
    ensures Sorted([s[0]] + t) && multiset([s[0]] + t) == multiset(s) + multiset{x}
  {
    assert s == [s[0]] + s[1..];
    Trichotomy(x, s[0]);
    assert Leq(s[0], x);
    hide Leq;
    forall j | 0 <= j < |t| ensures Leq(s[0], t[j]) {
      assert t[j] in multiset(t);
      assert t[j] in multiset(s[1..]) || t[j] == x;
    }
  }

  /** sort.Strings, as a function of its argument. */
  function Sort(s: seq<string>): (r: seq<string>)
    ensures Sorted(r) && multiset(r) == multiset(s) && |r| == |s|
  {
    if s == [] then [] else
      assert s == [s[0]] + s[1..];
      var r := Insert(s[0], Sort(s[1..]));
      assert multiset(r) == multiset(s);
      assert |multiset(r)| == |r| && |multiset(s)| == |s|;
      r
  }

  lemma SortedHead(a: seq<string>, b: seq<string>)
    requires a != [] && b != [] && Sorted(a) && Sorted(b) && multiset(a) == multiset(b)
    ensures a[0] == b[0]
  {
    assert a[0] in multiset(b) && b[0] in multiset(a);
    var i :| 0 <= i < |b| && b[i] == a[0];
    var j :| 0 <= j < |a| && a[j] == b[0];
    assert Leq(a[0], b[0]) && Leq(b[0], a[0]);
    Trichotomy(a[0], b[0]);
  }

  lemma SortedTail(a: seq<string>)
    requires a != []
    ensures multiset(a[1..]) == multiset(a) - multiset{a[0]}
    ensures Sorted(a) ==> Sorted(a[1..])
  {
    assert a == [a[0]] + a[1..];
  }

  /** A multiset of strings has one sorted arrangement. */
  lemma {:induction false} SortedUnique(a: seq<string>, b: seq<string>)
    requires Sorted(a) && Sorted(b) && multiset(a) == multiset(b)
    ensures a == b
    decreases |a|
  {
    assert |a| == |multiset(a)| && |b| == |multiset(b)|;
    if a != [] {
      SortedHead(a, b);
      SortedTail(a);
      SortedTail(b);
      SortedUnique(a[1..], b[1..]);
      assert a == [a[0]] + a[1..] && b == [b[0]] + b[1..];
    }
  }

  // ----- searching -----

  /** strings.IndexByte, with the length of s for a byte that does not occur. */
  function IndexOf(s: string, c: char): (n: nat)
    ensures n <= |s|
    ensures n < |s| ==> s[n] == c
    ensures forall i | 0 <= i < n :: s[i] != c
  {
    if s == "" || s[0] == c then 0 else 1 + IndexOf(s[1..], c)
  }

  lemma {:induction false} IndexOfUnique(s: string, c: char, n: nat)
    requires n < |s| && s[n] == c && forall i | 0 <= i < n :: s[i] != c
    ensures IndexOf(s, c) == n
  {
    var m := IndexOf(s, c);
    assert m < |s| ==> s[m] == c;
  }
}
