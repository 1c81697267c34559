/**
  The state of the syslog drain manager as a value: the elementary changes its
  operations are made of, what each of them keeps, and how the two-level map of
  the source represents it.
  */
module DrainState {
  import opened Wrappers
  import opened BindingFetcher

  /** A holder's context is numbered in the order of creation; its writer may not be connected yet. */
  datatype Holder = Holder(ctx: nat, writer: Option<nat>)

  type Holders = map<Binding, Holder>

  /**
    `cancels[c]` counts the calls of the cancel function of context c, for
    every context ever created; `resets` counts the holders without a writer
    that idle sweeps have replaced.
    */
  datatype State = State(
    holders: Holders, access: map<string, int>, activeCount: int, cancels: seq<nat>, resets: nat)

  const Empty := State(map[], map[], 0, [], 0)

  function Connected(holders: Holders): set<Binding> {
    set b | b in holders && holders[b].writer.Some?
  }

  ghost predicate LiveIn(holders: Holders, c: nat) {
    exists b :: b in holders && holders[b].ctx == c
  }

  /** Every context is either live in exactly one holder or cancelled exactly once. */
  ghost predicate Conserved(holders: Holders, cancels: seq<nat>) {
    && (forall b | b in holders :: holders[b].ctx < |cancels| && cancels[holders[b].ctx] == 0)
    && (forall b, d | b in holders && d in holders && b != d :: holders[b].ctx != holders[d].ctx)
    && (forall c: nat | c < |cancels| :: cancels[c] == 1 || (cancels[c] == 0 && LiveIn(holders, c)))
  }

  /** A connected drain's source has an access time. */
  ghost predicate WritersAccessed(s: State) {
    forall b | b in s.holders && s.holders[b].writer.Some? :: b.appId in s.access
  }

  ghost predicate Good(s: State) {
    && Conserved(s.holders, s.cancels)
    && WritersAccessed(s)
    && s.activeCount == |Connected(s.holders)| - s.resets
  }

  // ----- elementary changes -----

  function Cancel(cancels: seq<nat>, c: nat): seq<nat>
    requires c < |cancels|
  {
    cancels[c := cancels[c] + 1]
  }

  /** A new holder with a new context. */
  function Add(s: State, b: Binding): State {
    s.(holders := s.holders[b := Holder(|s.cancels|, None)], cancels := s.cancels + [0])
  }

  /** removeDrain. */
  function Remove(s: State, b: Binding): State
    requires b in s.holders && s.holders[b].ctx < |s.cancels|
  {
    s.(holders := s.holders - {b},
       activeCount := if s.holders[b].writer.Some? then s.activeCount - 1 else s.activeCount,
       cancels := Cancel(s.cancels, s.holders[b].ctx))
  }

  /** A successful Connect. */
  function Connect(s: State, b: Binding, writer: nat): State
    requires b in s.holders
  {
    s.(holders := s.holders[b := Holder(s.holders[b].ctx, Some(writer))], activeCount := s.activeCount + 1)
  }

  /** An idle sweep reaching one holder. */
  function Reset(s: State, b: Binding): State
    requires b in s.holders && s.holders[b].ctx < |s.cancels|
  {
    s.(holders := s.holders[b := Holder(|s.cancels|, None)],
       activeCount := s.activeCount - 1,
       cancels := Cancel(s.cancels, s.holders[b].ctx) + [0],
       resets := s.resets + if s.holders[b].writer.None? then 1 else 0)
  }

  function Touch(s: State, source: string, now: int): State {
    s.(access := s.access[source := now])
  }

  function Forget(s: State, source: string): State {
    s.(access := s.access - {source})
  }

  // ----- what they keep -----

  lemma CreateConserves(holders: Holders, cancels: seq<nat>, b: Binding)
    requires Conserved(holders, cancels) && b !in holders
    ensures Conserved(holders[b := Holder(|cancels|, None)], cancels + [0])
  {
    var l, k := holders[b := Holder(|cancels|, None)], cancels + [0];
    forall c: nat | c < |k| ensures k[c] == 1 || (k[c] == 0 && LiveIn(l, c)) {
      if c == |cancels| {
        assert b in l && l[b].ctx == c;
      } else if k[c] == 0 {
        var d :| d in holders && holders[d].ctx == c;
        assert d in l && l[d].ctx == c;
      }
    }
  }

  lemma CancelConserves(holders: Holders, cancels: seq<nat>, b: Binding)
    requires Conserved(holders, cancels) && b in holders
    ensures Conserved(holders - {b}, Cancel(cancels, holders[b].ctx))
  {
    var l, k := holders - {b}, Cancel(cancels, holders[b].ctx);
    forall c: nat | c < |k| ensures k[c] == 1 || (k[c] == 0 && LiveIn(l, c)) {
      if k[c] == 0 {
        var d :| d in holders && holders[d].ctx == c;
        assert d in l && l[d].ctx == c;
      }
    }
  }

  lemma AddKeepsGood(s: State, b: Binding)
    requires Good(s) && b !in s.holders
    ensures Good(Add(s, b))
  {
    CreateConserves(s.holders, s.cancels, b);
    assert Connected(Add(s, b).holders) == Connected(s.holders);
  }

  lemma RemoveKeepsGood(s: State, b: Binding)
    requires Good(s) && b in s.holders
    ensures Good(Remove(s, b))
  {
    CancelConserves(s.holders, s.cancels, b);
    assert Connected(Remove(s, b).holders) == Connected(s.holders) - {b};
  }

  lemma ConnectKeepsGood(s: State, b: Binding, writer: nat)
    requires Good(s) && b in s.holders && s.holders[b].writer.None? && b.appId in s.access
    ensures Good(Connect(s, b, writer))
  {
    ConnectConserves(s.holders, s.cancels, b, writer);
    OneMoreConnected(s.holders, b, writer);
    hide Conserved, Connected;
  }

  lemma OneMoreConnected(holders: Holders, b: Binding, writer: nat)
    requires b in holders && holders[b].writer.None?
    ensures |Connected(holders[b := Holder(holders[b].ctx, Some(writer))])| == |Connected(holders)| + 1
  {
    assert Connected(holders[b := Holder(holders[b].ctx, Some(writer))]) == Connected(holders) + {b};
  }

  lemma ConnectConserves(holders: Holders, cancels: seq<nat>, b: Binding, writer: nat)
    requires Conserved(holders, cancels) && b in holders
    ensures Conserved(holders[b := Holder(holders[b].ctx, Some(writer))], cancels)
  {
    var l := holders[b := Holder(holders[b].ctx, Some(writer))];
    forall c: nat | c < |cancels| && cancels[c] == 0 ensures LiveIn(l, c) {
      var d :| d in holders && holders[d].ctx == c;
      assert d in l && l[d].ctx == c;
    }
  }

  lemma ResetConserves(holders: Holders, cancels: seq<nat>, b: Binding)
    requires Conserved(holders, cancels) && b in holders
    ensures Conserved(holders[b := Holder(|cancels|, None)], Cancel(cancels, holders[b].ctx) + [0])
  {
    CancelConserves(holders, cancels, b);
    CreateConserves(holders - {b}, Cancel(cancels, holders[b].ctx), b);
    assert (holders - {b})[b := Holder(|cancels|, None)] == holders[b := Holder(|cancels|, None)];
  }

  lemma ResetKeepsGood(s: State, b: Binding)
    requires Good(s) && b in s.holders
    ensures Good(Reset(s, b))
  {
    ResetConserves(s.holders, s.cancels, b);
    assert Connected(Reset(s, b).holders) == Connected(s.holders) - {b};
  }

  lemma TouchKeepsGood(s: State, source: string, now: int)
    requires Good(s)
    ensures Good(Touch(s, source, now))
  {
  }

  lemma ForgetKeepsGood(s: State, source: string)
    requires Good(s) && forall b | b in s.holders && s.holders[b].writer.Some? :: b.appId != source
    ensures Good(Forget(s, source))
  {
  }

  lemma EmptyIsGood()
    ensures Good(Empty)
  {
    assert Connected(Empty.holders) == {};
  }

  // ----- the two-level map -----

  type DrainMap = map<string, Holders>

  /** An inner map is not empty and is keyed by bindings of its own application. */
  ghost predicate KeyedBy(inner: Holders, source: string) {
    inner != map[] && forall b | b in inner :: b.appId == source
  }

  ghost predicate Keyed(m: DrainMap) {
    forall source | source in m :: KeyedBy(m[source], source)
  }

  function Inner(m: DrainMap, source: string): Holders {
    if source in m then m[source] else map[]
  }

  /** The holders of one source. */
  function Of(holders: Holders, source: string): Holders {
    map b | b in holders && b.appId == source :: holders[b]
  }

  /** Each source's inner map holds its part of the holders; an absent source has none. */
  ghost predicate Represents(m: DrainMap, holders: Holders) {
    Keyed(m) && forall source :: Inner(m, source) == Of(holders, source)
  }

  lemma PutRepresents(m: DrainMap, holders: Holders, b: Binding, h: Holder)
    requires Represents(m, holders)
    ensures Represents(m[b.appId := Inner(m, b.appId)[b := h]], holders[b := h])
  {
    var inner := Inner(m, b.appId)[b := h];
    var n := m[b.appId := inner];
    forall source | source in n ensures KeyedBy(n[source], source) {
      if source == b.appId {
        assert b in inner;
        assert Inner(m, source) == Of(holders, source);
      } else {
        assert KeyedBy(m[source], source);
      }
    }
    forall source ensures Inner(n, source) == Of(holders[b := h], source) {
      assert Inner(m, source) == Of(holders, source);
      if source == b.appId {
        assert Of(holders[b := h], source) == Of(holders, source)[b := h];
      } else {
        assert Of(holders[b := h], source) == Of(holders, source);
      }
    }
  }

  function RemoveFrom(m: DrainMap, b: Binding): DrainMap
    requires b.appId in m
  {
    var inner := m[b.appId] - {b};
    if inner == map[] then m - {b.appId} else m[b.appId := inner]
  }

  lemma InnerHas(m: DrainMap, holders: Holders, b: Binding)
    requires Represents(m, holders) && b in holders
    ensures b.appId in m && b in m[b.appId] && m[b.appId][b] == holders[b]
  {
    assert Inner(m, b.appId) == Of(holders, b.appId);
    assert b in Of(holders, b.appId);
  }

  lemma HasInner(m: DrainMap, holders: Holders, b: Binding)
    requires Represents(m, holders) && b.appId in m && b in m[b.appId]
    ensures b in holders
  {
    assert Inner(m, b.appId) == Of(holders, b.appId);
  }

  lemma RemoveRepresents(m: DrainMap, holders: Holders, b: Binding)
    requires Represents(m, holders) && b in holders
    ensures b.appId in m && Represents(RemoveFrom(m, b), holders - {b})
  {
    InnerHas(m, holders, b);
    var n, inner := RemoveFrom(m, b), m[b.appId] - {b};
    forall source | source in n ensures KeyedBy(n[source], source) {
      assert KeyedBy(m[source], source);
      if source == b.appId { assert n[source] == inner; } else { assert n[source] == m[source]; }
    }
    forall source ensures Inner(n, source) == Of(holders - {b}, source) {
      assert Inner(m, source) == Of(holders, source);
      if source == b.appId {
        assert Of(holders - {b}, source) == Of(holders, source) - {b};
      } else {
        assert Of(holders - {b}, source) == Of(holders, source);
      }
    }
  }

  /** A state has one representation. */
  lemma RepresentationUnique(m: DrainMap, n: DrainMap, holders: Holders)
    requires Represents(m, holders) && Represents(n, holders)
    ensures m == n
  {
    forall source ensures (source in m <==> source in n) && (source in m ==> m[source] == n[source]) {
      assert Inner(m, source) == Of(holders, source) == Inner(n, source);
      assert source in m ==> KeyedBy(m[source], source);
      assert source in n ==> KeyedBy(n[source], source);
    }
  }
}
