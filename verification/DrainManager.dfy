/**
  The syslog drain manager.  Every public operation holds the mutex, so a run
  is a sequence of the three operations below; each is specified by a relation
  between the state before and after it, and keeps the state good.
  */
module DrainManager {
  import opened Wrappers
  import opened BindingFetcher
  import opened DrainState

  // ----- the operations as relations -----

  /** A holder with a context that did not exist before, and no writer. */
  ghost predicate FreshHolder(s: State, t: State, b: Binding) {
    b in t.holders && t.holders[b].ctx >= |s.cancels| && t.holders[b].writer.None?
  }

  ghost predicate CancelledSince(s: State, t: State, b: Binding) {
    && b in s.holders && s.holders[b].ctx < |s.cancels| && |s.cancels| <= |t.cancels|
    && s.cancels[s.holders[b].ctx] == 0 && t.cancels[s.holders[b].ctx] == 1
  }

  /** Context c belonged to none of the holders in `gone`. */
  ghost predicate Unrelated(s: State, gone: set<Binding>, c: nat) {
    forall b | b in gone && b in s.holders :: s.holders[b].ctx != c
  }

  /** The holders in `gone` and `made` apart, s and t have the same ones. */
  ghost predicate HoldersChange(s: State, t: State, gone: set<Binding>, made: set<Binding>) {
    && gone <= s.holders.Keys && made !! (s.holders.Keys - gone)
    && t.holders.Keys == (s.holders.Keys - gone) + made
    && (forall b | b in s.holders && b !in gone :: t.holders[b] == s.holders[b])
    && (forall b | b in made :: FreshHolder(s, t, b))
  }

  /** The contexts of `gone` have been cancelled, one is new for each of `made`, and no other has changed. */
  ghost predicate ContextsChange(s: State, t: State, gone: set<Binding>, made: set<Binding>) {
    && |t.cancels| == |s.cancels| + |made|
    && (forall b | b in gone :: CancelledSince(s, t, b))
    && (forall c: nat | c < |s.cancels| && Unrelated(s, gone, c) :: t.cancels[c] == s.cancels[c])
  }

  ghost predicate Changed(s: State, t: State, gone: set<Binding>, made: set<Binding>) {
    HoldersChange(s, t, gone, made) && ContextsChange(s, t, gone, made)
  }

  /**
    updateDrains: the bindings become exactly bs; those that stay keep their
    holder, the contexts of those that go are cancelled, and one context is
    created for each that comes.
    */
  ghost predicate Updated(s: State, t: State, bs: set<Binding>) {
    && t.holders.Keys == bs
    && Changed(s, t, s.holders.Keys - bs, bs - s.holders.Keys)
    && t.access == s.access && t.resets == s.resets
  }

  ghost function Without(s: State, bs: set<Binding>): set<Binding> {
    set b | b in bs && b in s.holders && s.holders[b].writer.None?
  }

  /** A sweep replaces the holders in `swept` by new ones and cancels their contexts. */
  ghost predicate Swept(s: State, t: State, swept: set<Binding>) {
    Changed(s, t, swept, swept) && t.resets == s.resets + |Without(s, swept)|
  }

  /** Holders in `tried` without a writer may have been connected; nothing else has changed. */
  ghost predicate Tried(s: State, t: State, tried: set<Binding>) {
    && t.holders.Keys == s.holders.Keys
    && (forall b | b in s.holders && b !in tried :: t.holders[b] == s.holders[b])
    && (forall b | b in s.holders && b in tried ::
          t.holders[b].ctx == s.holders[b].ctx && (s.holders[b].writer.Some? ==> t.holders[b] == s.holders[b]))
    && t.cancels == s.cancels && t.access == s.access && t.resets == s.resets
  }

  predicate Expired(s: State, source: string, cutoff: int) {
    source in s.access && s.access[source] < cutoff
  }

  function OfExpired(s: State, cutoff: int): set<Binding> {
    set b | b in s.holders && Expired(s, b.appId, cutoff)
  }

  function OfSource(holders: Holders, source: string): set<Binding> {
    set b | b in holders && b.appId == source
  }

  /** idleCleanup: the expired sources are swept and forgotten. */
  ghost predicate Cleaned(s: State, t: State, cutoff: int) {
    && Swept(s, t, OfExpired(s, cutoff))
    && t.access == map source | source in s.access && s.access[source] >= cutoff :: s.access[source]
  }

  /** GetDrains: the access is recorded and the source's drains may have been connected. */
  ghost predicate Got(s: State, t: State, source: string, now: int) {
    Tried(Touch(s, source, now), t, OfSource(s.holders, source))
  }

  // ----- runs -----

  datatype Operation = Get(source: string, now: int) | Update(bindings: set<Binding>) | Clean(cutoff: int)

  ghost predicate Step(s: State, op: Operation, t: State) {
    && Good(t)
    && match op
       case Get(source, now) => Got(s, t, source, now)
       case Update(bs) => Updated(s, t, bs)
       case Clean(cutoff) => Cleaned(s, t, cutoff)
  }

  /** The states of a new manager under any sequence of operations. */
  ghost predicate IsRun(states: seq<State>, ops: seq<Operation>) {
    && |states| == |ops| + 1 && states[0] == Empty
    && forall i | 0 <= i < |ops| :: Step(states[i], ops[i], states[i + 1])
  }

  function OfSources(holders: Holders, sources: set<string>): set<Binding> {
    set b | b in holders && b.appId in sources
  }

  /** One call of Connect: the context it was given, and the writer unless it failed. */
  datatype Attempt = Attempt(ctx: nat, writer: Option<nat>)

  /** Connect has been called once for every holder in `tried` that had no writer, and its result kept. */
  ghost predicate Asked(s: State, t: State, asked: seq<Attempt>, tried: set<Binding>) {
    && |asked| == |Without(s, tried)|
    && forall b | b in Without(s, tried) :: b in t.holders && Attempt(s.holders[b].ctx, t.holders[b].writer) in asked
  }

  // ----- each elementary change extends its relation -----

  function Created(t: State, b: Binding): State {
    t.(holders := t.holders[b := Holder(|t.cancels|, None)], cancels := t.cancels + [0])
  }

  function Cancelled(t: State, b: Binding): State
    requires b in t.holders && t.holders[b].ctx < |t.cancels|
  {
    t.(holders := t.holders - {b}, cancels := Cancel(t.cancels, t.holders[b].ctx))
  }

  lemma CreateHolders(s: State, t: State, gone: set<Binding>, made: set<Binding>, b: Binding)
    requires HoldersChange(s, t, gone, made) && b !in t.holders && |t.cancels| >= |s.cancels|
    ensures HoldersChange(s, Created(t, b), gone, made + {b}) && b !in made
  {
    var u := Created(t, b);
    forall d | d in made + {b} ensures FreshHolder(s, u, d) {
      assert d != b ==> FreshHolder(s, t, d);
    }
  }

  lemma CreateContexts(s: State, t: State, gone: set<Binding>, made: set<Binding>, b: Binding)
    requires ContextsChange(s, t, gone, made) && b !in made
    ensures ContextsChange(s, Created(t, b), gone, made + {b})
  {
    var u := Created(t, b);
    forall d | d in gone ensures CancelledSince(s, u, d) {
      assert CancelledSince(s, t, d);
    }
  }

  lemma CreateExtends(s: State, t: State, gone: set<Binding>, made: set<Binding>, b: Binding)
    requires Changed(s, t, gone, made) && b !in t.holders
    ensures Changed(s, Created(t, b), gone, made + {b})
  {
    CreateHolders(s, t, gone, made, b);
    CreateContexts(s, t, gone, made, b);
  }

  lemma CancelHolders(s: State, t: State, gone: set<Binding>, made: set<Binding>, b: Binding)
    requires HoldersChange(s, t, gone, made) && b in t.holders && b !in made && t.holders[b].ctx < |t.cancels|
    ensures HoldersChange(s, Cancelled(t, b), gone + {b}, made) && b in s.holders && b !in gone
  {
    var u := Cancelled(t, b);
    forall d | d in made ensures FreshHolder(s, u, d) {
      assert FreshHolder(s, t, d);
    }
  }

  lemma LiveContext(s: State, b: Binding)
    requires Good(s) && b in s.holders
    ensures s.holders[b].ctx < |s.cancels| && s.cancels[s.holders[b].ctx] == 0
  {
  }

  lemma CancelContexts(s: State, t: State, gone: set<Binding>, made: set<Binding>, b: Binding)
    requires ContextsChange(s, t, gone, made) && b in s.holders && b in t.holders && t.holders[b] == s.holders[b]
    requires s.holders[b].ctx < |s.cancels| && s.cancels[s.holders[b].ctx] == 0 && t.cancels[s.holders[b].ctx] == 0
    ensures ContextsChange(s, Cancelled(t, b), gone + {b}, made)
  {
    var u := Cancelled(t, b);
    forall d | d in gone + {b} ensures CancelledSince(s, u, d) {
      assert d != b ==> CancelledSince(s, t, d);
    }
    forall c: nat | c < |s.cancels| && Unrelated(s, gone + {b}, c) ensures u.cancels[c] == s.cancels[c] {
      assert Unrelated(s, gone, c);
    }
  }

  lemma CancelExtends(s: State, t: State, gone: set<Binding>, made: set<Binding>, b: Binding)
    requires Good(s) && Good(t) && Changed(s, t, gone, made) && b in t.holders && b !in made
    ensures t.holders[b].ctx < |t.cancels| && Changed(s, Cancelled(t, b), gone + {b}, made)
    ensures b in s.holders && b !in gone && t.holders[b] == s.holders[b]
  {
    LiveContext(t, b);
    CancelHolders(s, t, gone, made, b);
    assert t.holders[b] == s.holders[b];
    LiveContext(s, b);
    CancelContexts(s, t, gone, made, b);
  }

  lemma ConnectExtends(s: State, t: State, tried: set<Binding>, b: Binding, w: nat)
    requires Tried(s, t, tried) && b in t.holders && t.holders[b].writer.None?
    ensures Tried(s, Connect(t, b, w), tried + {b})
  {
  }

  /** Replacing a holder is cancelling it and creating another. */
  lemma ResetExtends(s: State, t: State, swept: set<Binding>, b: Binding)
    requires Good(s) && Good(t) && Swept(s, t, swept) && b in t.holders && b !in swept
    ensures t.holders[b].ctx < |t.cancels| && Swept(s, Reset(t, b), swept + {b})
  {
    hide Conserved, HoldersChange, ContextsChange, Without;
    CancelExtends(s, t, swept, swept, b);
    var u := Cancelled(t, b);
    CreateExtends(s, u, swept + {b}, swept, b);
    assert Created(u, b).holders == Reset(t, b).holders && Created(u, b).cancels == Reset(t, b).cancels;
    SameChanges(s, Created(u, b), Reset(t, b), swept + {b}, swept + {b});
    WithoutMore(s, swept, b);
  }

  lemma WithoutMore(s: State, swept: set<Binding>, b: Binding)
    requires b in s.holders && b !in swept
    ensures |Without(s, swept + {b})| == |Without(s, swept)| + if s.holders[b].writer.None? then 1 else 0
  {
    assert Without(s, swept + {b}) == Without(s, swept) + if s.holders[b].writer.None? then {b} else {};
  }

  class Manager {
    const idleTimeout: int
    var sourceDrainMap: DrainMap
    var sourceAccessTimes: map<string, int>
    var activeDrainCount: int
    /** How often each context has been cancelled. */
    var cancels: seq<nat>
    /** The holders of sourceDrainMap in one map, and the sweeps' resets of holders without a writer. */
    ghost var holders: Holders
    ghost var resets: nat
    /** The calls of Connect so far. */
    ghost var connects: seq<Attempt>

    ghost function State(): State
      reads this
    {
      DrainState.State(holders, sourceAccessTimes, activeDrainCount, cancels, resets)
    }

    ghost predicate Valid()
      reads this
    {
      Represents(sourceDrainMap, holders) && Good(State())
    }

    constructor (idleTimeout: int)
      ensures Valid() && State() == Empty && this.idleTimeout == idleTimeout
    {
      this.idleTimeout := idleTimeout;
      sourceDrainMap, sourceAccessTimes, activeDrainCount, cancels := map[], map[], 0, [];
      holders, resets, connects := map[], 0, [];
      new;
      EmptyIsGood();
      NothingRepresented();
    }

    method NewDrainHolder() returns (h: Holder)
      modifies this`cancels
      ensures h == Holder(|old(cancels)|, None) && cancels == old(cancels) + [0]
    {
      h := Holder(|cancels|, None);
      cancels := cancels + [0];
    }

    method CancelContext(h: Holder)
      requires h.ctx < |cancels|
      modifies this`cancels
      ensures cancels == Cancel(old(cancels), h.ctx)
    {
      cancels := cancels[h.ctx := cancels[h.ctx] + 1];
    }

    /** m.sourceDrainMap[b.AppId][b] = h, for a source that may be new. */
    method PutHolder(b: Binding, h: Holder)
      requires Represents(sourceDrainMap, holders)
      modifies this`sourceDrainMap, this`holders
      ensures Represents(sourceDrainMap, holders) && holders == old(holders)[b := h]
    {
      PutRepresents(sourceDrainMap, holders, b, h);
      var inner := if b.appId in sourceDrainMap then sourceDrainMap[b.appId] else map[];
      sourceDrainMap := sourceDrainMap[b.appId := inner[b := h]];
      holders := holders[b := h];
    }

    method GetHolder(source: string, b: Binding) returns (h: Holder)
      requires Represents(sourceDrainMap, holders) && b in holders && b.appId == source
      ensures h == holders[b]
    {
      InnerHas(sourceDrainMap, holders, b);
      h := sourceDrainMap[source][b];
    }

    /** delete, on the inner map and, once that is empty, on the outer one. */
    method DeleteHolder(source: string, b: Binding)
      requires Represents(sourceDrainMap, holders) && b in holders && b.appId == source
      modifies this`sourceDrainMap, this`holders
      ensures Represents(sourceDrainMap, holders) && holders == old(holders) - {b}
    {
      RemoveRepresents(sourceDrainMap, holders, b);
      var inner := sourceDrainMap[source] - {b};
      if inner == map[] {
        sourceDrainMap := sourceDrainMap - {b.appId};
      } else {
        sourceDrainMap := sourceDrainMap[source := inner];
      }
      holders := holders - {b};
    }

    /** The bindings of a source, as ranging over its inner map meets them. */
    method BindingsOf(source: string) returns (bs: set<Binding>)
      requires Represents(sourceDrainMap, holders)
      ensures bs == OfSource(holders, source)
    {
      bs := if source in sourceDrainMap then sourceDrainMap[source].Keys else {};
      assert Inner(sourceDrainMap, source) == Of(holders, source);
    }

    /** The sources with at least one binding. */
    method Sources() returns (sources: set<string>)
      requires Represents(sourceDrainMap, holders)
      ensures forall b | b in holders :: b.appId in sources
    {
      sources := sourceDrainMap.Keys;
      forall b | b in holders ensures b.appId in sources {
        InnerHas(sourceDrainMap, holders, b);
      }
    }

    method HasBinding(b: Binding) returns (ok: bool)
      requires Represents(sourceDrainMap, holders)
      ensures ok <==> b in holders
    {
      ok := b.appId in sourceDrainMap && b in sourceDrainMap[b.appId];
      if ok { HasInner(sourceDrainMap, holders, b); }
      if b in holders { InnerHas(sourceDrainMap, holders, b); }
    }

    /** connector.Connect: only ever called with a context that is still live. */
    method ConnectDrain(h: Holder, b: Binding) returns (writer: Option<nat>)
      requires h.ctx < |cancels| && cancels[h.ctx] == 0
      modifies this`connects
      ensures connects == old(connects) + [Attempt(h.ctx, writer)]
    {
      writer := None;
      var ok: bool := *;
      if ok {
        var w: nat :| true;
        writer := Some(w);
      }
      connects := connects + [Attempt(h.ctx, writer)];
    }

    /** The loop body of GetDrains: the writer of b's holder, connected if need be. */
    method WriterOf(b: Binding) returns (writer: Option<nat>)
      requires Valid() && b in holders && b.appId in sourceAccessTimes
      modifies this
      ensures Valid() && b in holders && holders[b].writer == writer
      ensures old(holders)[b].writer.Some? ==> State() == old(State()) && connects == old(connects)
      ensures old(holders)[b].writer.None? ==>
                && connects == old(connects) + [Attempt(old(holders)[b].ctx, writer)]
                && State() == if writer.Some? then Connect(old(State()), b, writer.value) else old(State())
    {
      hide Good, Represents;
      var dh := GetHolder(b.appId, b);
      writer := dh.writer;
      if writer.None? {
        LiveContext(State(), b);
        writer := ConnectDrain(dh, b);
        if writer.Some? {
          ConnectKeepsGood(State(), b, writer.value);
          PutHolder(b, dh.(writer := writer));
          activeDrainCount := activeDrainCount + 1;
        }
      }
    }

    /** The loop of GetDrains. */
    method WritersOf(source: string) returns (drains: seq<nat>, ghost served: seq<Binding>)
      requires Valid() && source in sourceAccessTimes
      modifies this
      ensures Valid() && Tried(old(State()), State(), OfSource(old(holders), source))
      ensures sourceAccessTimes == old(sourceAccessTimes)
      ensures Serves(State(), served, drains, OfSource(old(holders), source))
      ensures old(connects) <= connects && AllLive(connects[|old(connects)|..], cancels)
      ensures Asked(old(State()), State(), connects[|old(connects)|..], OfSource(old(holders), source))
    {
      hide Asked, Connect, Good, Represents, Serves, Tried, Without, AllLive;
      ghost var start := State();
      drains, served := [], [];
      NothingTried(start);
      NothingAsked(start, start, connects, cancels);
      ghost var tried: set<Binding> := {};
      var todo := BindingsOf(source);
      while todo != {}
        invariant Valid() && Tried(start, State(), tried) && sourceAccessTimes == start.access
        invariant tried + todo == OfSource(start.holders, source) && tried !! todo
        invariant Serves(State(), served, drains, tried)
        invariant old(connects) <= connects && AllLive(connects[|old(connects)|..], cancels)
        invariant Asked(start, State(), connects[|old(connects)|..], tried)
        decreases todo
      {
        var b :| b in todo;
        todo := todo - {b};
        ghost var before, asked := State(), connects;
        UntriedIsSame(start, before, tried, b);
        LiveContext(before, b);
        var writer := WriterOf(b);
        OnlyOneTouched(before, State(), b, writer);
        TriedNext(start, before, State(), tried, b);
        ServesNext(before, State(), served, drains, tried, b, writer);
        StillLive(asked, connects, |old(connects)|, cancels, Attempt(before.holders[b].ctx, writer));
        AskedNext(start, before, State(), asked, connects, |old(connects)|, tried, b);
        if writer.Some? {
          drains := drains + [writer.value];
          served := served + [b];
        }
        tried := tried + {b};
      }
    }

    /**
      GetDrains records the access, connects what is not connected, and returns
      one writer for each connected drain of the source.
      */
    method GetDrains(sourceId: string, now: int) returns (drains: seq<nat>, ghost served: seq<Binding>)
      requires Valid()
      modifies this
      ensures Valid()
      ensures Step(old(State()), Get(sourceId, now), State())
      ensures sourceAccessTimes == old(sourceAccessTimes)[sourceId := now]
      ensures Serves(State(), served, drains, OfSource(old(holders), sourceId))
      ensures forall w ::
                w in drains <==> exists b :: b in holders && b.appId == sourceId && holders[b].writer == Some(w)
      ensures |drains| == |set b | b in holders && b.appId == sourceId && holders[b].writer.Some?|
      ensures old(connects) <= connects && AllLive(connects[|old(connects)|..], cancels)
      ensures Asked(old(State()), State(), connects[|old(connects)|..], OfSource(old(holders), sourceId))
    {
      hide Good, Represents, Serves, Tried, AllLive;
      ghost var start := State();
      TouchKeepsGood(State(), sourceId, now);
      sourceAccessTimes := sourceAccessTimes[sourceId := now];
      assert forall bs :: Without(State(), bs) == Without(old(State()), bs);
      drains, served := WritersOf(sourceId);
      SameBindings(Touch(start, sourceId, now), State(), sourceId);
      ServesExactly(State(), served, drains, sourceId);
    }

    /** removeDrain, called with the inner map of the binding's own source. */
    method RemoveDrain(source: string, b: Binding)
      requires Valid() && b in holders && b.appId == source
      modifies this
      ensures Valid() && connects == old(connects)
      ensures old(holders)[b].ctx < |old(cancels)| && State() == Remove(old(State()), b)
    {
      hide Good, Represents;
      LiveContext(State(), b);
      RemoveKeepsGood(State(), b);
      var active := false;
      var dh := GetHolder(source, b);
      if dh.writer.Some? {
        active := true;
      }
      CancelContext(dh);
      DeleteHolder(source, b);
      if active {
        activeDrainCount := activeDrainCount - 1;
      }
    }

    /** The inner loop of updateDrains: drop the stale bindings of one source. */
    method RemoveStale(source: string, newBindings: set<Binding>,
                       ghost start: State, ghost gone0: set<Binding>, ghost made: set<Binding>)
      returns (ghost gone: set<Binding>)
      requires Valid() && Good(start) && Changed(start, State(), gone0, made)
      requires gone0 !! newBindings && made <= newBindings
      modifies this
      ensures Valid() && Changed(start, State(), gone, made) && gone !! newBindings && gone0 <= gone
      ensures OfSource(holders, source) <= newBindings && holders.Keys <= old(holders).Keys
      ensures sourceAccessTimes == old(sourceAccessTimes) && resets == old(resets) && connects == old(connects)
    {
      hide HoldersChange, ContextsChange, Good, Represents, Serves, Tried, Without, AllLive;
      gone := gone0;
      var todo := BindingsOf(source);
      while todo != {}
        invariant Valid() && Changed(start, State(), gone, made) && gone !! newBindings && gone0 <= gone
        invariant todo <= OfSource(holders, source) <= todo + newBindings && holders.Keys <= old(holders).Keys
        invariant sourceAccessTimes == old(sourceAccessTimes) && resets == old(resets) && connects == old(connects)
        decreases todo
      {
        var b :| b in todo;
        todo := todo - {b};
        if b in newBindings {
          continue;
        }
        ghost var before := State();
        CancelExtends(start, before, gone, made, b);
        RemoveDrain(source, b);
        SameChanges(start, Cancelled(before, b), State(), gone + {b}, made);
        OneLess(before.holders, source, b);
        gone := gone + {b};
      }
    }

    /** The first loop of updateDrains. */
    method AddNew(bindings: seq<Binding>) returns (newBindings: set<Binding>)
      requires Valid()
      modifies this
      ensures Valid() && newBindings == Elements(bindings)
      ensures Changed(old(State()), State(), {}, newBindings - old(holders).Keys)
      ensures sourceAccessTimes == old(sourceAccessTimes) && resets == old(resets) && connects == old(connects)
    {
      hide HoldersChange, ContextsChange, Good, Represents, Serves, Tried, Without, AllLive;
      ghost var start := State();
      newBindings := {};
      NothingChanged(start);
      assert {} - start.holders.Keys == {};
      for i := 0 to |bindings|
        invariant newBindings == Elements(bindings[..i])
        invariant Valid() && Changed(start, State(), {}, newBindings - start.holders.Keys)
        invariant sourceAccessTimes == old(sourceAccessTimes) && resets == old(resets) && connects == old(connects)
      {
        var b := bindings[i];
        ElementsNext(bindings, i);
        ghost var before, made := State(), newBindings - start.holders.Keys;
        newBindings := newBindings + {b};
        var known := HasBinding(b);
        NewOrKnown(start, before, made, newBindings, b);
        if known {
          continue;
        }
        CreateExtends(start, before, {}, made, b);
        AddKeepsGood(before, b);
        var h := NewDrainHolder();
        PutHolder(b, h);
      }
      assert bindings[..|bindings|] == bindings;
    }

    /** updateDrains. */
    method UpdateDrains(bindings: seq<Binding>)
      requires Valid()
      modifies this
      ensures Valid() && Step(old(State()), Update(Elements(bindings)), State())
      ensures connects == old(connects)
    {
      hide HoldersChange, ContextsChange, Good, Represents, Serves, Tried, Without, AllLive;
      ghost var start := State();
      var newBindings := AddNew(bindings);
      ghost var made := newBindings - start.holders.Keys;
      ghost var gone: set<Binding> := {};
      var sources := Sources();
      while sources != {}
        invariant Valid() && Changed(start, State(), gone, made) && gone !! newBindings
        invariant forall b | b in holders && b !in newBindings :: b.appId in sources
        invariant sourceAccessTimes == old(sourceAccessTimes) && resets == old(resets) && connects == old(connects)
        decreases sources
      {
        var source :| source in sources;
        gone := RemoveStale(source, newBindings, start, gone, made);
        assert forall b | b in holders && b.appId == source :: b in OfSource(holders, source);
        sources := sources - {source};
      }
      AllStaleGone(start, State(), newBindings, gone);
    }

    /** One step of a sweep: the holder is cancelled and replaced. */
    method ResetDrain(source: string, b: Binding)
      requires Valid() && b in holders && b.appId == source
      modifies this
      ensures Valid() && connects == old(connects)
      ensures old(holders)[b].ctx < |old(cancels)| && State() == Reset(old(State()), b)
    {
      hide Good, Represents;
      LiveContext(State(), b);
      ResetKeepsGood(State(), b);
      var dh := GetHolder(source, b);
      CancelContext(dh);
      var h := NewDrainHolder();
      PutHolder(b, h);
      resets := resets + if dh.writer.None? then 1 else 0;
      activeDrainCount := activeDrainCount - 1;
    }

    /** The sweep of one expired source. */
    method SweepSource(source: string, ghost start: State, ghost swept0: set<Binding>)
      requires Valid() && Good(start) && Swept(start, State(), swept0) && swept0 !! OfSource(start.holders, source)
      modifies this
      ensures Valid() && Swept(start, State(), swept0 + OfSource(start.holders, source))
      ensures sourceAccessTimes == old(sourceAccessTimes) && connects == old(connects)
    {
      hide HoldersChange, ContextsChange, Good, Represents, Serves, Tried, Without, AllLive;
      ghost var done: set<Binding> := {};
      var todo := BindingsOf(source);
      SweptKeys(start, State(), swept0);
      assert todo == OfSource(start.holders, source);
      assert swept0 + done == swept0;
      while todo != {}
        invariant done + todo == OfSource(start.holders, source) && done !! todo && swept0 !! todo
        invariant Valid() && Swept(start, State(), swept0 + done)
        invariant sourceAccessTimes == old(sourceAccessTimes) && connects == old(connects)
        decreases todo
      {
        var b :| b in todo;
        todo := todo - {b};
        SweptKeys(start, State(), swept0 + done);
        ResetExtends(start, State(), swept0 + done, b);
        assert swept0 + done + {b} == swept0 + (done + {b});
        ResetDrain(source, b);
        done := done + {b};
      }
      assert done == OfSource(start.holders, source);
    }

    /**
      idleCleanup at time `now`: exactly the sources last accessed before
      now - idleTimeout are swept and forgotten, and afterwards no connected
      drain belongs to such a source.
      */
    method IdleCleanup(now: int)
      requires Valid()
      modifies this
      ensures Valid()
      ensures Step(old(State()), Clean(now - idleTimeout), State())
      ensures var access := old(sourceAccessTimes);
              sourceAccessTimes == map s | s in access && access[s] >= now - idleTimeout :: access[s]
      ensures forall b | b in Connected(holders) ::
                b.appId in sourceAccessTimes && sourceAccessTimes[b.appId] >= now - idleTimeout
      ensures connects == old(connects)
    {
      hide HoldersChange, ContextsChange, Good, Represents, Serves, Tried, Without, AllLive;
      ghost var start := State();
      var cutoff := now - idleTimeout;
      ghost var expired: set<string> := {};
      var todo := sourceAccessTimes.Keys;
      NothingSwept(start);
      while todo != {}
        invariant todo <= start.access.Keys && expired !! todo
        invariant Valid() && Swept(start, State(), OfSources(start.holders, expired))
        invariant forall s :: s in expired <==> s in start.access && s !in todo && start.access[s] < cutoff
        invariant sourceAccessTimes == start.access - expired
        invariant connects == old(connects)
        decreases todo
      {
        var source :| source in todo;
        todo := todo - {source};
        if sourceAccessTimes[source] < cutoff {
          OneMoreSource(start.holders, expired, source);
          SweepSource(source, start, OfSources(start.holders, expired));
          SweptUnconnected(start, State(), OfSources(start.holders, expired + {source}), source);
          ForgetSource(source, start, OfSources(start.holders, expired + {source}));
          expired := expired + {source};
        }
      }
      ExpiredAreSwept(start, expired, cutoff);
      ConnectedAreRecent(State(), cutoff);
    }

    method ForgetSource(source: string, ghost start: State, ghost swept: set<Binding>)
      requires Valid() && Swept(start, State(), swept)
      requires forall b | b in holders && holders[b].writer.Some? :: b.appId != source
      modifies this`sourceAccessTimes
      ensures Valid() && Swept(start, State(), swept)
      ensures sourceAccessTimes == old(sourceAccessTimes) - {source}
    {
      hide HoldersChange, ContextsChange, Good, Represents, Without;
      ForgetKeepsGood(State(), source);
      ghost var before := State();
      sourceAccessTimes := sourceAccessTimes - {source};
      SameChanges(start, before, State(), swept, swept);
    }
  }

  // ----- bookkeeping of the loops -----

  ghost predicate AllLive(attempts: seq<Attempt>, cancels: seq<nat>) {
    forall a | a in attempts :: a.ctx < |cancels| && cancels[a.ctx] == 0
  }

  lemma NothingAsked(s: State, t: State, connects: seq<Attempt>, cancels: seq<nat>)
    ensures AllLive(connects[|connects|..], cancels) && Asked(s, t, connects[|connects|..], {})
  {
    assert Without(s, {}) == {};
  }

  lemma StillLive(before: seq<Attempt>, after: seq<Attempt>, n: nat, cancels: seq<nat>, a: Attempt)
    requires n <= |before| && AllLive(before[n..], cancels) && a.ctx < |cancels| && cancels[a.ctx] == 0
    requires after == before || after == before + [a]
    ensures AllLive(after[n..], cancels)
  {
    if after != before { assert after[n..] == before[n..] + [a]; }
  }

  lemma AskedNext(s: State, t: State, u: State, before: seq<Attempt>, after: seq<Attempt>, n: nat,
                  tried: set<Binding>, b: Binding)
    requires n <= |before| && Asked(s, t, before[n..], tried) && b !in tried
    requires b in s.holders && b in t.holders && s.holders[b] == t.holders[b] && b in u.holders
    requires forall d | d in t.holders && d != b :: d in u.holders && u.holders[d] == t.holders[d]
    requires after == if s.holders[b].writer.Some? then before
                      else before + [Attempt(s.holders[b].ctx, u.holders[b].writer)]
    ensures Asked(s, u, after[n..], tried + {b})
  {
    WithoutMore(s, tried, b);
    var asked := after[n..];
    if s.holders[b].writer.None? {
      assert asked == before[n..] + [Attempt(s.holders[b].ctx, u.holders[b].writer)];
    }
    forall d | d in Without(s, tried + {b})
      ensures d in u.holders && Attempt(s.holders[d].ctx, u.holders[d].writer) in asked
    {
      if d == b {
        assert asked[|asked| - 1] == Attempt(s.holders[b].ctx, u.holders[b].writer);
      } else {
        assert d in Without(s, tried);
        assert Attempt(s.holders[d].ctx, t.holders[d].writer) in before[n..];
      }
    }
  }

  function Elements(bs: seq<Binding>): set<Binding> {
    set b | b in bs
  }

  lemma ElementsNext(bs: seq<Binding>, i: nat)
    requires i < |bs|
    ensures Elements(bs[..i + 1]) == Elements(bs[..i]) + {bs[i]}
  {
    assert bs[..i + 1] == bs[..i] + [bs[i]];
  }

  lemma NothingRepresented()
    ensures Represents(map[], map[])
  {
    forall source ensures Inner(map[], source) == Of(map[], source) {
      assert Of(map[], source) == map[];
    }
  }

  lemma NothingChanged(s: State)
    ensures Changed(s, s, {}, {})
  {
  }

  lemma NothingSwept(s: State)
    ensures Swept(s, s, OfSources(s.holders, {}))
  {
    NothingChanged(s);
    assert OfSources(s.holders, {}) == {};
    assert Without(s, {}) == {};
  }

  lemma SameChanges(s: State, t: State, u: State, gone: set<Binding>, made: set<Binding>)
    requires Changed(s, t, gone, made) && t.holders == u.holders && t.cancels == u.cancels
    ensures Changed(s, u, gone, made)
  {
    forall b | b in made ensures FreshHolder(s, u, b) { assert FreshHolder(s, t, b); }
    forall b | b in gone ensures CancelledSince(s, u, b) { assert CancelledSince(s, t, b); }
  }

  lemma NewOrKnown(s: State, t: State, made: set<Binding>, newBindings: set<Binding>, b: Binding)
    requires HoldersChange(s, t, {}, made) && b in newBindings
    requires made == newBindings - {b} - s.holders.Keys || made == newBindings - s.holders.Keys
    ensures newBindings - s.holders.Keys == if b in t.holders then made else made + {b}
  {
    assert t.holders.Keys == s.holders.Keys + made;
  }

  lemma OneLess(holders: Holders, source: string, b: Binding)
    ensures OfSource(holders - {b}, source) == OfSource(holders, source) - {b}
  {
  }

  /** Once no stale binding is left, exactly the stale ones have gone. */
  lemma AllStaleGone(s: State, t: State, bs: set<Binding>, gone: set<Binding>)
    requires Changed(s, t, gone, bs - s.holders.Keys) && gone !! bs && t.access == s.access && t.resets == s.resets
    requires forall b | b in t.holders :: b in bs
    ensures Updated(s, t, bs)
  {
    assert gone == s.holders.Keys - bs;
    assert t.holders.Keys == bs;
  }

  lemma SweptKeys(s: State, t: State, swept: set<Binding>)
    requires Swept(s, t, swept)
    ensures t.holders.Keys == s.holders.Keys
  {
  }

  lemma OneMoreSource(holders: Holders, sources: set<string>, source: string)
    ensures OfSources(holders, sources + {source}) == OfSources(holders, sources) + OfSource(holders, source)
    ensures source !in sources ==> OfSources(holders, sources) !! OfSource(holders, source)
  {
  }

  lemma SweptUnconnected(s: State, t: State, swept: set<Binding>, source: string)
    requires Swept(s, t, swept) && OfSource(s.holders, source) <= swept
    ensures forall b | b in t.holders && t.holders[b].writer.Some? :: b.appId != source
  {
    SweptKeys(s, t, swept);
    forall b | b in t.holders && b.appId == source ensures t.holders[b].writer.None? {
      assert b in OfSource(s.holders, source);
      assert FreshHolder(s, t, b);
    }
  }

  lemma ExpiredAreSwept(s: State, expired: set<string>, cutoff: int)
    requires forall source :: source in expired <==> source in s.access && s.access[source] < cutoff
    ensures OfSources(s.holders, expired) == OfExpired(s, cutoff)
  {
  }

  lemma ConnectedAreRecent(s: State, cutoff: int)
    requires Good(s) && forall source | source in s.access :: s.access[source] >= cutoff
    ensures forall b | b in Connected(s.holders) :: b.appId in s.access && s.access[b.appId] >= cutoff
  {
  }

  /** `served` lists the connected bindings among `among`, with their writers. */
  ghost predicate Serves(s: State, served: seq<Binding>, drains: seq<nat>, among: set<Binding>) {
    && |drains| == |served|
    && (forall i, j | 0 <= i < j < |served| :: served[i] != served[j])
    && (forall i | 0 <= i < |served| ::
          served[i] in among && served[i] in s.holders && s.holders[served[i]].writer == Some(drains[i]))
    && (forall b | b in among && b in s.holders && s.holders[b].writer.Some? :: b in served)
  }

  lemma NothingTried(s: State)
    ensures Tried(s, s, {}) && Serves(s, [], [], {})
  {
  }

  lemma SameBindings(s: State, t: State, source: string)
    requires Tried(s, t, OfSource(s.holders, source))
    ensures OfSource(t.holders, source) == OfSource(s.holders, source)
  {
  }

  /** What is served is the writers of the source's connected drains, one for each. */
  lemma ServesExactly(s: State, served: seq<Binding>, drains: seq<nat>, source: string)
    requires Serves(s, served, drains, OfSource(s.holders, source))
    ensures forall w ::
              w in drains <==> exists b :: b in s.holders && b.appId == source && s.holders[b].writer == Some(w)
    ensures |drains| == |set b | b in s.holders && b.appId == source && s.holders[b].writer.Some?|
  {
    var connected := set b | b in s.holders && b.appId == source && s.holders[b].writer.Some?;
    forall w
      ensures w in drains <==> exists b :: b in s.holders && b.appId == source && s.holders[b].writer == Some(w)
    {
      if w in drains {
        var i :| 0 <= i < |drains| && drains[i] == w;
        assert served[i] in s.holders;
      }
      if b :| b in s.holders && b.appId == source && s.holders[b].writer == Some(w) {
        assert b in OfSource(s.holders, source) && b in served;
        var i :| 0 <= i < |served| && served[i] == b;
        assert drains[i] == w;
      }
    }
    forall b ensures b in served <==> b in connected {
      if b in connected { assert b in OfSource(s.holders, source); }
    }
    CountDistinct(served, connected);
  }

  lemma {:induction false} CountDistinct(bs: seq<Binding>, all: set<Binding>)
    requires forall i, j | 0 <= i < j < |bs| :: bs[i] != bs[j]
    requires forall b :: b in bs <==> b in all
    ensures |bs| == |all|
    decreases |bs|
  {
    if bs == [] {
      assert all == {};
    } else {
      var front, last := bs[..|bs| - 1], bs[|bs| - 1];
      forall b ensures b in front <==> b in all - {last} { assert b in bs <==> b in front || b == last; }
      CountDistinct(front, all - {last});
    }
  }

  lemma UntriedIsSame(s: State, t: State, tried: set<Binding>, b: Binding)
    requires Tried(s, t, tried) && b in s.holders && b !in tried
    ensures b in t.holders && t.holders[b] == s.holders[b]
  {
  }

  lemma OnlyOneTouched(s: State, t: State, b: Binding, writer: Option<nat>)
    requires b in s.holders
    requires t == if s.holders[b].writer.None? && writer.Some? then Connect(s, b, writer.value) else s
    ensures t == s || (s.holders[b].writer.None? && exists w :: t == Connect(s, b, w))
    ensures forall d | d in s.holders && d != b :: d in t.holders && t.holders[d] == s.holders[d]
    ensures t.cancels == s.cancels && t.access == s.access && b in t.holders
  {
  }

  lemma TriedNext(s: State, t: State, u: State, tried: set<Binding>, b: Binding)
    requires Tried(s, t, tried) && b in s.holders && b !in tried && b in t.holders
    requires u == t || (t.holders[b].writer.None? && exists w :: u == Connect(t, b, w))
    ensures Tried(s, u, tried + {b})
  {
    if u != t {
      var w :| u == Connect(t, b, w);
      ConnectExtends(s, t, tried, b, w);
    }
  }

  lemma ServesNext(s: State, t: State, served: seq<Binding>, drains: seq<nat>, tried: set<Binding>, b: Binding,
                   writer: Option<nat>)
    requires Serves(s, served, drains, tried) && b !in tried && b in s.holders && b in t.holders
    requires t == s || (exists w :: t == Connect(s, b, w))
    requires t.holders[b].writer == writer
    ensures writer.None? ==> Serves(t, served, drains, tried + {b})
    ensures writer.Some? ==> Serves(t, served + [b], drains + [writer.value], tried + {b})
  {
    assert forall d | d in tried :: d in s.holders <==> d in t.holders;
    assert forall d | d in tried && d in s.holders :: t.holders[d] == s.holders[d];
    if writer.Some? {
      var more := served + [b];
      forall d | d in tried + {b} && d in t.holders && t.holders[d].writer.Some? ensures d in more {
        if d == b { assert more[|served|] == b; } else { assert d in served; }
      }
    }
  }

  // ----- what follows from the relations -----

  /** Fetching the same set of bindings again creates no context, cancels none and touches no holder. */
  lemma RefetchChangesNothing(s: State, t: State)
    requires Good(s) && Good(t) && Updated(s, t, s.holders.Keys)
    ensures t == s
  {
    hide Conserved;
    assert s.holders.Keys - s.holders.Keys == {};
    assert t.holders == s.holders;
    forall c: nat | c < |s.cancels| ensures t.cancels[c] == s.cancels[c] {
      assert Unrelated(s, {}, c);
    }
    assert t.cancels == s.cancels;
  }

  /** End to end: the provider's answer in another order leaves every drain as it is. */
  lemma ReorderedFetchChangesNothing(
    s: State, t: State, u: State, p: seq<AppView>, q: seq<AppView>, limit: nat, parse: ParseUrl)
    requires Covered(p, q) && Covered(q, p) && Good(t) && Good(u)
    requires Updated(s, t, Elements(OfApps(p, limit, parse)))
    requires Updated(t, u, Elements(OfApps(q, limit, parse)))
    ensures u == t
  {
    OrderDoesNotMatter(p, q, limit, parse);
    assert Elements(OfApps(p, limit, parse)) == Elements(OfApps(q, limit, parse));
    RefetchChangesNothing(t, u);
  }

  /** A cleanup leaves a holder alone exactly when its source was accessed at the cutoff or later, or never. */
  lemma CleanTouchesExactly(s: State, t: State, cutoff: int, b: Binding)
    requires Good(s) && Cleaned(s, t, cutoff) && b in s.holders
    ensures b in t.holders
    ensures t.holders[b] == s.holders[b] <==> !(b.appId in s.access && s.access[b.appId] < cutoff)
  {
    hide ContextsChange;
    SweptKeys(s, t, OfExpired(s, cutoff));
    LiveContext(s, b);
    if b in OfExpired(s, cutoff) { assert FreshHolder(s, t, b); }
  }

  // ----- an accessed source keeps its drains -----

  /** The source of b is in use: accessed at `now` or later. */
  ghost predicate InUse(s: State, b: Binding, now: int) {
    b in s.holders && b.appId in s.access && s.access[b.appId] >= now
  }

  /** An operation that neither turns the clock of b's source back, nor unbinds b, nor expires accesses at `now`. */
  ghost predicate Spares(op: Operation, b: Binding, now: int) {
    match op
    case Get(source, at) => source == b.appId ==> at >= now
    case Update(bs) => b in bs
    case Clean(cutoff) => cutoff <= now
  }

  predicate IsGet(op: Operation, source: string) {
    op.Get? && op.source == source
  }

  lemma GetUses(s: State, t: State, b: Binding, now: int)
    requires Step(s, Get(b.appId, now), t) && b in s.holders
    ensures InUse(t, b, now) && t.holders[b].ctx == s.holders[b].ctx
  {
    hide Good;
  }

  lemma StepSpares(s: State, op: Operation, t: State, b: Binding, now: int)
    requires Good(s) && Step(s, op, t) && InUse(s, b, now) && Spares(op, b, now)
    ensures InUse(t, b, now) && t.holders[b].ctx == s.holders[b].ctx
    ensures s.holders[b].writer.Some? || !IsGet(op, b.appId) ==> t.holders[b] == s.holders[b]
  {
    hide Good, ContextsChange, Without;
    match op {
      case Get(source, at) =>
      case Update(bs) =>
      case Clean(cutoff) => CleanTouchesExactly(s, t, cutoff, b);
    }
  }

  /**
    In every run, after an access at `now` no cleanup with a cutoff up to `now`
    touches the source's drains: as long as a drain stays bound it keeps its
    context, its writer once it has one, and without another access its holder.
    */
  lemma {:induction false} AccessedDrainSurvives(
    states: seq<State>, ops: seq<Operation>, i: nat, j: nat, b: Binding, now: int)
    requires IsRun(states, ops) && i < j <= |ops|
    requires ops[i] == Get(b.appId, now) && b in states[i].holders
    requires forall k | i < k < j :: Spares(ops[k], b, now)
    ensures InUse(states[j], b, now) && b in states[i + 1].holders
    ensures states[j].holders[b].ctx == states[i].holders[b].ctx < |states[j].cancels|
    ensures states[j].cancels[states[i].holders[b].ctx] == 0
    ensures states[i + 1].holders[b].writer.Some? || (forall k | i < k < j :: !IsGet(ops[k], b.appId))
            ==> states[j].holders[b] == states[i + 1].holders[b]
    decreases j
  {
    hide Good, Spares, Got, Updated, Cleaned;
    RunResets(states, ops, j - 1);
    assert Step(states[j - 1], ops[j - 1], states[j]);
    if j == i + 1 {
      GetUses(states[i], states[j], b, now);
    } else {
      AccessedDrainSurvives(states, ops, i, j - 1, b, now);
      StepSpares(states[j - 1], ops[j - 1], states[j], b, now);
    }
    LiveContext(states[j], b);
  }

  // ----- the active drain count -----

  /** A sweep lowers the count by one for every holder it replaces, connected or not. */
  lemma SweepLowersCount(s: State, t: State, swept: set<Binding>)
    requires Good(s) && Good(t) && Swept(s, t, swept)
    ensures t.activeCount == s.activeCount - |swept|
  {
    hide Conserved, HoldersChange, ContextsChange, Connected, Without, WritersAccessed;
    SweptDisconnected(s, t, swept);
    assert swept == Without(s, swept) + (swept - Without(s, swept));
  }

  lemma SweptDisconnected(s: State, t: State, swept: set<Binding>)
    requires HoldersChange(s, t, swept, swept)
    ensures Connected(s.holders) == Connected(t.holders) + (swept - Without(s, swept))
    ensures Connected(t.holders) !! (swept - Without(s, swept)) && Without(s, swept) <= swept
  {
    forall b | b in swept ensures b in t.holders && t.holders[b].writer.None? { assert FreshHolder(s, t, b); }
  }

  /** Every drain of a source about to be swept has a writer. */
  ghost predicate AllConnected(s: State, cutoff: int) {
    forall b | b in s.holders && Expired(s, b.appId, cutoff) :: s.holders[b].writer.Some?
  }

  ghost predicate CountExact(s: State) {
    s.activeCount == |Connected(s.holders)|
  }

  /** From an exact count, a sweep leaves an exact count exactly when all drains it meets are connected. */
  lemma SweepKeepsCountExactly(s: State, t: State, cutoff: int)
    requires Good(s) && Good(t) && Cleaned(s, t, cutoff) && CountExact(s)
    ensures CountExact(t) <==> AllConnected(s, cutoff)
  {
    hide Conserved, HoldersChange, ContextsChange;
    WithoutNone(s, cutoff);
  }

  lemma WithoutNone(s: State, cutoff: int)
    ensures |Without(s, OfExpired(s, cutoff))| == 0 <==> AllConnected(s, cutoff)
  {
    var w := Without(s, OfExpired(s, cutoff));
    if b :| b in s.holders && Expired(s, b.appId, cutoff) && s.holders[b].writer.None? {
      assert b in w;
    } else {
      assert w == {};
    }
  }

  lemma StepResets(s: State, op: Operation, t: State)
    requires Step(s, op, t)
    ensures t.resets >= s.resets
    ensures t.resets == s.resets <==> (op.Clean? ==> AllConnected(s, op.cutoff))
  {
    hide Good, HoldersChange, ContextsChange;
    if op.Clean? { WithoutNone(s, op.cutoff); }
  }

  /** All cleanups among the first n operations met connected drains only. */
  ghost predicate CleansMetConnected(states: seq<State>, ops: seq<Operation>, n: nat)
    requires n <= |ops| < |states|
  {
    forall i | 0 <= i < n && ops[i].Clean? :: AllConnected(states[i], ops[i].cutoff)
  }

  lemma {:induction false} RunResets(states: seq<State>, ops: seq<Operation>, n: nat)
    requires IsRun(states, ops) && n <= |ops|
    ensures Good(states[n])
    ensures states[n].resets == 0 <==> CleansMetConnected(states, ops, n)
  {
    hide Good, AllConnected;
    if n == 0 {
      EmptyIsGood();
    } else {
      RunResets(states, ops, n - 1);
      assert Step(states[n - 1], ops[n - 1], states[n]);
      StepResets(states[n - 1], ops[n - 1], states[n]);
    }
  }

  /**
    In every run the active drain count is at most the number of connected
    drains, and it is that number exactly when no cleanup met a drain of an
    expired source that had no writer.
    */
  lemma ActiveCountExactly(states: seq<State>, ops: seq<Operation>)
    requires IsRun(states, ops)
    ensures states[|ops|].activeCount <= |Connected(states[|ops|].holders)|
    ensures CountExact(states[|ops|]) <==> CleansMetConnected(states, ops, |ops|)
  {
    hide Conserved, Step;
    RunResets(states, ops, |ops|);
  }

  /** The shortest run that goes wrong: a drain that could not be connected, then idle. */
  function UndercountingRun(b: Binding): seq<State> {
    var added := Add(Empty, b);
    var asked := Touch(added, b.appId, 0);
    [Empty, added, asked, Forget(Reset(asked, b), b.appId)]
  }

  /** It ends with no connected drain and a count of minus one. */
  lemma SweepCanUndercount(b: Binding)
    ensures IsRun(UndercountingRun(b), [Update({b}), Get(b.appId, 0), Clean(1)])
    ensures UndercountingRun(b)[3].activeCount == -1 && Connected(UndercountingRun(b)[3].holders) == {}
  {
    hide Good, Updated, Got, Cleaned;
    var r := UndercountingRun(b);
    EmptyIsGood();
    AddKeepsGood(Empty, b);
    TouchKeepsGood(r[1], b.appId, 0);
    ResetKeepsGood(r[2], b);
    ForgetKeepsGood(Reset(r[2], b), b.appId);
    UndercountSteps(b);
    assert forall i | 0 <= i < 3 :: Step(r[i], [Update({b}), Get(b.appId, 0), Clean(1)][i], r[i + 1]);
  }

  lemma UndercountSteps(b: Binding)
    ensures var r := UndercountingRun(b);
            Updated(r[0], r[1], {b}) && Got(r[1], r[2], b.appId, 0) && Cleaned(r[2], r[3], 1)
  {
    var r := UndercountingRun(b);
    assert {b} - r[0].holders.Keys == {b} && r[0].holders.Keys - {b} == {};
    assert OfExpired(r[2], 1) == {b} && Without(r[2], {b}) == {b};
    assert r[3].access == map[];
  }
}
