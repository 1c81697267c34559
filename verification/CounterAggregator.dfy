/**
  The v2 envelope, its tagger and the counter aggregator, all of which change
  the envelope in place.
  */
module CounterAggregator {
  import opened Arithmetic
  import opened Wrappers
  import opened CounterHistory
  import opened TagHash

  const MAX_TOTALS: nat := 10000

  /** A deprecated tag; `Unset` stands for any other content of the oneof. */
  datatype TagValue = Text(text: string) | Integer(i: int) | Decimal(d: real) | Unset

  datatype Counter = Counter(name: string, delta: uint64, total: uint64)

  /** The contents of an envelope; `tags` is None for a nil map, `counter` for any other message. */
  datatype View = View(tags: Option<Tags>, deprecated: map<string, TagValue>, counter: Option<Counter>)

  class Envelope {
    var tags: Option<Tags>
    const deprecatedTags: map<string, TagValue>
    var counter: Option<Counter>

    constructor (v: View)
      ensures Contents() == v
    {
      tags := v.tags;
      deprecatedTags := v.deprecated;
      counter := v.counter;
    }

    function Contents(): View
      reads this
    {
      View(tags, deprecatedTags, counter)
    }
  }

  /** How a tag value is printed; the text form prints as itself. */
  type Render = TagValue -> string

  function Printed(render: Render, v: TagValue): string {
    match v
    case Text(t) => t
    case _ => render(v)
  }

  datatype Tagger = Tagger(defaultTags: Tags, render: Render) {

    /** Deprecated tags replace tags of the same name; defaults only fill gaps. */
    ghost function Tagged(v: View): View {
      var own := if v.tags.Some? then v.tags.value else map[];
      var moved := own + map k | k in v.deprecated :: Printed(render, v.deprecated[k]);
      v.(tags := Some(defaultTags + moved))
    }

    method TagEnvelope(env: Envelope)
      modifies env`tags
      ensures env.Contents() == Tagged(old(env.Contents()))
      ensures env.tags.Some? && forall k ::
                var own := if old(env.tags).Some? then old(env.tags).value else map[];
                && (k in env.tags.value <==> k in env.deprecatedTags || k in own || k in defaultTags)
                && (k in env.tags.value ==>
                      env.tags.value[k] == if k in env.deprecatedTags then Printed(render, env.deprecatedTags[k])
                                           else if k in own then own[k] else defaultTags[k])
      ensures env.counter == old(env.counter)
    {
      if env.tags.None? {
        env.tags := Some(map[]);
      }
      MoveDeprecatedTags(env);
      ghost var moved := env.tags.value;
      AddDefaultTags(env);
      assert env.tags.value == defaultTags + moved;
    }

    method MoveDeprecatedTags(env: Envelope)
      requires env.tags.Some?
      modifies env`tags
      ensures env.tags.Some?
      ensures env.tags.value
           == old(env.tags).value + map k | k in env.deprecatedTags :: Printed(render, env.deprecatedTags[k])
    {
      ghost var own := env.tags.value;
      var todo := env.deprecatedTags.Keys;
      while todo != {}
        invariant todo <= env.deprecatedTags.Keys
        invariant env.tags.Some?
        invariant env.tags.value
               == own + map k | k in env.deprecatedTags && k !in todo :: Printed(render, env.deprecatedTags[k])
        decreases todo
      {
        var k :| k in todo;
        env.tags := Some(env.tags.value[k := Printed(render, env.deprecatedTags[k])]);
        todo := todo - {k};
      }
    }

    method AddDefaultTags(env: Envelope)
      requires env.tags.Some?
      modifies env`tags
      ensures env.tags == Some(defaultTags + old(env.tags).value)
    {
      ghost var moved := env.tags.value;
      var todo := defaultTags.Keys;
      while todo != {}
        invariant todo <= defaultTags.Keys
        invariant env.tags.Some?
        invariant env.tags.value == (map k | k in defaultTags && k !in todo :: defaultTags[k]) + moved
        decreases todo
      {
        var k :| k in todo;
        if k !in env.tags.value {
          env.tags := Some(env.tags.value[k := defaultTags[k]]);
        }
        todo := todo - {k};
      }
      assert (map k | k in defaultTags && k !in todo :: defaultTags[k]) == defaultTags;
    }

    /** Where each tag of a tagged envelope comes from; nothing else of it changes. */
    lemma TagsExactly(v: View, k: string)
      ensures Tagged(v).tags.Some? && Tagged(v).deprecated == v.deprecated && Tagged(v).counter == v.counter
      ensures k in v.deprecated ==>
                k in Tagged(v).tags.value && Tagged(v).tags.value[k] == Printed(render, v.deprecated[k])
      ensures k in v.deprecated && v.deprecated[k].Text? ==> Tagged(v).tags.value[k] == v.deprecated[k].text
      ensures k !in v.deprecated && v.tags.Some? && k in v.tags.value ==>
                k in Tagged(v).tags.value && Tagged(v).tags.value[k] == v.tags.value[k]
      ensures k !in v.deprecated && !(v.tags.Some? && k in v.tags.value) ==>
                && (k in Tagged(v).tags.value <==> k in defaultTags)
                && (k in defaultTags ==> Tagged(v).tags.value[k] == defaultTags[k])
    {
    }

    /** Tagging a tagged envelope again changes nothing. */
    lemma TaggingIsIdempotent(v: View)
      ensures Tagged(Tagged(v)) == Tagged(v)
    {
      assert Tagged(Tagged(v)).tags.value == Tagged(v).tags.value;
    }
  }

  /** What Process does to the table of totals and to the envelope. */
  datatype Outcome = Outcome(totals: Totals, env: View)

  ghost function TagsOf(v: View): Tags {
    if v.tags.Some? then v.tags.value else map[]
  }

  ghost function ReadingOf(v: View, digest: Digest): Reading
    requires v.counter.Some?
  {
    var c := v.counter.value;
    Reading(CounterId("", c.name, HashOf(TagsOf(v), digest)), c.delta, c.total)
  }

  ghost function Processed(tagger: Tagger, digest: Digest, totals: Totals, v: View): Outcome {
    var t := tagger.Tagged(v);
    if t.counter.None? then Outcome(totals, t) else
    var r := ReadingOf(t, digest);
    var after := Update(Some(MAX_TOTALS), totals, r);
    Outcome(after, t.(counter := Some(t.counter.value.(total := after[r.id]))))
  }

  class CounterAggregator {
    var counterTotals: Totals
    const tagger: Tagger
    const digest: Digest

    constructor (tagger: Tagger, digest: Digest)
      ensures counterTotals == map[] && this.tagger == tagger && this.digest == digest
    {
      this.tagger := tagger;
      this.digest := digest;
      counterTotals := map[];
    }

    method ResetTotals()
      modifies this
      ensures counterTotals == map[]
    {
      counterTotals := map[];
    }

    method Process(env: Envelope)
      modifies this, env
      ensures Outcome(counterTotals, env.Contents())
           == Processed(tagger, digest, old(counterTotals), old(env.Contents()))
    {
      tagger.TagEnvelope(env);
      if env.counter.Some? {
        var c := env.counter.value;
        if |counterTotals| > MAX_TOTALS {
          ResetTotals();
        }
        var hash := HashTags(env.tags.value, digest);
        var id := CounterId("", c.name, hash);
        if c.total == 0 {
          counterTotals := counterTotals[id := AddUint64(Get(counterTotals, id), c.delta)];
        } else {
          counterTotals := counterTotals[id := c.total];
        }
        env.counter := Some(c.(total := counterTotals[id]));
      }
    }
  }

  /** Two envelopes feed the same total exactly when their counters agree in name and in every tag. */
  lemma SameTotalExactly(v: View, w: View, digest: Digest)
    requires v.counter.Some? && w.counter.Some?
    requires GoodDigest(digest, Words(TagsOf(v)) + Words(TagsOf(w)))
    ensures ReadingOf(v, digest).id == ReadingOf(w, digest).id
       <==> v.counter.value.name == w.counter.value.name && TagsOf(v) == TagsOf(w)
  {
    HashIsCanonical(TagsOf(v), TagsOf(w), digest);
  }

  // ----- what is emitted, in terms of the envelopes -----

  /**
    A counter's first reading in a table is emitted with its own total, or with
    its delta if it has none; nothing but the total of the envelope changes.
    */
  lemma FirstEmission(tagger: Tagger, digest: Digest, v: View)
    requires v.counter.Some?
    ensures var c, out := v.counter.value, Processed(tagger, digest, map[], v).env;
            && out.counter == Some(Counter(c.name, c.delta, if c.total != 0 then c.total else c.delta))
            && out.tags == tagger.Tagged(v).tags && out.deprecated == v.deprecated
  {
  }

  /**
    Of two counters in a row with the same name and the same tags, the second
    is emitted with its own total, or with the first emission plus its delta
    modulo 2^64 if it has none.
    */
  lemma NextEmission(tagger: Tagger, digest: Digest, totals: Totals, v: View, w: View)
    requires v.counter.Some? && w.counter.Some? && v.counter.value.name == w.counter.value.name
    requires tagger.Tagged(v).tags == tagger.Tagged(w).tags
    requires |Processed(tagger, digest, totals, v).totals| <= 10000
    ensures var first := Processed(tagger, digest, totals, v);
            var second := Processed(tagger, digest, first.totals, w);
            && first.env.counter.Some? && second.env.counter.Some?
            && second.env.counter.value.total
               == if w.counter.value.total != 0 then w.counter.value.total
                  else (first.env.counter.value.total + w.counter.value.delta) % 0x1_0000_0000_0000_0000
  {
  }

  /** A counter that differs in its name or in some tag leaves the next emission of v's counter alone. */
  lemma OtherEmission(tagger: Tagger, digest: Digest, totals: Totals, v: View, w: View)
    requires v.counter.Some? && w.counter.Some? && |totals| <= 10000
    requires |Processed(tagger, digest, totals, w).totals| <= 10000
    requires v.counter.value.name != w.counter.value.name || tagger.Tagged(v).tags != tagger.Tagged(w).tags
    requires GoodDigest(digest, Words(TagsOf(tagger.Tagged(v))) + Words(TagsOf(tagger.Tagged(w))))
    ensures var between := Processed(tagger, digest, totals, w).totals;
            Processed(tagger, digest, between, v).env == Processed(tagger, digest, totals, v).env
  {
    SameTotalExactly(tagger.Tagged(v), tagger.Tagged(w), digest);
    hide HashOf, Words, GoodDigest, Update;
    UpdateOther(MAX_TOTALS, totals, ReadingOf(tagger.Tagged(w), digest), ReadingOf(tagger.Tagged(v), digest));
  }

  /** The table grows by at most the counter's own entry, and is emptied first when it holds more than 10000. */
  lemma TableSizeExactly(tagger: Tagger, digest: Digest, totals: Totals, v: View)
    ensures v.counter.None? ==> Processed(tagger, digest, totals, v).totals == totals
    ensures v.counter.Some? ==>
              var id := ReadingOf(tagger.Tagged(v), digest).id;
              Processed(tagger, digest, totals, v).totals.Keys
              == if |totals| > 10000 then {id} else totals.Keys + {id}
  {
  }

  // ----- a processed envelope is a fixed point -----

  /**
    An aggregator that starts from the same totals and receives the envelope
    another one has already rewritten ends with the same totals and leaves the
    envelope alone: also when the delta is zero, when the sum wraps to zero,
    and when the table is pruned.
    */
  lemma ProcessedIsFixedPoint(tagger: Tagger, digest: Digest, totals: Totals, v: View)
    ensures Processed(tagger, digest, totals, Processed(tagger, digest, totals, v).env)
         == Processed(tagger, digest, totals, v)
  {
    tagger.TaggingIsIdempotent(v);
    var t := tagger.Tagged(v);
    if t.counter.Some? {
      var r := ReadingOf(t, digest);
      var out := Processed(tagger, digest, totals, v).env;
      RetaggedCounter(tagger, v, t.counter.value.(total := out.counter.value.total));
      assert ReadingOf(out, digest) == r.(total := out.counter.value.total);
      EmittedReadingIsNeutral(Some(MAX_TOTALS), totals, r);
    }
  }

  /** Tagging does not look at the counter. */
  lemma RetaggedCounter(tagger: Tagger, v: View, c: Counter)
    ensures tagger.Tagged(tagger.Tagged(v).(counter := Some(c))) == tagger.Tagged(v).(counter := Some(c))
  {
    tagger.TaggingIsIdempotent(v);
  }

  // ----- whole runs of one aggregator -----

  /** The state after a run: every view processed in turn, and what was emitted. */
  ghost function RunTotals(tagger: Tagger, digest: Digest, vs: seq<View>): Totals {
    if vs == [] then map[]
    else Processed(tagger, digest, RunTotals(tagger, digest, vs[..|vs| - 1]), vs[|vs| - 1]).totals
  }

  /** The counter readings of a run, as tagged. */
  ghost function Readings(tagger: Tagger, digest: Digest, vs: seq<View>): seq<Reading> {
    if vs == [] then [] else
    var t := tagger.Tagged(vs[|vs| - 1]);
    Readings(tagger, digest, vs[..|vs| - 1]) + if t.counter.Some? then [ReadingOf(t, digest)] else []
  }

  /** The counters of a run, in order, with the tags they are filed under. */
  ghost function Counters(tagger: Tagger, vs: seq<View>): seq<(Counter, Tags)> {
    if vs == [] then [] else
    var v := vs[|vs| - 1];
    Counters(tagger, vs[..|vs| - 1])
    + if v.counter.Some? then [(v.counter.value, TagsOf(tagger.Tagged(v)))] else []
  }

  /** Each reading carries its counter's own name, tags, delta and total. */
  lemma {:induction false} ReadingsCarry(tagger: Tagger, digest: Digest, vs: seq<View>)
    ensures |Readings(tagger, digest, vs)| == |Counters(tagger, vs)|
    ensures forall i | 0 <= i < |Counters(tagger, vs)| ::
              var (c, tags) := Counters(tagger, vs)[i];
              Readings(tagger, digest, vs)[i] == Reading(CounterId("", c.name, HashOf(tags, digest)), c.delta, c.total)
    decreases |vs|
  {
    if vs != [] {
      ReadingsCarry(tagger, digest, vs[..|vs| - 1]);
    }
  }

  lemma ProcessedTotals(tagger: Tagger, digest: Digest, totals: Totals, v: View)
    ensures tagger.Tagged(v).counter == v.counter
    ensures Processed(tagger, digest, totals, v).totals
         == if v.counter.None? then totals
            else Update(Some(MAX_TOTALS), totals, ReadingOf(tagger.Tagged(v), digest))
  {
    hide Update, HashOf;
  }

  lemma {:induction false} RunAggregates(tagger: Tagger, digest: Digest, vs: seq<View>)
    ensures RunTotals(tagger, digest, vs) == Aggregate(Some(MAX_TOTALS), Readings(tagger, digest, vs))
    decreases |vs|
  {
    if vs != [] {
      var before := vs[..|vs| - 1];
      RunAggregates(tagger, digest, before);
      ProcessedTotals(tagger, digest, RunTotals(tagger, digest, before), vs[|vs| - 1]);
      hide Processed, Update, ReadingOf;
      var rs := Readings(tagger, digest, vs);
      if tagger.Tagged(vs[|vs| - 1]).counter.Some? {
        assert rs[..|rs| - 1] == Readings(tagger, digest, before);
      } else {
        assert rs == Readings(tagger, digest, before);
      }
    }
  }

  /**
    The total emitted for a counter, after any run, is the last non-zero total
    received for its id since the last prune plus the deltas received since
    then, modulo 2^64; and the table never holds more than 10001 entries.
    */
  lemma EmittedTotal(tagger: Tagger, digest: Digest, vs: seq<View>, v: View)
    requires v.counter.Some?
    ensures var out := Processed(tagger, digest, RunTotals(tagger, digest, vs), v);
            var rs := Readings(tagger, digest, vs + [v]);
            && |out.totals| <= 10001
            && out.env.counter.Some?
            && out.env.counter.value.total
               == TotalFromHistory(Epoch(Some(MAX_TOTALS), rs), rs[|rs| - 1].id)
  {
    var run := vs + [v];
    assert run[..|run| - 1] == vs;
    RunAggregates(tagger, digest, run);
    AggregatorRefinesHistory(Some(MAX_TOTALS), Readings(tagger, digest, run));
    assert RunTotals(tagger, digest, run) == Processed(tagger, digest, RunTotals(tagger, digest, vs), v).totals;
  }
}
