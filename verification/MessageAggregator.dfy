/** The v1 aggregator: the same table of totals, keyed by origin as well, never pruned. */
module MessageAggregator {
  import opened Arithmetic
  import opened Wrappers
  import opened CounterHistory
  import opened TagHash

  /** The parts of a v1 counter envelope that aggregation reads; `total` None is a nil pointer. */
  class Envelope {
    const origin: string
    const tags: Tags
    const name: string
    const delta: uint64
    var total: Option<uint64>

    constructor (origin: string, tags: Tags, name: string, delta: uint64, total: Option<uint64>)
      ensures this.origin == origin && this.tags == tags && this.name == name
      ensures this.delta == delta && this.total == total
    {
      this.origin, this.tags, this.name, this.delta, this.total := origin, tags, name, delta, total;
    }

    function GetTotal(): uint64
      reads this
    {
      if total.Some? then total.value else 0
    }

    ghost function AsReading(digest: Digest): Reading
      reads this
    {
      Reading(CounterId(origin, name, HashOf(tags, digest)), delta, GetTotal())
    }
  }

  class MessageAggregator {
    var counterTotals: Totals
    const digest: Digest
    /** Every reading handled so far. */
    ghost var history: seq<Reading>

    ghost predicate Valid()
      reads this
    {
      counterTotals == Aggregate(None, history)
    }

    constructor (digest: Digest)
      ensures Valid() && history == [] && this.digest == digest
    {
      this.digest := digest;
      counterTotals := map[];
      history := [];
    }

    /** handleCounter: the emitted total follows from the whole history of the counter. */
    method HandleCounter(envelope: Envelope)
      requires Valid()
      modifies this, envelope
      ensures Valid() && history == old(history) + [old(envelope.AsReading(digest))]
      ensures var r := history[|old(history)|];
              && r.id == CounterId(envelope.origin, envelope.name, HashOf(envelope.tags, digest))
              && r.delta == envelope.delta && r.total == old(envelope.GetTotal())
              && envelope.GetTotal() == TotalFromHistory(history, r.id)
              && envelope.GetTotal() == if r.total != 0 then r.total
                                        else (TotalFromHistory(old(history), r.id) + envelope.delta) % TWO_64
    {
      ghost var r := envelope.AsReading(digest);
      var hash := HashTags(envelope.tags, digest);
      var countId := CounterId(envelope.origin, envelope.name, hash);
      history := history + [r];
      UnlimitedStep(old(history), r);
      TotalAppend(old(history), r, r.id);
      hide Aggregate, TotalFromHistory, HashOf;
      if envelope.GetTotal() != 0 {
        counterTotals := counterTotals[countId := envelope.GetTotal()];
      } else {
        var newVal := AddUint64(Get(counterTotals, countId), envelope.delta);
        counterTotals := counterTotals[countId := newVal];
        envelope.total := Some(newVal);
      }
    }
  }
}
