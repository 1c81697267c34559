/**
  What a stream of counter readings adds up to: the step both aggregators
  perform on their table of totals, and a definition of every total from the
  history of the readings alone.
  */
module CounterHistory {
  import opened Arithmetic
  import opened Wrappers

  /** v1 also keys by origin; v2 leaves it empty. */
  datatype CounterId = CounterId(origin: string, name: string, tagsHash: string)

  datatype Reading = Reading(id: CounterId, delta: uint64, total: uint64)

  type Totals = map<CounterId, uint64>

  /** A missing key reads as zero, as in Go. */
  function Get(m: Totals, id: CounterId): uint64 {
    if id in m then m[id] else 0
  }

  function AddUint64(x: uint64, y: uint64): uint64 {
    (x + y) % TWO_64
  }

  /** v2 empties its table when it finds more than `limit` entries; v1 has no limit. */
  function Prune(limit: Option<nat>, m: Totals): Totals {
    if limit.Some? && |m| > limit.value then map[] else m
  }

  function Update(limit: Option<nat>, m: Totals, r: Reading): Totals {
    var kept := Prune(limit, m);
    kept[r.id := if r.total == 0 then AddUint64(Get(kept, r.id), r.delta) else r.total]
  }

  function Aggregate(limit: Option<nat>, rs: seq<Reading>): Totals {
    if rs == [] then map[]
    else Update(limit, Aggregate(limit, rs[..|rs| - 1]), rs[|rs| - 1])
  }

  // ----- the same, from the history -----

  function Ids(rs: seq<Reading>): set<CounterId> {
    set r | r in rs :: r.id
  }

  /** Where the current epoch began: with the latest reading that found too many ids. */
  function EpochStart(limit: Option<nat>, rs: seq<Reading>): (start: nat)
    ensures start <= |rs|
    ensures rs != [] ==> start < |rs|
  {
    if rs == [] then 0 else
    var before := rs[..|rs| - 1];
    var start := EpochStart(limit, before);
    if limit.Some? && |Ids(before[start..])| > limit.value then |before| else start
  }

  function Epoch(limit: Option<nat>, rs: seq<Reading>): seq<Reading> {
    rs[EpochStart(limit, rs)..]
  }

  /** One past the last reading that set the total of id, or 0. */
  function AfterLastSet(rs: seq<Reading>, id: CounterId): (n: nat)
    ensures n <= |rs|
    ensures n > 0 ==> rs[n - 1].id == id && rs[n - 1].total != 0
    ensures forall i | n <= i < |rs| && rs[i].id == id :: rs[i].total == 0
  {
    if rs == [] then 0
    else if rs[|rs| - 1].id == id && rs[|rs| - 1].total != 0 then |rs|
    else AfterLastSet(rs[..|rs| - 1], id)
  }

  /** The plain sum of the deltas reported for id. */
  function SumOfDeltas(rs: seq<Reading>, id: CounterId): nat {
    if rs == [] then 0
    else (if rs[0].id == id then rs[0].delta else 0) + SumOfDeltas(rs[1..], id)
  }

  /** The last total set for id, plus everything reported since, in 64 bits. */
  function TotalFromHistory(rs: seq<Reading>, id: CounterId): uint64 {
    Since(rs, id, AfterLastSet(rs, id)) % TWO_64
  }

  /** The total set by reading n - 1, if any, and the deltas reported for id from reading n on. */
  function Since(rs: seq<Reading>, id: CounterId, n: nat): nat
    requires n <= |rs|
  {
    (if n > 0 then rs[n - 1].total else 0) + SumOfDeltas(rs[n..], id)
  }

  lemma {:induction false} SumOfDeltasAppend(rs: seq<Reading>, r: Reading, id: CounterId)
    ensures SumOfDeltas(rs + [r], id) == SumOfDeltas(rs, id) + if r.id == id then r.delta else 0
  {
    if rs != [] {
      assert (rs + [r])[1..] == rs[1..] + [r];
      SumOfDeltasAppend(rs[1..], r, id);
    }
  }

  lemma ModAdd(x: nat, d: nat)
    ensures (x % TWO_64 + d) % TWO_64 == (x + d) % TWO_64
  {
    var q := x / TWO_64;
    assert x == TWO_64 * q + x % TWO_64;
    var y := x % TWO_64 + d;
    assert x + d == TWO_64 * (q + y / TWO_64) + y % TWO_64;
  }

  lemma NotSetAgain(rs: seq<Reading>, r: Reading, id: CounterId)
    requires r.id != id || r.total == 0
    ensures AfterLastSet(rs + [r], id) == AfterLastSet(rs, id)
  {
    assert (rs + [r])[..|rs|] == rs;
  }

  lemma SinceAppend(rs: seq<Reading>, r: Reading, id: CounterId, n: nat)
    requires n <= |rs|
    ensures Since(rs + [r], id, n) == Since(rs, id, n) + if r.id == id then r.delta else 0
  {
    assert (rs + [r])[n..] == rs[n..] + [r];
    SumOfDeltasAppend(rs[n..], r, id);
  }

  lemma TotalAppend(rs: seq<Reading>, r: Reading, id: CounterId)
    ensures TotalFromHistory(rs + [r], id)
         == if r.id != id then TotalFromHistory(rs, id)
            else if r.total != 0 then r.total
            else AddUint64(TotalFromHistory(rs, id), r.delta)
  {
    var more := rs + [r];
    if r.id == id && r.total != 0 {
      assert AfterLastSet(more, id) == |more| && more[|more|..] == [];
    } else {
      hide AfterLastSet, Since;
      NotSetAgain(rs, r, id);
      SinceAppend(rs, r, id, AfterLastSet(rs, id));
      ModAdd(Since(rs, id, AfterLastSet(rs, id)), r.delta);
    }
  }

  lemma {:induction false} UnseenTotal(rs: seq<Reading>, id: CounterId)
    requires id !in Ids(rs)
    ensures TotalFromHistory(rs, id) == 0
    decreases |rs|
  {
    if rs != [] {
      var before, r := rs[..|rs| - 1], rs[|rs| - 1];
      assert rs == before + [r] && r in rs;
      UnseenTotal(before, id);
      TotalAppend(before, r, id);
    }
  }

  lemma EpochAppend(limit: Option<nat>, rs: seq<Reading>)
    requires rs != []
    ensures var before, r := rs[..|rs| - 1], rs[|rs| - 1];
            Epoch(limit, rs) ==
              if limit.Some? && |Ids(Epoch(limit, before))| > limit.value then [r] else Epoch(limit, before) + [r]
  {
  }

  ghost predicate Matches(m: Totals, rs: seq<Reading>) {
    && m.Keys == Ids(rs)
    && forall id | id in m :: m[id] == TotalFromHistory(rs, id)
  }

  lemma IdsAppend(rs: seq<Reading>, r: Reading)
    ensures Ids(rs + [r]) == Ids(rs) + {r.id}
  {
    forall id | id in Ids(rs) + {r.id} ensures id in Ids(rs + [r]) {
      if id in Ids(rs) {
        var x :| x in rs && x.id == id;
        assert x in rs + [r];
      } else {
        assert r in rs + [r];
      }
    }
  }

  lemma UpdatedEntry(m: Totals, rs: seq<Reading>, r: Reading, id: CounterId)
    requires Matches(m, rs) && (id in m || id == r.id)
    ensures Update(None, m, r)[id] == TotalFromHistory(rs + [r], id)
  {
    TotalAppend(rs, r, id);
    if id !in m { UnseenTotal(rs, id); }
  }

  /** One step of the table is one step of the history. */
  lemma StepMatchesHistory(m: Totals, rs: seq<Reading>, r: Reading)
    requires Matches(m, rs)
    ensures Matches(Update(None, m, r), rs + [r])
  {
    IdsAppend(rs, r);
    var next := Update(None, m, r);
    assert next.Keys == m.Keys + {r.id};
    forall id | id in next ensures next[id] == TotalFromHistory(rs + [r], id) {
      UpdatedEntry(m, rs, r, id);
    }
  }

  /** Feeding an aggregator the total it would emit has the effect of the original reading. */
  lemma EmittedReadingIsNeutral(limit: Option<nat>, m: Totals, r: Reading)
    ensures var after := Update(limit, m, r);
            Update(limit, m, r.(total := after[r.id])) == after
  {
  }

  lemma UpdateSize(m: Totals, r: Reading)
    ensures |Update(None, m, r)| <= |m| + 1
  {
    var next := Update(None, m, r);
    assert next.Keys == m.Keys + {r.id};
    assert |next| == |next.Keys| && |m| == |m.Keys|;
  }

  /** A reading either extends the epoch or, finding too many ids, begins one. */
  lemma UpdateMatches(limit: Option<nat>, m: Totals, epoch: seq<Reading>, r: Reading)
    requires Matches(m, epoch)
    ensures limit.Some? && |Ids(epoch)| > limit.value ==> Matches(Update(limit, m, r), [r])
    ensures !(limit.Some? && |Ids(epoch)| > limit.value) ==> Matches(Update(limit, m, r), epoch + [r])
    ensures limit.Some? ==> |Update(limit, m, r)| <= limit.value + 1
  {
    assert |m| == |m.Keys| == |Ids(epoch)|;
    var kept := Prune(limit, m);
    assert Update(limit, m, r) == Update(None, kept, r);
    UpdateSize(kept, r);
    if limit.Some? && |m| > limit.value {
      StepMatchesHistory(map[], [], r);
      assert [] + [r] == [r];
    } else {
      StepMatchesHistory(m, epoch, r);
    }
  }

  /**
    After any readings the table holds exactly the ids of the current epoch,
    each with the total its history gives, and at most limit + 1 of them.
    */
  lemma {:induction false} AggregatorRefinesHistory(limit: Option<nat>, rs: seq<Reading>)
    ensures Matches(Aggregate(limit, rs), Epoch(limit, rs))
    ensures limit.Some? ==> |Aggregate(limit, rs)| <= limit.value + 1
    decreases |rs|
  {
    if rs != [] {
      var before, r := rs[..|rs| - 1], rs[|rs| - 1];
      AggregatorRefinesHistory(limit, before);
      EpochAppend(limit, rs);
      UpdateMatches(limit, Aggregate(limit, before), Epoch(limit, before), r);
    }
  }

  /** One more reading, without a limit. */
  lemma UnlimitedStep(rs: seq<Reading>, r: Reading)
    ensures Aggregate(None, rs + [r]) == Update(None, Aggregate(None, rs), r)
    ensures r.id in Aggregate(None, rs + [r])
    ensures Aggregate(None, rs + [r])[r.id] == TotalFromHistory(rs + [r], r.id)
  {
    assert (rs + [r])[..|rs|] == rs;
    assert Aggregate(None, rs + [r]) == Update(None, Aggregate(None, rs), r);
    hide Aggregate, TotalFromHistory, Matches;
    UnlimitedMatches(rs);
    UpdatedEntry(Aggregate(None, rs), rs, r, r.id);
  }

  lemma UnlimitedMatches(rs: seq<Reading>)
    ensures Matches(Aggregate(None, rs), rs)
  {
    hide Matches, Epoch, Aggregate;
    AggregatorRefinesHistory(None, rs);
    UnlimitedEpoch(rs);
  }

  /** A reading of another id does not change what r makes of its own entry. */
  lemma UpdateOther(limit: nat, m: Totals, q: Reading, r: Reading)
    requires q.id != r.id && |m| <= limit && |Update(Some(limit), m, q)| <= limit
    ensures Update(Some(limit), Update(Some(limit), m, q), r)[r.id] == Update(Some(limit), m, r)[r.id]
  {
  }

  /** Without a limit the epoch is the whole history. */
  lemma {:induction false} UnlimitedEpoch(rs: seq<Reading>)
    ensures Epoch(None, rs) == rs
    decreases |rs|
  {
    if rs != [] {
      UnlimitedEpoch(rs[..|rs| - 1]);
      assert rs == rs[..|rs| - 1] + [rs[|rs| - 1]];
      EpochAppend(None, rs);
    }
  }
}
