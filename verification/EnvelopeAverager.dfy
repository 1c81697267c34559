/**
  The envelope averager: a 16-bit count and a 48-bit total in one 64-bit word,
  updated by compare-and-swap loops and read by one reporting goroutine.
  Shifts and masks by whole fields are division and remainder by their size.
  */
module EnvelopeAverager {
  import opened Wrappers
  import opened Arithmetic

  const TWO_16: int := 0x1_0000
  const TWO_48: int := 0x1_0000_0000_0000

  type uint16 = x: int | 0 <= x < 0x1_0000

  datatype CountAndTotal = CountAndTotal(count: uint16, total: uint64)

  /** The count is the upper 16 bits, the total the lower 48. */
  function Decode(u: uint64): CountAndTotal {
    CountAndTotal((u / TWO_48) % TWO_16, u % TWO_48)
  }

  function EncodeDelta(u: uint64, count: uint16, total: uint64): uint64 {
    var current := Decode(u);
    var c: uint16 := (count + current.count) % TWO_16;
    var t: uint64 := (total + current.total) % TWO_64;
    ((c * TWO_48) % TWO_64 + t % TWO_48) % TWO_64
  }

  /** The word is the count, shifted by 48 bits, and the total below it. */
  lemma WordLayout(u: uint64)
    ensures u == Decode(u).count * 0x1_0000_0000_0000 + Decode(u).total && Decode(u).total < 0x1_0000_0000_0000
  {
  }

  lemma ModOfSum(a: int, b: int, n: nat)
    requires n > 0
    ensures (a % n + b) % n == (a + b) % n
  {
    assert a + b == (a % n + b) + n * (a / n);
    ModShift(a % n + b, a / n, n);
  }

  lemma Mod64Mod48(x: nat)
    ensures (x % TWO_64) % TWO_48 == x % TWO_48
  {
    var q := x / TWO_64;
    assert x == x % TWO_64 + TWO_48 * (TWO_16 * q);
    ModShift(x % TWO_64, TWO_16 * q, TWO_48);
  }

  /** Both fields add in their own modulus; nothing carries from the total into the count. */
  lemma EncodeAddsFieldwise(u: uint64, count: uint16, total: uint64)
    ensures Decode(EncodeDelta(u, count, total)).count == (Decode(u).count + count) % TWO_16
    ensures Decode(EncodeDelta(u, count, total)).total == (Decode(u).total + total) % TWO_48
  {
    var c := (count + Decode(u).count) % TWO_16;
    var t := (total + Decode(u).total) % TWO_64 % TWO_48;
    var v := EncodeDelta(u, count, total);
    assert v == TWO_48 * c + t;
    DivModUnique(v, c, t, TWO_48);
    Mod64Mod48(total + Decode(u).total);
  }

  // ----- Track under any interleaving -----

  /** The arguments of one call of Track. */
  datatype Call = Call(count: int, size: int)

  /** A goroutine is outside Track, or has loaded the word and not yet swapped it. */
  datatype TrackPc = Outside | Loading(call: Call) | Swapping(call: Call, current: uint64)

  /** `committed` lists the calls whose swap succeeded, in order; `returned` counts those that returned. */
  datatype State = State(storage: uint64, goroutines: seq<TrackPc>, committed: seq<Call>, returned: nat)

  datatype Action = Enter(g: nat, call: Call) | Load(g: nat) | Swap(g: nat)

  function Init(n: nat): State {
    State(0, seq(n, i => Outside), [], 0)
  }

  /** Conversions of a Go int to uint16 and uint64. */
  function ToUint16(x: int): uint16 { x % TWO_16 }

  function ToUint64(x: int): uint64 { x % TWO_64 }

  function Step(s: State, a: Action): Option<State> {
    if a.g >= |s.goroutines| then None else
    match (a, s.goroutines[a.g])
    case (Enter(g, call), Outside) =>
      Some(s.(goroutines := s.goroutines[g := Loading(call)]))
    case (Load(g), Loading(call)) =>
      Some(s.(goroutines := s.goroutines[g := Swapping(call, s.storage)]))
    case (Swap(g), Swapping(call, current)) =>
      var newValue := EncodeDelta(current, ToUint16(call.count), ToUint64(call.size));
      if s.storage == current then
        Some(State(newValue, s.goroutines[g := Outside], s.committed + [call], s.returned + 1))
      else
        Some(s.(goroutines := s.goroutines[g := Loading(call)]))
    case (_, _) => None
  }

  function Exec(s: State, schedule: seq<Action>): Option<State>
    decreases |schedule|
  {
    if schedule == [] then Some(s)
    else match Step(s, schedule[0])
         case None => None
         case Some(t) => Exec(t, schedule[1..])
  }

  function Counts(calls: seq<Call>): int {
    if calls == [] then 0 else Counts(calls[..|calls| - 1]) + calls[|calls| - 1].count
  }

  function Sizes(calls: seq<Call>): int {
    if calls == [] then 0 else Sizes(calls[..|calls| - 1]) + calls[|calls| - 1].size
  }

  /** The word is the two sums over all committed calls. */
  ghost predicate Holds(u: uint64, calls: seq<Call>) {
    Decode(u) == CountAndTotal(Counts(calls) % TWO_16, Sizes(calls) % TWO_48)
  }

  lemma CommitHolds(u: uint64, calls: seq<Call>, call: Call)
    requires Holds(u, calls)
    ensures Holds(EncodeDelta(u, ToUint16(call.count), ToUint64(call.size)), calls + [call])
  {
    var more := calls + [call];
    assert more[..|more| - 1] == calls;
    EncodeAddsFieldwise(u, ToUint16(call.count), ToUint64(call.size));
    ModOfSum(Counts(calls), ToUint16(call.count), TWO_16);
    ModOfSum(call.count, Counts(calls), TWO_16);
    ModOfSum(Sizes(calls), ToUint64(call.size), TWO_48);
    ModOfSum(call.size, Sizes(calls), TWO_48);
    Size64Mod48(call.size, Sizes(calls));
  }

  lemma Size64Mod48(size: int, sum: int)
    ensures (ToUint64(size) + sum) % TWO_48 == (size + sum) % TWO_48
  {
    var q := size / TWO_64;
    assert size + sum == (ToUint64(size) + sum) + TWO_48 * (TWO_16 * q);
    ModShift(ToUint64(size) + sum, TWO_16 * q, TWO_48);
  }

  lemma {:induction false} ExecHolds(s: State, schedule: seq<Action>)
    requires Holds(s.storage, s.committed) && |s.committed| == s.returned && Exec(s, schedule).Some?
    ensures var t := Exec(s, schedule).value;
            Holds(t.storage, t.committed) && |t.committed| == t.returned
    decreases |schedule|
  {
    if schedule != [] {
      var t := Step(s, schedule[0]).value;
      if t.committed != s.committed {
        var call := s.goroutines[schedule[0].g].call;
        CommitHolds(s.storage, s.committed, call);
      }
      ExecHolds(t, schedule[1..]);
    }
  }

  /**
    In every interleaving of any number of goroutines the word decodes to the
    sum of the counts mod 2^16 and the sum of the sizes mod 2^48 over exactly
    the calls that have returned: no update is lost or applied twice, also when
    the word has changed and changed back between a load and its swap.
    */
  lemma NoLostUpdate(n: nat, schedule: seq<Action>)
    requires Exec(Init(n), schedule).Some?
    ensures var t := Exec(Init(n), schedule).value;
            && Decode(t.storage) == CountAndTotal(Counts(t.committed) % TWO_16, Sizes(t.committed) % TWO_48)
            && |t.committed| == t.returned
  {
    ExecHolds(Init(n), schedule);
  }

  /** What the sums are of. */
  lemma SumsOfOne(call: Call)
    ensures Counts([]) == Sizes([]) == 0
    ensures Counts([call]) == call.count && Sizes([call]) == call.size
  {
    assert [call][..0] == [];
  }

  /** How often the goroutines have been asked to make this call. */
  function Entered(schedule: seq<Action>, call: Call): nat {
    if schedule == [] then 0
    else (if schedule[0].Enter? && schedule[0].call == call then 1 else 0) + Entered(schedule[1..], call)
  }

  function PendingIn(pc: TrackPc, call: Call): nat {
    if !pc.Outside? && pc.call == call then 1 else 0
  }

  function Pending(pcs: seq<TrackPc>, call: Call): nat {
    if pcs == [] then 0 else PendingIn(pcs[0], call) + Pending(pcs[1..], call)
  }

  function Times(calls: seq<Call>, call: Call): nat {
    if calls == [] then 0 else Times(calls[..|calls| - 1], call) + if calls[|calls| - 1] == call then 1 else 0
  }

  lemma {:induction false} PendingUpdate(pcs: seq<TrackPc>, g: nat, pc: TrackPc, call: Call)
    requires g < |pcs|
    ensures Pending(pcs[g := pc], call) == Pending(pcs, call) - PendingIn(pcs[g], call) + PendingIn(pc, call)
  {
    if g == 0 {
      assert pcs[g := pc][1..] == pcs[1..];
    } else {
      assert pcs[g := pc][1..] == pcs[1..][g - 1 := pc];
      PendingUpdate(pcs[1..], g - 1, pc, call);
    }
  }

  lemma {:induction false} NothingPending(pcs: seq<TrackPc>, call: Call)
    requires forall g | 0 <= g < |pcs| :: pcs[g].Outside?
    ensures Pending(pcs, call) == 0
  {
    if pcs != [] {
      NothingPending(pcs[1..], call);
    }
  }

  lemma StepConservesCalls(s: State, a: Action, call: Call)
    requires Step(s, a).Some?
    ensures var t := Step(s, a).value;
            Times(t.committed, call) + Pending(t.goroutines, call)
            == Times(s.committed, call) + Pending(s.goroutines, call)
               + if a.Enter? && a.call == call then 1 else 0
  {
    var t := Step(s, a).value;
    PendingUpdate(s.goroutines, a.g, t.goroutines[a.g], call);
    assert t.goroutines == s.goroutines[a.g := t.goroutines[a.g]];
    if t.committed != s.committed { assert t.committed[..|s.committed|] == s.committed; }
  }

  lemma {:induction false} ExecConservesCalls(s: State, schedule: seq<Action>, call: Call)
    requires Exec(s, schedule).Some?
    ensures var t := Exec(s, schedule).value;
            Times(t.committed, call) + Pending(t.goroutines, call)
            == Times(s.committed, call) + Pending(s.goroutines, call) + Entered(schedule, call)
    decreases |schedule|
  {
    hide Step, Times, Pending;
    if schedule != [] {
      StepConservesCalls(s, schedule[0], call);
      ExecConservesCalls(Step(s, schedule[0]).value, schedule[1..], call);
    }
  }

  /**
    In every run each call has been committed as often as it was made, less the
    times it is still under way.
    */
  lemma TrackedExactly(n: nat, schedule: seq<Action>, call: Call)
    requires Exec(Init(n), schedule).Some?
    ensures var t := Exec(Init(n), schedule).value;
            && Times(t.committed, call) + Pending(t.goroutines, call) == Entered(schedule, call)
            && ((forall g | 0 <= g < |t.goroutines| :: t.goroutines[g].Outside?) ==>
                  Times(t.committed, call) == Entered(schedule, call))
  {
    ExecConservesCalls(Init(n), schedule, call);
    NothingPending(Init(n).goroutines, call);
    var t := Exec(Init(n), schedule).value;
    if forall g | 0 <= g < |t.goroutines| :: t.goroutines[g].Outside? { NothingPending(t.goroutines, call); }
  }

  /** Calls are only ever added. */
  lemma {:induction false} CommittedGrows(s: State, schedule: seq<Action>)
    requires Exec(s, schedule).Some?
    ensures s.committed <= Exec(s, schedule).value.committed
    decreases |schedule|
  {
    if schedule != [] {
      CommittedGrows(Step(s, schedule[0]).value, schedule[1..]);
    }
  }

  /** A state some number of goroutines can reach from the start. */
  ghost predicate Reachable(s: State) {
    exists n, schedule :: Exec(Init(n), schedule) == Some(s)
  }

  ghost predicate Follows(s: State, t: State) {
    exists schedule :: Exec(s, schedule) == Some(t)
  }

  lemma {:induction false} ExecConcat(s: State, p: seq<Action>, q: seq<Action>)
    requires Exec(s, p).Some?
    ensures Exec(s, p + q) == Exec(Exec(s, p).value, q)
    decreases |p|
  {
    if p == [] {
      assert p + q == q;
    } else {
      assert (p + q)[1..] == p[1..] + q;
      ExecConcat(Step(s, p[0]).value, p[1..], q);
    }
  }

  /** What is known of the words at two successive ticks. */
  lemma TicksHold(s: State, t: State)
    requires Reachable(s) && Follows(s, t)
    ensures Reachable(t) && s.committed <= t.committed
    ensures Holds(s.storage, s.committed) && Holds(t.storage, t.committed)
  {
    var n, p :| Exec(Init(n), p) == Some(s);
    var q :| Exec(s, q) == Some(t);
    ExecConcat(Init(n), p, q);
    NoLostUpdate(n, p);
    NoLostUpdate(n, p + q);
    CommittedGrows(s, q);
  }

  // ----- the average of an interval -----

  function Ratio(total: nat, count: nat): real {
    if count == 0 then 0.0 else (total as real) / (count as real)
  }

  function Average(before: CountAndTotal, now: CountAndTotal): real {
    Ratio((now.total - before.total) % TWO_64, (now.count - before.count) % TWO_16)
  }

  /** The 64-bit difference of two 48-bit totals. */
  function TotalDifference(start: nat, bytes: nat): nat {
    ((start + bytes) % TWO_48 - start % TWO_48) % TWO_64
  }

  lemma {:induction false} SumsSplit(p: seq<Call>, q: seq<Call>)
    ensures Counts(p + q) == Counts(p) + Counts(q) && Sizes(p + q) == Sizes(p) + Sizes(q)
    decreases |q|
  {
    if q == [] {
      assert p + q == p;
    } else {
      assert (p + q)[..|p + q| - 1] == p + q[..|q| - 1];
      SumsSplit(p, q[..|q| - 1]);
    }
  }

  lemma DeltaCount(a: int, n: int)
    ensures ((a + n) % TWO_16 - a % TWO_16) % TWO_16 == n % TWO_16
  {
    assert (a + n) % TWO_16 - a % TWO_16 == n + TWO_16 * (a / TWO_16 - (a + n) / TWO_16);
    ModShift(n, a / TWO_16 - (a + n) / TWO_16, TWO_16);
  }

  /** The 48-bit total does not pass a multiple of 2^48 during the interval. */
  predicate TotalDoesNotWrap(start: nat, bytes: nat) {
    start % TWO_48 + bytes < TWO_48
  }

  /** Below 2^64 - 2^48 bytes, the 64-bit difference is the number of bytes exactly without a wrap. */
  lemma DeltaTotalExactly(start: nat, bytes: nat)
    ensures var delta := TotalDifference(start, bytes);
            && (TotalDoesNotWrap(start, bytes) ==> delta == bytes)
            && (!TotalDoesNotWrap(start, bytes) && bytes < TWO_64 - TWO_48 ==> delta != bytes)
  {
    var q, x := start / TWO_48, start % TWO_48 + bytes;
    var k, y := x / TWO_48, x % TWO_48;
    assert start + bytes == TWO_48 * (q + k) + y;
    DivModUnique(start + bytes, q + k, y, TWO_48);
    var d := y - start % TWO_48;
    assert d == bytes - TWO_48 * k;
    DivModUnique(d, if d < 0 then -1 else 0, if d < 0 then d + TWO_64 else d, TWO_64);
  }

  /** What the reporter computes, from the sums of the interval. */
  lemma AverageFromSums(before: seq<Call>, interval: seq<Call>, u: uint64, v: uint64)
    requires Holds(u, before) && Holds(v, before + interval)
    requires Sizes(before) >= 0 && Sizes(interval) >= 0
    ensures Average(Decode(u), Decode(v))
         == Ratio(TotalDifference(Sizes(before), Sizes(interval)), Counts(interval) % TWO_16)
  {
    hide Ratio, Counts, Sizes;
    SumsSplit(before, interval);
    DeltaCount(Counts(before), Counts(interval));
    var b, now := Decode(u), Decode(v);
    assert (now.count - b.count) % TWO_16 == Counts(interval) % TWO_16;
    assert (now.total - b.total) % TWO_64 == TotalDifference(Sizes(before), Sizes(interval));
  }

  lemma RatioZero(a: nat, x: nat)
    requires x > 0
    ensures Ratio(a, x) == 0.0 <==> a == 0
  {
    var r, u := a as real, x as real;
    assert r == (r / u) * u;
  }

  lemma SameNumerator(a: nat, x: nat, y: nat)
    requires x > 0 && y > 0
    ensures Ratio(a, x) == Ratio(a, y) <==> a == 0 || x == y
  {
    RatioZero(a, x);
    RatioZero(a, y);
    var r, u, v := a as real, x as real, y as real;
    if r / u == r / v && a != 0 {
      assert (r / v) * u == (r / v) * v;
      assert (r / v) * (u - v) == 0.0;
    }
  }

  lemma SameDenominator(a: nat, b: nat, x: nat)
    requires x > 0
    ensures Ratio(a, x) == Ratio(b, x) <==> a == b
  {
    var r, t, u := a as real, b as real, x as real;
    assert r == (r / u) * u && t == (t / u) * u;
  }

  /**
    The average reported for an interval in which the 48-bit total does not
    wrap is bytes divided by envelopes exactly when fewer than 65536 envelopes
    were tracked or none of them had any bytes; the 16-bit count may wrap
    meanwhile.
    */
  lemma AverageExactly(before: seq<Call>, interval: seq<Call>, u: uint64, v: uint64)
    requires Holds(u, before) && Holds(v, before + interval)
    requires Counts(interval) > 0 && Sizes(before) >= 0 && Sizes(interval) >= 0
    requires TotalDoesNotWrap(Sizes(before), Sizes(interval))
    ensures Average(Decode(u), Decode(v)) == Ratio(Sizes(interval), Counts(interval))
       <==> Counts(interval) < TWO_16 || Sizes(interval) == 0
  {
    hide Counts, Sizes, Holds, Decode, Average, TotalDifference;
    AverageFromSums(before, interval, u, v);
    DeltaTotalExactly(Sizes(before), Sizes(interval));
    var b, n := Sizes(interval), Counts(interval);
    RatioZero(b, n);
    if n % TWO_16 != 0 {
      SameNumerator(b, n % TWO_16, n);
    }
  }

  lemma WrapDecides(start: nat, b: nat, n: nat)
    requires 0 < n < TWO_16 && b < TWO_64 - TWO_48
    ensures Ratio(TotalDifference(start, b), n % TWO_16) == Ratio(b, n) <==> TotalDoesNotWrap(start, b)
  {
    DeltaTotalExactly(start, b);
    SameDenominator(TotalDifference(start, b), b, n);
  }

  /**
    With 1 to 65535 envelopes and fewer than 2^64 - 2^48 bytes, the average is
    exact if and only if the 48-bit total did not wrap in the interval.
    */
  lemma AverageExactlyWithoutWrap(before: seq<Call>, interval: seq<Call>, u: uint64, v: uint64)
    requires Holds(u, before) && Holds(v, before + interval)
    requires 0 < Counts(interval) < TWO_16 && Sizes(before) >= 0 && 0 <= Sizes(interval) < TWO_64 - TWO_48
    ensures Average(Decode(u), Decode(v)) == Ratio(Sizes(interval), Counts(interval))
       <==> TotalDoesNotWrap(Sizes(before), Sizes(interval))
  {
    hide Ratio, Counts, Sizes, Holds, Decode, Average, TotalDifference;
    AverageFromSums(before, interval, u, v);
    WrapDecides(Sizes(before), Sizes(interval), Counts(interval));
  }

  // ----- the reporting loop -----

  /** The calls that returned between two states. */
  function Interval(s: State, t: State): seq<Call>
    requires s.committed <= t.committed
  {
    t.committed[|s.committed|..]
  }

  ghost predicate NoNegativeSizes(s: State, t: State) {
    s.committed <= t.committed && Sizes(s.committed) >= 0 && Sizes(Interval(s, t)) >= 0
  }

  /** The mean size of the envelopes tracked between s and t. */
  function MeanSize(s: State, t: State): real
    requires s.committed <= t.committed && Counts(Interval(s, t)) > 0 && Sizes(Interval(s, t)) >= 0
  {
    Ratio(Sizes(Interval(s, t)), Counts(Interval(s, t)))
  }

  /** The mean size times the number of envelopes is the number of bytes. */
  lemma MeanSizeExactly(s: State, t: State, average: real)
    requires s.committed <= t.committed && Counts(Interval(s, t)) > 0 && Sizes(Interval(s, t)) >= 0
    ensures average == MeanSize(s, t)
       <==> average * (Counts(Interval(s, t)) as real) == Sizes(Interval(s, t)) as real
  {
    var b, n := Sizes(Interval(s, t)) as real, Counts(Interval(s, t)) as real;
    assert b == (b / n) * n;
    if average * n == b { assert (average - b / n) * n == 0.0; }
  }

  /**
    What a reporter that ticks at s and then at t reports for the calls between:
    their mean size, under exactly these conditions.
    */
  ghost predicate ReportedExactly(s: State, t: State, average: real)
    requires NoNegativeSizes(s, t)
  {
    var calls := Interval(s, t);
    var wraps := !TotalDoesNotWrap(Sizes(s.committed), Sizes(calls));
    && (Counts(calls) > 0 && !wraps ==>
          (average == MeanSize(s, t) <==> Counts(calls) < TWO_16 || Sizes(calls) == 0))
    && (0 < Counts(calls) < TWO_16 && Sizes(calls) < TWO_64 - TWO_48 ==>
          (average == MeanSize(s, t) <==> !wraps))
    && (Counts(calls) % TWO_16 == 0 ==> average == 0.0)
  }

  lemma ReportIsExact(s: State, t: State)
    requires Reachable(s) && Follows(s, t) && NoNegativeSizes(s, t)
    ensures ReportedExactly(s, t, Average(Decode(s.storage), Decode(t.storage)))
  {
    TicksHold(s, t);
    var calls := Interval(s, t);
    assert s.committed + calls == t.committed;
    AverageFromSums(s.committed, calls, s.storage, t.storage);
    hide Holds, Decode, Average, Counts, Sizes, TotalDifference;
    if Counts(calls) > 0 && TotalDoesNotWrap(Sizes(s.committed), Sizes(calls)) {
      AverageExactly(s.committed, calls, s.storage, t.storage);
    }
    if 0 < Counts(calls) < TWO_16 && Sizes(calls) < TWO_64 - TWO_48 {
      AverageExactlyWithoutWrap(s.committed, calls, s.storage, t.storage);
    }
  }

  /** The reporter's variables prevCount and prevTotal. */
  class Reporter {
    var prevCount: uint16
    var prevTotal: uint64
    /** The averager as the reporter last saw it. */
    ghost var seen: State

    ghost predicate Valid()
      reads this
    {
      Reachable(seen) && Decode(seen.storage) == CountAndTotal(prevCount, prevTotal)
    }

    constructor (ghost n: nat)
      ensures Valid() && seen == Init(n)
    {
      prevCount, prevTotal := 0, 0;
      seen := Init(n);
      assert Exec(Init(n), []) == Some(Init(n));
    }

    /** One tick, at any later state of the averager: the average handed to the callback. */
    method Tick(storage: uint64, ghost now: State) returns (average: real)
      requires Valid() && Follows(seen, now) && storage == now.storage
      modifies this
      ensures Valid() && seen == now && old(seen).committed <= now.committed
      ensures NoNegativeSizes(old(seen), now) ==> ReportedExactly(old(seen), now, average)
    {
      var current := Decode(storage);
      var deltaCount: uint16 := (current.count - prevCount) % TWO_16;
      var deltaTotal: uint64 := (current.total - prevTotal) % TWO_64;
      TicksHold(seen, now);
      if NoNegativeSizes(seen, now) { ReportIsExact(seen, now); }
      seen := now;
      prevCount := current.count;
      prevTotal := current.total;
      if deltaCount == 0 {
        return 0.0;
      }
      return (deltaTotal as real) / (deltaCount as real);
    }
  }
}
