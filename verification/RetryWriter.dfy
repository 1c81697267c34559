/** Retrying writes with exponential backoff. */
module RetryWriter {
  import opened Wrappers
  import opened Arithmetic
  import opened Rfc5424
  import opened TcpWriter

  const TWO_63: int := 0x8000_0000_0000_0000
  const MICROSECOND: int := 1000
  const MILLISECOND: int := 1_000_000
  const MAX_DURATION: int := 15_000_000_000

  function Pow2(n: nat): nat {
    if n == 0 then 1 else 2 * Pow2(n - 1)
  }

  /** Overflow of Go's int64. */
  function Wrap(x: int): int {
    (x + TWO_63) % TWO_64 - TWO_63
  }

  /**
    ExponentialDuration in nanoseconds.  Go leaves the conversion of the float
    to an int undefined when it is out of range, which happens from 58 on.
    */
  function ExponentialDuration(attempt: nat): int
    requires attempt <= 57
  {
    if attempt == 0 then MILLISECOND else
    var tenthDuration := Pow2(attempt - 1) * 100;
    var duration := Wrap(Wrap(tenthDuration * 10) * MICROSECOND);
    if duration > MAX_DURATION then MAX_DURATION else duration
  }

  /** The intended backoff: doubling from one millisecond, at most fifteen seconds. */
  function Backoff(attempt: nat): int {
    if attempt == 0 then MILLISECOND
    else if Pow2(attempt - 1) * MILLISECOND > MAX_DURATION then MAX_DURATION
    else Pow2(attempt - 1) * MILLISECOND
  }

  /** The attempts whose duration overflows to a negative number, so that no time is slept. */
  const OVERFLOWING: set<nat> := {45, 46, 47, 48, 50, 55}

  lemma {:induction false} Pow2Monotone(a: nat, b: nat)
    requires a <= b
    ensures Pow2(a) <= Pow2(b)
    decreases b
  {
    if a < b { Pow2Monotone(a, b - 1); }
  }

  lemma Pow2Values()
    ensures Pow2(13) == 8192 && Pow2(14) == 16384
    ensures Pow2(43) == 8796093022208
  {
    assert Pow2(8) == 256;
    assert Pow2(16) == 65536;
    assert Pow2(24) == 16777216;
    assert Pow2(32) == 4294967296;
    assert Pow2(40) == 1099511627776;
  }

  lemma SafeDuration(attempt: nat)
    requires attempt <= 44
    ensures ExponentialDuration(attempt) == Backoff(attempt)
  {
    if attempt > 0 {
      Pow2Values();
      Pow2Monotone(attempt - 1, 43);
    }
  }

  /** Two overflowing multiplications are one. */
  lemma WrapProduct(x: int, k: int)
    ensures Wrap(Wrap(x) * k) == Wrap(x * k)
  {
    var q := (x + TWO_63) / TWO_64;
    assert x == Wrap(x) + TWO_64 * q;
    assert x * k + TWO_63 == (Wrap(x) * k + TWO_63) + TWO_64 * (q * k);
    ModShift(Wrap(x) * k + TWO_63, q * k, TWO_64);
  }

  lemma RawDuration(attempt: nat)
    requires 1 <= attempt <= 57
    ensures ExponentialDuration(attempt)
         == var d := Wrap(Pow2(attempt - 1) * MILLISECOND); if d > MAX_DURATION then MAX_DURATION else d
  {
    WrapProduct(Pow2(attempt - 1) * 100 * 10, MICROSECOND);
  }

  lemma LargePow2(n: nat)
    requires 44 <= n <= 56
    ensures Pow2(n) == 17592186044416 * [1, 2, 4, 8, 16, 32, 64, 128, 256, 512, 1024, 2048, 4096][n - 44]
  {
    if n == 44 {
      Pow2Values();
    } else {
      LargePow2(n - 1);
    }
  }

  /** Wrap of a number known modulo 2^64. */
  lemma WrapIs(x: int, q: int, y: int)
    requires -TWO_63 <= y < TWO_63 && x == y + TWO_64 * q
    ensures Wrap(x) == y
  {
    ModShift(y + TWO_63, q, TWO_64);
  }

  lemma LargeWrap(attempt: nat, power: nat)
    requires 45 <= attempt <= 57
    requires power == 17592186044416 * [1, 2, 4, 8, 16, 32, 64, 128, 256, 512, 1024, 2048, 4096][attempt - 45]
    ensures attempt in OVERFLOWING <==> Wrap(power * MILLISECOND) < 0
    ensures attempt !in OVERFLOWING ==> Wrap(power * MILLISECOND) > MAX_DURATION
  {
    match attempt {
      case 45 => WrapIs(17592186044416000000, 1, -854558029293551616);
      case 46 => WrapIs(35184372088832000000, 2, -1709116058587103232);
      case 47 => WrapIs(70368744177664000000, 4, -3418232117174206464);
      case 48 => WrapIs(140737488355328000000, 8, -6836464234348412928);
      case 49 => WrapIs(281474976710656000000, 15, 4773815605012725760);
      case 50 => WrapIs(562949953421312000000, 31, -8899112863684100096);
      case 51 => WrapIs(1125899906842624000000, 61, 648518346341351424);
      case 52 => WrapIs(2251799813685248000000, 122, 1297036692682702848);
      case 53 => WrapIs(4503599627370496000000, 244, 2594073385365405696);
      case 54 => WrapIs(9007199254740992000000, 488, 5188146770730811392);
      case 55 => WrapIs(18014398509481984000000, 977, -8070450532247928832);
      case 56 => WrapIs(36028797018963968000000, 1953, 2305843009213693952);
      case 57 => WrapIs(72057594037927936000000, 3906, 4611686018427387904);
    }
  }

  lemma LargeDuration(attempt: nat)
    requires 45 <= attempt <= 57
    ensures attempt in OVERFLOWING <==> ExponentialDuration(attempt) < 0
    ensures attempt !in OVERFLOWING ==> ExponentialDuration(attempt) == MAX_DURATION
    ensures Backoff(attempt) == MAX_DURATION
  {
    RawDuration(attempt);
    LargePow2(attempt - 1);
    LargeWrap(attempt, Pow2(attempt - 1));
  }

  /** Exactly the attempts for which the duration is the intended one. */
  lemma BackoffExactly(attempt: nat)
    requires attempt <= 57
    ensures ExponentialDuration(attempt) == Backoff(attempt) <==> attempt !in OVERFLOWING
  {
    if attempt <= 44 { SafeDuration(attempt); } else { LargeDuration(attempt); }
  }

  /** One millisecond twice, doubling up to 8.192 seconds, then fifteen seconds. */
  lemma BackoffShape(attempt: nat)
    requires attempt <= 44
    ensures attempt <= 1 ==> ExponentialDuration(attempt) == 1_000_000
    ensures 1 <= attempt <= 13 ==> ExponentialDuration(attempt + 1) == 2 * ExponentialDuration(attempt)
    ensures attempt == 14 ==> ExponentialDuration(attempt) == 8_192_000_000
    ensures attempt >= 15 ==> ExponentialDuration(attempt) == 15_000_000_000
  {
    SafeDuration(attempt);
    Pow2Values();
    if 1 <= attempt <= 13 {
      SafeDuration(attempt + 1);
      Pow2Monotone(attempt, 13);
    } else if attempt >= 15 {
      Pow2Monotone(14, attempt - 1);
    }
  }

  /** Up to attempt 44 the backoff never shrinks and stays between 1 ms and 15 s. */
  lemma BackoffMonotone(a: nat, b: nat)
    requires a <= b <= 44
    ensures MILLISECOND <= ExponentialDuration(a) <= ExponentialDuration(b) <= MAX_DURATION
  {
    SafeDuration(a);
    SafeDuration(b);
    if a > 0 { Pow2Monotone(0, a - 1); Pow2Monotone(a - 1, b - 1); }
    else if b > 0 { Pow2Monotone(0, b - 1); }
  }

  /** The time slept after n failures in a row. */
  function SleepTotal(retryDuration: nat -> int, n: nat): int {
    if n == 0 then 0 else SleepTotal(retryDuration, n - 1) + retryDuration(n - 1)
  }

  lemma ClosedFormNext(n: nat)
    requires 2 <= n <= 45
    ensures ClosedForm(n) == ClosedForm(n - 1) + ExponentialDuration(n - 1)
  {
    SafeDuration(n - 1);
    Pow2Values();
    if n <= 15 { Pow2Monotone(n - 2, 13); } else { Pow2Monotone(14, n - 2); }
  }

  function ClosedForm(n: nat): int
    requires n >= 1
  {
    MILLISECOND * if n <= 15 then Pow2(n - 1) else 16384 + 15000 * (n - 15)
  }

  /** With ExponentialDuration, n failures in a row cost this much. */
  lemma {:induction false} SleepTotalClosedForm(retryDuration: nat -> int, n: nat)
    requires 1 <= n <= 45
    requires forall i: nat | i < n :: retryDuration(i) == ExponentialDuration(i)
    ensures SleepTotal(retryDuration, n) == ClosedForm(n)
  {
    if n == 1 {
      assert SleepTotal(retryDuration, 0) == 0;
    } else {
      hide ClosedForm, ExponentialDuration;
      SleepTotalClosedForm(retryDuration, n - 1);
      ClosedFormNext(n);
    }
  }

  // ----- what a call of Write does -----

  /** The writer's answer to one attempt, a look at the context, and a sleep. */
  datatype Event = Attempted(result: WriteResult) | Checked(cancelled: bool) | Slept(duration: int)

  /** Every attempt failed, the context was not cancelled, and the backoff was slept. */
  function FailedRounds(rs: seq<WriteResult>, retryDuration: nat -> int): seq<Event> {
    if rs == [] then [] else
    var n := |rs| - 1;
    FailedRounds(rs[..n], retryDuration) + [Attempted(rs[n]), Checked(false), Slept(retryDuration(n))]
  }

  /** All attempts before the last failed. */
  ghost predicate AllFailed(rs: seq<WriteResult>) {
    forall i | 0 <= i < |rs| :: !rs[i].Sent?
  }

  /**
    The course of one call: after some failed rounds it ends with a success,
    with a failure after which the context was cancelled, or with the last
    round that maxRetries allows.
    */
  ghost predicate Course(events: seq<Event>, rs: seq<WriteResult>, err: Option<WriteResult>,
                         retryDuration: nat -> int, maxRetries: int)
  {
    if maxRetries <= 0 then events == [] && rs == [] && err == None else
    && 1 <= |rs| <= maxRetries
    && var n := |rs| - 1;
    var last, before := rs[n], FailedRounds(rs[..n], retryDuration);
    && AllFailed(rs[..n])
    && match err
       case None => last == Sent && events == before + [Attempted(Sent)]
       case Some(e) =>
         && e == last && !last.Sent?
         && (|| events == before + [Attempted(last), Checked(true)]
             || (|rs| == maxRetries && events == FailedRounds(rs, retryDuration)))
  }

  function Attempts(events: seq<Event>): nat {
    if events == [] then 0 else
    Attempts(events[..|events| - 1]) + if events[|events| - 1].Attempted? then 1 else 0
  }

  function TimeSlept(events: seq<Event>): int {
    if events == [] then 0 else
    var last := events[|events| - 1];
    TimeSlept(events[..|events| - 1]) + if last.Slept? then last.duration else 0
  }

  lemma EventNext(events: seq<Event>, e: Event)
    ensures Attempts(events + [e]) == Attempts(events) + if e.Attempted? then 1 else 0
    ensures TimeSlept(events + [e]) == TimeSlept(events) + if e.Slept? then e.duration else 0
  {
    assert (events + [e])[..|events|] == events;
  }

  lemma {:induction false} FailedRoundsAddUp(rs: seq<WriteResult>, retryDuration: nat -> int)
    ensures Attempts(FailedRounds(rs, retryDuration)) == |rs|
    ensures TimeSlept(FailedRounds(rs, retryDuration)) == SleepTotal(retryDuration, |rs|)
    decreases |rs|
  {
    if rs != [] {
      var n := |rs| - 1;
      FailedRoundsAddUp(rs[..n], retryDuration);
      var e := FailedRounds(rs[..n], retryDuration);
      EventNext(e, Attempted(rs[n]));
      EventNext(e + [Attempted(rs[n])], Checked(false));
      EventNext(e + [Attempted(rs[n])] + [Checked(false)], Slept(retryDuration(n)));
      assert e + [Attempted(rs[n])] + [Checked(false)] + [Slept(retryDuration(n))] == FailedRounds(rs, retryDuration);
    }
  }

  lemma {:induction false} RoundsAt(rs: seq<WriteResult>, retryDuration: nat -> int)
    ensures |FailedRounds(rs, retryDuration)| == 3 * |rs|
    ensures forall i: nat | i < |rs| :: RoundAt(FailedRounds(rs, retryDuration), i, rs[i], retryDuration(i))
    decreases |rs|
  {
    if rs != [] {
      var n := |rs| - 1;
      RoundsAt(rs[..n], retryDuration);
      forall i: nat | i < n ensures RoundAt(FailedRounds(rs, retryDuration), i, rs[i], retryDuration(i)) {
        assert RoundAt(FailedRounds(rs[..n], retryDuration), i, rs[..n][i], retryDuration(i));
      }
    }
  }

  /** Events 3 i to 3 i + 2 are one failed round. */
  predicate RoundAt(events: seq<Event>, i: nat, r: WriteResult, duration: int) {
    && 3 * i + 3 <= |events|
    && events[3 * i] == Attempted(r) && events[3 * i + 1] == Checked(false) && events[3 * i + 2] == Slept(duration)
  }

  /**
    The events of a call one by one: a round for every attempt but the last,
    which nothing follows if it succeeded or the context was found cancelled,
    and which only at maxRetries ends in a round of its own.
    */
  lemma CourseEvents(
    events: seq<Event>, rs: seq<WriteResult>, err: Option<WriteResult>, retryDuration: nat -> int, maxRetries: int)
    requires maxRetries > 0 && Course(events, rs, err, retryDuration, maxRetries)
    ensures 1 <= |rs| <= maxRetries
    ensures forall i: nat | i < |rs| - 1 :: !rs[i].Sent? && RoundAt(events, i, rs[i], retryDuration(i))
    ensures var n: nat := |rs| - 1;
            && |events| > 3 * n && events[3 * n] == Attempted(rs[n])
            && (err.None? <==> rs[n].Sent?) && (err.Some? ==> err.value == rs[n])
            && (rs[n].Sent? ==> |events| == 3 * n + 1)
            && (!rs[n].Sent? ==>
                  || (|events| == 3 * n + 2 && events[3 * n + 1] == Checked(true))
                  || (|rs| == maxRetries && |events| == 3 * n + 3 && RoundAt(events, n, rs[n], retryDuration(n))))
  {
    hide FailedRounds;
    var n: nat := |rs| - 1;
    RoundsAt(rs[..n], retryDuration);
    RoundsAt(rs, retryDuration);
    forall i: nat | i < n ensures !rs[i].Sent? && RoundAt(events, i, rs[i], retryDuration(i)) {
      assert rs[..n][i] == rs[i];
      assert RoundAt(FailedRounds(rs[..n], retryDuration), i, rs[i], retryDuration(i));
      assert RoundAt(FailedRounds(rs, retryDuration), i, rs[i], retryDuration(i));
    }
    assert RoundAt(FailedRounds(rs, retryDuration), n, rs[n], retryDuration(n));
  }

  /**
    One attempt for each answer, at most maxRetries of them; a success or a
    cancellation ends the call without another sleep, and giving up comes
    after the sleep that follows the last attempt.
    */
  lemma {:induction false} RetryBounds(
    events: seq<Event>, rs: seq<WriteResult>, err: Option<WriteResult>, retryDuration: nat -> int, maxRetries: int)
    requires maxRetries > 0 && Course(events, rs, err, retryDuration, maxRetries)
    ensures Attempts(events) == |rs| <= maxRetries
    ensures TimeSlept(events) == SleepTotal(retryDuration, if events == FailedRounds(rs, retryDuration) then |rs|
                                                           else |rs| - 1)
    ensures events == FailedRounds(rs, retryDuration) ==> err.Some? && |rs| == maxRetries
  {
    var n := |rs| - 1;
    var e := FailedRounds(rs[..n], retryDuration);
    FailedRoundsAddUp(rs, retryDuration);
    FailedRoundsAddUp(rs[..n], retryDuration);
    EventNext(e, Attempted(rs[n]));
    EventNext(e + [Attempted(rs[n])], Checked(true));
    assert e + [Attempted(rs[n])] + [Checked(true)] == e + [Attempted(rs[n]), Checked(true)];
  }

  function Faults(rs: seq<WriteResult>): nat {
    if rs == [] then 0 else
    Faults(rs[..|rs| - 1]) + if rs[|rs| - 1].DialFailed? || rs[|rs| - 1].Broken? then 1 else 0
  }

  class RetryWriter {
    const writer: TCPWriter
    const retryDuration: nat -> int
    const maxRetries: int
    /** Everything the calls of Write have done, in order. */
    ghost var events: seq<Event>

    constructor (writer: TCPWriter, retryDuration: nat -> int, maxRetries: int)
      ensures this.writer == writer && this.retryDuration == retryDuration && this.maxRetries == maxRetries
      ensures events == []
    {
      this.writer, this.retryDuration, this.maxRetries, events := writer, retryDuration, maxRetries, [];
    }

    method Attempt(env: Envelope) returns (r: WriteResult, ghost msgs: seq<string>)
      requires writer.Valid()
      modifies this`events, writer
      ensures writer.Valid() && events == old(events) + [Attempted(r)]
      ensures writer.results == old(writer.results) + [r]
      ensures writer.faults == old(writer.faults) + if r.DialFailed? || r.Broken? then 1 else 0
      ensures |old(writer.conns)| <= |writer.conns| && ClosedStay(old(writer.State()), writer.State())
      ensures !r.DialFailed? ==> (r.Rejected? <==> TooLong(env, writer.hostname, writer.appId))
      ensures r.DialFailed? || r.Broken? ==> writer.conn.None?
      ensures r.Sent? ==> && Renders(writer.platform, env, writer.hostname, writer.appId, msgs)
                          && writer.conn == Some(old(writer.Target()))
                          && writer.framed[writer.conn.value] == old(writer.Before()) + msgs
    {
      hide Good, Renders;
      ghost var k;
      r, msgs, k := writer.Write(env);
      events := events + [Attempted(r)];
    }

    /** egress.ContextDone. */
    method ContextDone() returns (cancelled: bool)
      modifies this`events
      ensures events == old(events) + [Checked(cancelled)]
    {
      cancelled := *;
      events := events + [Checked(cancelled)];
    }

    /** time.Sleep. */
    method Sleep(duration: int)
      modifies this`events
      ensures events == old(events) + [Slept(duration)]
    {
      events := events + [Slept(duration)];
    }

    /**
      Write.  A nil result is None; without a positive maxRetries it is returned
      without any attempt.  `done` is what this call did and `rs` the answers
      of the writer to it.  After a success the messages of the envelope
      are the latest frames of the connection that was open at the call, or
      all frames of one dialed since.
      */
    method Write(env: Envelope)
      returns (err: Option<WriteResult>, ghost done: seq<Event>, ghost rs: seq<WriteResult>, ghost msgs: seq<string>)
      requires writer.Valid()
      modifies this`events, writer
      ensures writer.Valid() && ClosedStay(old(writer.State()), writer.State())
      ensures events == old(events) + done && writer.results == old(writer.results) + rs
      ensures Course(done, rs, err, retryDuration, maxRetries)
      ensures writer.faults == old(writer.faults) + Faults(rs)
      ensures err.Some? && err.value.Rejected? ==> TooLong(env, writer.hostname, writer.appId)
      ensures maxRetries > 0 && err.None? ==>
                && Renders(writer.platform, env, writer.hostname, writer.appId, msgs)
                && writer.conn.Some?
                && if |rs| == 1 then
                     writer.conn == Some(old(writer.Target()))
                     && writer.framed[writer.conn.value] == old(writer.Before()) + msgs
                   else
                     writer.conn.value >= |old(writer.conns)| && writer.framed[writer.conn.value] == msgs
    {
      hide Good, Renders;
      err, done, rs, msgs := None, [], [], [];
      var i := 0;
      while i < maxRetries
        invariant 0 <= i && (maxRetries > 0 ==> i <= maxRetries) && (maxRetries <= 0 ==> i == 0) && |rs| == i
        invariant events == old(events) + done && writer.results == old(writer.results) + rs
        invariant done == FailedRounds(rs, retryDuration) && AllFailed(rs)
        invariant if i == 0 then err.None? else err == Some(rs[i - 1])
        invariant writer.Valid() && ClosedStay(old(writer.State()), writer.State())
        invariant writer.faults == old(writer.faults) + Faults(rs)
        invariant i == 0 ==> writer.State() == old(writer.State())
        invariant i > 0 ==> writer.conn.None? || TooLong(env, writer.hostname, writer.appId)
        invariant i > 0 && err.value.Rejected? ==> TooLong(env, writer.hostname, writer.appId)
      {
        ghost var now, failed := writer.State(), rs;
        var r;
        r, msgs := Attempt(env);
        rs := rs + [r];
        assert rs[..i] == failed;
        ClosedStayTransitive(old(writer.State()), now, writer.State());
        if r.Sent? {
          done := done + [Attempted(r)];
          err := None;
          return;
        }
        err := Some(r);
        var cancelled := ContextDone();
        if cancelled {
          done := done + [Attempted(r), Checked(true)];
          return;
        }
        Sleep(retryDuration(i));
        done := done + [Attempted(r), Checked(false), Slept(retryDuration(i))];
        i := i + 1;
      }
    }
  }
}
