/**
  A ClientPool: one writer goroutine that tries the managers of the pool in
  rotation until one accepts the message, interleaved with the maintainer
  goroutine of every manager.
  */
module ClientPoolProtocol {
  import opened Wrappers
  import opened Arithmetic
  import opened ConnManagerProtocol
  import opened ConnManagerDelivery
  import opened ConnManagerOwnership

  /** Addition of Go ints. */
  function AddInt64(x: int64, y: int64): int64 {
    if x + y > MAX_INT64 then x + y - TWO_64
    else if x + y < MIN_INT64 then x + y + TWO_64
    else x + y
  }

  /** Go's % truncates toward zero, so the remainder has the sign of the dividend. */
  function TruncatedMod(x: int, n: nat): int
    requires n > 0
  {
    if x >= 0 then x % n else -((-x) % n)
  }

  /** The manager tried at position i of the rotation; None is an index panic. */
  function Rotation(n: nat, seed: int64, i: nat): Option<nat>
    requires i < n <= MAX_INT64
  {
    var k := TruncatedMod(AddInt64(i, seed), n);
    if k < 0 then None else Some(k)
  }

  datatype PoolPc = Idle(last: WriteResult) | Trying(seed: int64, i: nat, k: nat) | Panicked

  /**
    Trying is inside the loop of Write: position i of the rotation, manager k.
    `delivered` counts the calls of Write that returned nil.
    */
  datatype Pool = Pool(managers: seq<State>, pc: PoolPc, delivered: nat)

  datatype PoolAction = Begin(seed: int64) | WriterMoves(ok: bool) | MaintainerMoves(k: nat, choice: bool)

  /** The configuration of each manager; the agent draws its own maxWrites for every one. */
  type Configs = nat -> Config

  ghost predicate PoolConfig(cfgs: Configs, n: nat) {
    n <= MAX_INT64 && forall k: nat :: cfgs(k).writers == 1
  }

  function InitPool(cfgs: Configs, n: nat): Pool {
    Pool(seq(n, (k: nat) => Init(cfgs(k))), Idle(NotCalled), 0)
  }

  /** Continue the loop of Write at position i. */
  function TryNext(p: Pool, seed: int64, i: nat): Pool
    requires i <= |p.managers| <= MAX_INT64
  {
    if i == |p.managers| then p.(pc := Idle(Error))
    else if Rotation(|p.managers|, seed, i).None? then p.(pc := Panicked)
    else p.(pc := Trying(seed, i, Rotation(|p.managers|, seed, i).value))
  }

  /** The manager being tried has moved to state m; if its Write returned, so may the pool's. */
  function AfterWriterStep(p: Pool, m: State): Pool
    requires p.pc.Trying? && p.pc.i < |p.managers| <= MAX_INT64 && p.pc.k < |p.managers| && |m.writers| > 0
  {
    var q := p.(managers := p.managers[p.pc.k := m]);
    if m.writers[0] == Ready(Nil) then q.(pc := Idle(Nil), delivered := q.delivered + 1)
    else if m.writers[0] == Ready(Error) then
      TryNext(q, p.pc.seed, p.pc.i + 1)
    else q
  }

  function PoolStep(cfgs: Configs, p: Pool, a: PoolAction): Option<Pool>
    requires |p.managers| <= MAX_INT64
  {
    match a
    case Begin(seed) =>
      if p.pc.Idle? && seed >= 0 then Some(TryNext(p, seed, 0)) else None
    case MaintainerMoves(k, choice) =>
      if k >= |p.managers| || p.pc.Panicked? then None else
      (match MaintainerStep(cfgs(k), p.managers[k], choice)
       case None => None
       case Some(m) => Some(p.(managers := p.managers[k := m])))
    case WriterMoves(ok) =>
      if !p.pc.Trying? || p.pc.i >= |p.managers| || p.pc.k >= |p.managers|
         || |p.managers[p.pc.k].writers| == 0 then None else
      (match WriterStep(cfgs(p.pc.k), p.managers[p.pc.k], 0, ok)
       case None => None
       case Some(m) =>
         if |m.writers| == 0 then None else Some(AfterWriterStep(p, m)))
  }

  function PoolExec(cfgs: Configs, p: Pool, schedule: seq<PoolAction>): (r: Option<Pool>)
    requires |p.managers| <= MAX_INT64
    ensures r.Some? ==> |r.value.managers| == |p.managers|
    decreases |schedule|
  {
    if schedule == [] then Some(p)
    else match PoolStep(cfgs, p, schedule[0])
         case None => None
         case Some(q) => PoolExec(cfgs, q, schedule[1..])
  }

  // ----- the rotation -----

  ghost predicate TrueRotation(n: nat, seed: int64, i: nat)
    requires i < n <= MAX_INT64
  {
    Rotation(n, seed, i) == Some((seed + i) % n)
  }

  /** As long as no index has panicked, the rotation is the mathematical one, overflow included. */
  lemma RotationStaysTrue(n: nat, seed: int64, i: nat)
    requires i < n <= MAX_INT64 && seed >= 0 && Rotation(n, seed, i).Some?
    requires i > 0 ==> Rotation(n, seed, i - 1).Some?
    ensures TrueRotation(n, seed, i)
  {
    if seed + i > MAX_INT64 {
      var x := TWO_64 - seed - i;
      assert x % n == 0;
      if seed + i - 1 > MAX_INT64 {
        assert (x + 1) % n == 0;
        ModStep(x, 1, n);
      } else {
        assert x == seed + i;
      }
    }
  }

  /** Exactly when no position of the rotation can panic. */
  lemma RotationSafeExactly(n: nat, seed: int64)
    requires 0 < n <= MAX_INT64 && seed >= 0
    ensures (forall i: nat | i < n :: Rotation(n, seed, i).Some?)
       <==> (n == 1 || seed + n - 1 <= MAX_INT64 || (seed + n - 1 == MAX_INT64 + 1 && (MAX_INT64 + 1) % n == 0))
  {
    if forall i: nat | i < n :: Rotation(n, seed, i).Some? {
      if n > 1 && seed + n - 1 > MAX_INT64 {
        assert Rotation(n, seed, n - 1).Some? && Rotation(n, seed, n - 2).Some?;
        var x := TWO_64 - seed - (n - 1);
        assert x % n == 0;
        if seed + n - 2 > MAX_INT64 {
          assert (x + 1) % n == 0;
          ModStep(x, 1, n);
        }
      }
    }
  }

  /** With the agent's five managers, the largest seed panics at the second position. */
  lemma LargestSeedPanics()
    ensures Rotation(5, MAX_INT64, 0).Some? && Rotation(5, MAX_INT64, 1).None?
  {
  }

  /** The rotation tries no manager twice and leaves none out. */
  lemma RotationVisitsEachOnce(n: nat, seed: int64, k: nat)
    requires k < n <= MAX_INT64 && seed >= 0
    requires forall i: nat | i < n :: Rotation(n, seed, i).Some?
    ensures exists i: nat :: i < n && Rotation(n, seed, i) == Some(k)
    ensures forall i: nat, j: nat | i < j < n :: Rotation(n, seed, i) != Rotation(n, seed, j)
  {
    forall i: nat | i < n ensures TrueRotation(n, seed, i) {
      RotationStaysTrue(n, seed, i);
    }
    forall i: nat, j: nat | i < j < n ensures Rotation(n, seed, i) != Rotation(n, seed, j) {
      assert TrueRotation(n, seed, i) && TrueRotation(n, seed, j);
      ModStep(seed + i, j - i, n);
    }
    var i := (k - seed) % n;
    var q := (k - seed) / n;
    assert seed + i == n * -q + k;
    DivModUnique(seed + i, -q, k, n);
    assert TrueRotation(n, seed, i);
  }

  // ----- what every interleaving of the pool keeps -----

  function SendsOf(conns: seq<Conn>): nat {
    if conns == [] then 0 else SendsOf(conns[..|conns| - 1]) + conns[|conns| - 1].sends
  }

  lemma {:induction false} SendsUpdate(conns: seq<Conn>, c: nat, k: Conn)
    requires c < |conns|
    ensures SendsOf(conns[c := k]) == SendsOf(conns) - conns[c].sends + k.sends
  {
    var n := |conns| - 1;
    if c == n {
      assert conns[c := k][..n] == conns[..n];
    } else {
      assert conns[c := k][..n] == conns[..n][c := k];
      SendsUpdate(conns[..n], c, k);
    }
  }

  lemma WriterMovesSends(cfg: Config, s: State, ok: bool)
    requires |s.writers| == 1 && WriterStep(cfg, s, 0, ok).Some?
    ensures var t := WriterStep(cfg, s, 0, ok).value;
            && |t.writers| == 1
            && SendsOf(t.conns) - SendsOf(s.conns)
               == Sent(t.writers[0]) - Sent(s.writers[0]) + (if t.writers[0] == Ready(Nil) then 1 else 0)
  {
    var t := WriterStep(cfg, s, 0, ok).value;
    if !s.writers[0].Ready? && !s.writers[0].Posting? && !s.writers[0].Failing? {
      var c := s.writers[0].c;
      assert t.conns == s.conns[c := t.conns[c]];
      SendsUpdate(s.conns, c, t.conns[c]);
    }
  }

  lemma MaintainerMovesSends(cfg: Config, s: State, choice: bool)
    requires MaintainerStep(cfg, s, choice).Some?
    ensures SendsOf(MaintainerStep(cfg, s, choice).value.conns) == SendsOf(s.conns)
    ensures MaintainerStep(cfg, s, choice).value.writers == s.writers
  {
    var t := MaintainerStep(cfg, s, choice).value;
    if s.maintainer.Holding? {
      var c := s.maintainer.c;
      assert t.conns == s.conns[c := t.conns[c]];
      SendsUpdate(s.conns, c, t.conns[c]);
    } else if |t.conns| > |s.conns| {
      assert t.conns[..|s.conns|] == s.conns;
    }
  }

  function PoolSends(ms: seq<State>): nat {
    if ms == [] then 0 else SendsOf(ms[0].conns) + PoolSends(ms[1..])
  }

  lemma {:induction false} PoolSendsUpdate(ms: seq<State>, k: nat, m: State)
    requires k < |ms|
    ensures PoolSends(ms[k := m]) == PoolSends(ms) - SendsOf(ms[k].conns) + SendsOf(m.conns)
  {
    if k == 0 {
      assert ms[k := m][1..] == ms[1..];
    } else {
      assert ms[k := m][1..] == ms[1..][k - 1 := m];
      PoolSendsUpdate(ms[1..], k - 1, m);
    }
  }

  function InFlight(p: Pool): nat
    requires forall k | 0 <= k < |p.managers| :: |p.managers[k].writers| == 1
  {
    if p.pc.Trying? && p.pc.k < |p.managers| then Sent(p.managers[p.pc.k].writers[0]) else 0
  }

  /** A state of the manager's own protocol, which has one writer. */
  ghost predicate GoodManager(cfg: Config, m: State) {
    Reachable(cfg, m) && |m.writers| == 1
  }

  ghost predicate GoodManagers(cfgs: Configs, ms: seq<State>) {
    forall k: nat | k < |ms| :: GoodManager(cfgs(k), ms[k])
  }

  /** Only the writer of the manager being tried may be busy. */
  ghost predicate OthersIdle(ms: seq<State>, pc: PoolPc)
    requires forall k | 0 <= k < |ms| :: |ms[k].writers| == 1
  {
    forall k: nat | k < |ms| && !(pc.Trying? && pc.k == k) :: ms[k].writers[0].Ready?
  }

  ghost predicate ManagersGood(cfgs: Configs, p: Pool) {
    && |p.managers| <= MAX_INT64
    && GoodManagers(cfgs, p.managers)
    && OthersIdle(p.managers, p.pc)
  }

  lemma ReplaceManager(cfgs: Configs, ms: seq<State>, k: nat, m: State)
    requires k < |ms| && GoodManagers(cfgs, ms) && GoodManager(cfgs(k), m)
    ensures GoodManagers(cfgs, ms[k := m])
  {
    var ns := ms[k := m];
    forall j: nat | j < |ns| ensures GoodManager(cfgs(j), ns[j]) {
      assert j != k ==> GoodManager(cfgs(j), ms[j]);
    }
  }

  /** The manager's latest Write returned an error. */
  predicate Refuses(m: State) {
    |m.writers| == 1 && m.writers[0] == Ready(Error)
  }

  function Position(n: nat, seed: int64, j: nat): (k: nat)
    requires n > 0
    ensures k < n
  {
    (seed + j) % n
  }

  /** Position j of the rotation has been tried and its manager has refused. */
  ghost predicate RefusedAt(ms: seq<State>, seed: int64, j: nat)
    requires j < |ms| <= MAX_INT64
  {
    TrueRotation(|ms|, seed, j) && Refuses(ms[Position(|ms|, seed, j)])
  }

  ghost predicate RefusedUpTo(ms: seq<State>, seed: int64, i: nat)
    requires |ms| <= MAX_INT64
  {
    seed >= 0 && i <= |ms| && forall j: nat | j < i :: RefusedAt(ms, seed, j)
  }

  ghost predicate Everyone(ms: seq<State>) {
    forall k: nat | k < |ms| :: Refuses(ms[k])
  }

  ghost predicate LoopGood(ms: seq<State>, pc: PoolPc)
    requires |ms| <= MAX_INT64
  {
    match pc
    case Trying(seed, i, k) =>
      RefusedUpTo(ms, seed, i) && i < |ms| && TrueRotation(|ms|, seed, i) && k == Position(|ms|, seed, i)
    case Idle(last) => last.Error? ==> Everyone(ms)
    case Panicked => true
  }

  ghost predicate PoolGood(cfgs: Configs, p: Pool) {
    && ManagersGood(cfgs, p)
    && PoolSends(p.managers) == p.delivered + InFlight(p)
    && LoopGood(p.managers, p.pc)
  }

  lemma AllRefused(ms: seq<State>, seed: int64)
    requires |ms| <= MAX_INT64 && RefusedUpTo(ms, seed, |ms|)
    ensures Everyone(ms)
  {
    var n := |ms|;
    forall k: nat | k < n ensures Refuses(ms[k]) {
      forall i: nat | i < n ensures Rotation(n, seed, i).Some? {
        assert RefusedAt(ms, seed, i);
      }
      RotationVisitsEachOnce(n, seed, k);
      var i: nat :| i < n && Rotation(n, seed, i) == Some(k);
      assert RefusedAt(ms, seed, i);
    }
  }

  lemma TryNextLoopGood(p: Pool, seed: int64, i: nat)
    requires |p.managers| <= MAX_INT64 && RefusedUpTo(p.managers, seed, i)
    ensures LoopGood(p.managers, TryNext(p, seed, i).pc)
    ensures TryNext(p, seed, i).pc.Trying? ==> TryNext(p, seed, i).pc.k < |p.managers|
  {
    var n := |p.managers|;
    if i == n {
      AllRefused(p.managers, seed);
    } else if Rotation(n, seed, i).Some? {
      if i > 0 { assert RefusedAt(p.managers, seed, i - 1); }
      RotationStaysTrue(n, seed, i);
    }
  }

  lemma TryNextGood(cfgs: Configs, p: Pool, seed: int64, i: nat)
    requires |p.managers| <= MAX_INT64 && RefusedUpTo(p.managers, seed, i)
    requires GoodManagers(cfgs, p.managers) && OthersIdle(p.managers, Panicked)
    requires PoolSends(p.managers) == p.delivered
    ensures PoolGood(cfgs, TryNext(p, seed, i))
  {
    TryNextLoopGood(p, seed, i);
  }

  /** What the manager being tried does leaves the earlier refusals alone. */
  lemma KeepRefused(ms: seq<State>, seed: int64, i: nat, k: nat, m: State)
    requires i < |ms| <= MAX_INT64 && RefusedUpTo(ms, seed, i) && k < |ms| && k == Position(|ms|, seed, i)
    ensures RefusedUpTo(ms[k := m], seed, i)
  {
    hide TrueRotation, Position;
    var more := ms[k := m];
    forall j: nat | j < i ensures RefusedAt(more, seed, j) {
      assert RefusedAt(ms, seed, j);
      OtherPosition(|ms|, seed, j, i);
      KeepRefusal(ms, seed, j, k, m);
    }
  }

  lemma OtherPosition(n: nat, seed: int64, j: nat, i: nat)
    requires j < i < n
    ensures Position(n, seed, j) != Position(n, seed, i)
  {
    ModStep(seed + j, i - j, n);
  }

  lemma KeepRefusal(ms: seq<State>, seed: int64, j: nat, k: nat, m: State)
    requires j < |ms| <= MAX_INT64 && k < |ms| && RefusedAt(ms, seed, j)
    requires Position(|ms|, seed, j) != k || m.writers == ms[k].writers
    ensures RefusedAt(ms[k := m], seed, j)
  {
    hide TrueRotation, Position;
  }

  lemma OneMoreRefused(ms: seq<State>, seed: int64, i: nat, k: nat)
    requires i < |ms| <= MAX_INT64 && RefusedUpTo(ms, seed, i) && TrueRotation(|ms|, seed, i)
    requires k < |ms| && k == Position(|ms|, seed, i) && Refuses(ms[k])
    ensures RefusedUpTo(ms, seed, i + 1)
  {
    hide TrueRotation, Position;
    assert RefusedAt(ms, seed, i);
  }

  /** What a maintainer does leaves all refusals alone. */
  lemma MaintainerKeepsRefused(ms: seq<State>, pc: PoolPc, k: nat, m: State)
    requires |ms| <= MAX_INT64 && k < |ms| && LoopGood(ms, pc) && m.writers == ms[k].writers
    ensures LoopGood(ms[k := m], pc)
  {
    hide TrueRotation, Position;
    var more := ms[k := m];
    if pc.Trying? {
      forall j: nat | j < pc.i ensures RefusedAt(more, pc.seed, j) {
        assert RefusedAt(ms, pc.seed, j);
        KeepRefusal(ms, pc.seed, j, k, m);
      }
    } else if pc == Idle(Error) {
      forall j: nat | j < |more| ensures Refuses(more[j]) { assert Refuses(ms[j]); }
    }
  }

  lemma IdleKept(ms: seq<State>, pc: PoolPc, m: State, more: seq<State>)
    requires (forall k | 0 <= k < |ms| :: |ms[k].writers| == 1) && |m.writers| == 1
    requires pc.Trying? && pc.k < |ms| && OthersIdle(ms, pc) && more == ms[pc.k := m]
    ensures forall k | 0 <= k < |more| :: |more[k].writers| == 1
    ensures OthersIdle(more, pc)
    ensures m.writers[0].Ready? ==> OthersIdle(more, Idle(Nil)) && OthersIdle(more, Panicked)
  {
  }

  /** What PoolGood says of a pool in the middle of a call, without its ingredients. */
  lemma WhileTrying(cfgs: Configs, p: Pool)
    requires PoolGood(cfgs, p) && p.pc.Trying?
    ensures |p.managers| <= MAX_INT64 && GoodManagers(cfgs, p.managers) && p.pc.i < |p.managers|
    ensures p.pc.k < |p.managers| && p.pc.k == Position(|p.managers|, p.pc.seed, p.pc.i)
    ensures RefusedUpTo(p.managers, p.pc.seed, p.pc.i) && TrueRotation(|p.managers|, p.pc.seed, p.pc.i)
    ensures forall k | 0 <= k < |p.managers| :: |p.managers[k].writers| == 1
    ensures OthersIdle(p.managers, p.pc)
    ensures PoolSends(p.managers) == p.delivered + Sent(p.managers[p.pc.k].writers[0])
  {
    hide PoolSends, Position, TrueRotation, Reachable;
    forall k: nat | k < |p.managers| ensures |p.managers[k].writers| == 1 {
      assert GoodManager(cfgs(k), p.managers[k]);
    }
  }

  lemma DeliveredGood(cfgs: Configs, p: Pool)
    requires |p.managers| <= MAX_INT64 && GoodManagers(cfgs, p.managers) && p.pc == Idle(Nil)
    requires (forall k | 0 <= k < |p.managers| :: |p.managers[k].writers| == 1) && OthersIdle(p.managers, p.pc)
    requires PoolSends(p.managers) == p.delivered
    ensures PoolGood(cfgs, p)
  {
    hide PoolSends, Reachable;
  }

  lemma StillTrying(cfgs: Configs, p: Pool)
    requires |p.managers| <= MAX_INT64 && GoodManagers(cfgs, p.managers) && p.pc.Trying? && p.pc.i < |p.managers|
    requires p.pc.k < |p.managers| && p.pc.k == Position(|p.managers|, p.pc.seed, p.pc.i)
    requires RefusedUpTo(p.managers, p.pc.seed, p.pc.i) && TrueRotation(|p.managers|, p.pc.seed, p.pc.i)
    requires (forall k | 0 <= k < |p.managers| :: |p.managers[k].writers| == 1) && OthersIdle(p.managers, p.pc)
    requires PoolSends(p.managers) == p.delivered + Sent(p.managers[p.pc.k].writers[0])
    ensures PoolGood(cfgs, p)
  {
    hide PoolSends, Position, TrueRotation, Reachable;
  }

  lemma AfterWriterStepGood(cfgs: Configs, p: Pool, m: State)
    requires PoolGood(cfgs, p) && p.pc.Trying? && GoodManager(cfgs(p.pc.k), m)
    requires SendsOf(m.conns) - SendsOf(p.managers[p.pc.k].conns)
          == Sent(m.writers[0]) - Sent(p.managers[p.pc.k].writers[0]) + (if m.writers[0] == Ready(Nil) then 1 else 0)
    ensures PoolGood(cfgs, AfterWriterStep(p, m))
  {
    hide PoolGood, LoopGood, ManagersGood, PoolSends, SendsOf, Reachable, TrueRotation, RefusedUpTo;
    hide Position, OthersIdle, GoodManagers, TryNext, Rotation, AddInt64, TruncatedMod;
    WhileTrying(cfgs, p);
    var ms := p.managers[p.pc.k := m];
    KeepRefused(p.managers, p.pc.seed, p.pc.i, p.pc.k, m);
    PoolSendsUpdate(p.managers, p.pc.k, m);
    ReplaceManager(cfgs, p.managers, p.pc.k, m);
    IdleKept(p.managers, p.pc, m, ms);
    if m.writers[0] == Ready(Nil) {
      DeliveredGood(cfgs, AfterWriterStep(p, m));
    } else if m.writers[0] == Ready(Error) {
      OneMoreRefused(ms, p.pc.seed, p.pc.i, p.pc.k);
      TryNextGood(cfgs, p.(managers := ms), p.pc.seed, p.pc.i + 1);
    } else {
      StillTrying(cfgs, AfterWriterStep(p, m));
    }
  }

  lemma WriterKeepsPoolGood(cfgs: Configs, p: Pool, ok: bool)
    requires PoolGood(cfgs, p) && PoolStep(cfgs, p, WriterMoves(ok)).Some?
    ensures PoolGood(cfgs, PoolStep(cfgs, p, WriterMoves(ok)).value)
  {
    var s, cfg := p.managers[p.pc.k], cfgs(p.pc.k);
    assert GoodManager(cfg, s);
    ReachableStep(cfg, s, Write(0, ok));
    WriterMovesSends(cfg, s, ok);
    AfterWriterStepGood(cfgs, p, WriterStep(cfg, s, 0, ok).value);
  }

  lemma MaintainerKeepsPoolGood(cfgs: Configs, p: Pool, k: nat, choice: bool)
    requires PoolGood(cfgs, p) && PoolStep(cfgs, p, MaintainerMoves(k, choice)).Some?
    ensures PoolGood(cfgs, PoolStep(cfgs, p, MaintainerMoves(k, choice)).value)
  {
    var s, cfg := p.managers[k], cfgs(k);
    assert GoodManager(cfg, s);
    ReachableStep(cfg, s, Maintain(choice));
    MaintainerMovesSends(cfg, s, choice);
    var m := MaintainerStep(cfg, s, choice).value;
    PoolSendsUpdate(p.managers, k, m);
    ReplaceManager(cfgs, p.managers, k, m);
    MaintainerKeepsRefused(p.managers, p.pc, k, m);
    hide LoopGood;
  }

  lemma InitPoolGood(cfgs: Configs, n: nat)
    requires PoolConfig(cfgs, n)
    ensures PoolGood(cfgs, InitPool(cfgs, n))
  {
    forall k: nat | k < n ensures GoodManager(cfgs(k), Init(cfgs(k))) {
      assert Exec(cfgs(k), Init(cfgs(k)), []) == Some(Init(cfgs(k)));
    }
    NoSendsYet(InitPool(cfgs, n).managers);
  }

  lemma {:induction false} NoSendsYet(ms: seq<State>)
    requires forall k | 0 <= k < |ms| :: ms[k].conns == []
    ensures PoolSends(ms) == 0
  {
    if ms != [] {
      NoSendsYet(ms[1..]);
    }
  }

  lemma PoolGoodManagers(cfgs: Configs, p: Pool)
    requires PoolGood(cfgs, p)
    ensures |p.managers| <= MAX_INT64 && GoodManagers(cfgs, p.managers)
  {
  }

  lemma PoolStepGood(cfgs: Configs, p: Pool, a: PoolAction)
    requires PoolGood(cfgs, p) && PoolStep(cfgs, p, a).Some?
    ensures PoolGood(cfgs, PoolStep(cfgs, p, a).value)
  {
    match a {
      case Begin(seed) => TryNextGood(cfgs, p, seed, 0);
      case WriterMoves(ok) => WriterKeepsPoolGood(cfgs, p, ok);
      case MaintainerMoves(k, choice) => MaintainerKeepsPoolGood(cfgs, p, k, choice);
    }
  }

  lemma {:induction false} PoolExecGood(cfgs: Configs, p: Pool, schedule: seq<PoolAction>)
    requires PoolGood(cfgs, p) && PoolExec(cfgs, p, schedule).Some?
    ensures PoolGood(cfgs, PoolExec(cfgs, p, schedule).value)
    decreases |schedule|
  {
    if schedule != [] {
      PoolStepGood(cfgs, p, schedule[0]);
      PoolExecGood(cfgs, PoolStep(cfgs, p, schedule[0]).value, schedule[1..]);
    }
  }

  /**
    In every interleaving the successful sends of the whole pool are the calls
    of Write that returned nil, plus one while the current call owes its nil:
    no message is sent twice, and none that was sent is reported as failed.
    A call returns an error only after every manager has refused the message.
    */
  lemma ExactlyOneOrNone(cfgs: Configs, n: nat, schedule: seq<PoolAction>)
    requires PoolConfig(cfgs, n) && PoolExec(cfgs, InitPool(cfgs, n), schedule).Some?
    ensures var p := PoolExec(cfgs, InitPool(cfgs, n), schedule).value;
            && (p.pc.Idle? ==> PoolSends(p.managers) == p.delivered)
            && (p.pc.Panicked? ==> PoolSends(p.managers) == p.delivered)
            && p.delivered <= PoolSends(p.managers) <= p.delivered + 1
            && (p.pc == Idle(Error) ==>
                  forall k: nat | k < n :: |p.managers[k].writers| == 1 && p.managers[k].writers[0] == Ready(Error))
  {
    InitPoolGood(cfgs, n);
    PoolExecGood(cfgs, InitPool(cfgs, n), schedule);
  }

  // ----- open connections of the pool -----

  function OpenTotal(ms: seq<State>): nat {
    if ms == [] then 0 else |Open(ms[0])| + OpenTotal(ms[1..])
  }

  function BusyWriters(ms: seq<State>): nat {
    if ms == [] then 0 else ClosingCount(ms[0].writers) + BusyWriters(ms[1..])
  }

  /** The configurations of all managers but the first. */
  function Later(cfgs: Configs): Configs {
    (k: nat) => cfgs(k + 1)
  }

  lemma LaterManagersGood(cfgs: Configs, ms: seq<State>)
    requires ms != [] && GoodManagers(cfgs, ms)
    ensures GoodManager(cfgs(0), ms[0]) && GoodManagers(Later(cfgs), ms[1..])
  {
    forall k: nat | k < |ms[1..]| ensures GoodManager(Later(cfgs)(k), ms[1..][k]) {
      assert GoodManager(cfgs(k + 1), ms[k + 1]);
    }
  }

  lemma {:induction false} OpenTotalBound(cfgs: Configs, ms: seq<State>)
    requires (forall k: nat :: SafeConfig(cfgs(k))) && GoodManagers(cfgs, ms)
    ensures OpenTotal(ms) <= |ms| + BusyWriters(ms)
    decreases |ms|
  {
    if ms != [] {
      LaterManagersGood(cfgs, ms);
      OpenBound(cfgs(0), ms[0]);
      OpenTotalBound(Later(cfgs), ms[1..]);
    }
  }

  lemma {:induction false} OneBusyWriter(ms: seq<State>, k: int)
    requires forall j: nat | j < |ms| :: |ms[j].writers| == 1
    requires forall j: nat | j < |ms| && j != k :: ms[j].writers[0].Ready?
    ensures BusyWriters(ms) <= if 0 <= k then 1 else 0
  {
    if ms != [] {
      assert ms[0].writers[1..] == [];
      assert ClosingCount(ms[0].writers) == if ms[0].writers[0].Closing? then 1 else 0;
      forall j: nat | j < |ms[1..]|
        ensures |ms[1..][j].writers| == 1 && (j != k - 1 ==> ms[1..][j].writers[0].Ready?)
      {
        assert ms[1..][j] == ms[j + 1];
      }
      OneBusyWriter(ms[1..], k - 1);
    }
  }

  /** A pool of n managers never has more than n + 1 open connections. */
  lemma PoolOpenBound(cfgs: Configs, n: nat, schedule: seq<PoolAction>)
    requires PoolConfig(cfgs, n) && PoolExec(cfgs, InitPool(cfgs, n), schedule).Some?
    ensures var p := PoolExec(cfgs, InitPool(cfgs, n), schedule).value;
            OpenTotal(p.managers) <= n + if p.pc.Trying? then 1 else 0
  {
    InitPoolGood(cfgs, n);
    PoolExecGood(cfgs, InitPool(cfgs, n), schedule);
    var p := PoolExec(cfgs, InitPool(cfgs, n), schedule).value;
    OpenTotalBound(cfgs, p.managers);
    var k := if p.pc.Trying? then p.pc.k else -1;
    OneBusyWriter(p.managers, k);
  }

  // ----- the gauges of the pool -----

  function ConnectionsSum(ms: seq<State>): int {
    if ms == [] then 0 else ms[0].connections + ConnectionsSum(ms[1..])
  }

  function StreamsSum(ms: seq<State>): int {
    if ms == [] then 0 else ms[0].streams + StreamsSum(ms[1..])
  }

  /** Fetched connections of all managers that have raised the gauge and not yet lowered it. */
  ghost function CountedTotal(cfgs: Configs, ms: seq<State>, q: Quantity): nat
    decreases |ms|
  {
    if ms == [] then 0 else |Counted(cfgs(0), ms[0], q)| + CountedTotal(Later(cfgs), ms[1..], q)
  }

  lemma {:induction false} SumsAreCounted(cfgs: Configs, ms: seq<State>)
    requires (forall k: nat :: SafeConfig(cfgs(k))) && GoodManagers(cfgs, ms)
    ensures ConnectionsSum(ms) == CountedTotal(cfgs, ms, ConnectionsGauge)
    ensures StreamsSum(ms) == CountedTotal(cfgs, ms, StreamsGauge)
    decreases |ms|
  {
    if ms != [] {
      LaterManagersGood(cfgs, ms);
      GaugesExact(cfgs(0), ms[0]);
      SumsAreCounted(Later(cfgs), ms[1..]);
    }
  }

  /** What the managers of a pool have added to their shared gauges counts exactly their connections. */
  lemma PoolGaugesExact(cfgs: Configs, n: nat, schedule: seq<PoolAction>)
    requires PoolConfig(cfgs, n) && PoolExec(cfgs, InitPool(cfgs, n), schedule).Some?
    ensures var ms := PoolExec(cfgs, InitPool(cfgs, n), schedule).value.managers;
            && ConnectionsSum(ms) == CountedTotal(cfgs, ms, ConnectionsGauge)
            && StreamsSum(ms) == CountedTotal(cfgs, ms, StreamsGauge)
  {
    hide PoolGood;
    InitPoolGood(cfgs, n);
    PoolExecGood(cfgs, InitPool(cfgs, n), schedule);
    PoolGoodManagers(cfgs, PoolExec(cfgs, InitPool(cfgs, n), schedule).value);
    SumsAreCounted(cfgs, PoolExec(cfgs, InitPool(cfgs, n), schedule).value.managers);
  }
}
