/**
  ClientPool.Write and ConnManager.Write as the calling goroutine executes
  them.  Before each of its steps any number of maintainer steps may happen.
  */
module ClientPool {
  import opened Wrappers
  import opened ConnManagerDelivery
  import opened ConnManagerProtocol
  import opened ConnManagerInvariants
  import opened ClientPoolProtocol

  datatype WriteOutcome = Delivered | NobodyAccepted | IndexPanic

  /** One call of a manager's Write, and whether it returned nil. */
  datatype Call = Call(k: nat, ok: bool)

  /** The control flow of ConnManager.Write, step by step; the outcome of Send is `ok`. */
  ghost predicate Successor(pc: WriterPc, ok: bool, next: WriterPc) {
    match pc
    case Ready(_) => next == Ready(Error) || next.Sending?
    case Sending(c) => next == if ok then Incrementing(c) else Failing(c)
    case Incrementing(c) => next == Recycling(c) || next == Ready(Nil)
    case Failing(c) => next == Closing(c, DecConnections, true)
    case Recycling(c) => next == Ready(Nil) || next == Closing(c, DecConnections, false)
    case Closing(c, DecConnections, err) => next == Closing(c, DecStreams, err)
    case Closing(c, DecStreams, err) => next == Closing(c, CloseUnderlying, err)
    case Closing(_, CloseUnderlying, err) => next == Posting(err)
    case Posting(err) => next == Ready(ResultOf(err))
  }

  lemma StepIsSuccessor(cfg: Config, s: State, ok: bool)
    requires |s.writers| == 1 && WriterStep(cfg, s, 0, ok).Some?
    ensures |WriterStep(cfg, s, 0, ok).value.writers| == 1
    ensures Successor(s.writers[0], ok, WriterStep(cfg, s, 0, ok).value.writers[0])
  {
  }

  /** While the channel is full, each step of the maintainer brings it closer to receiving a token. */
  lemma WaitShrinks(cfg: Config, s: State, choice: bool)
    requires WellFormed(cfg, s) && s.tokens == RESET_CAPACITY && !(s.maintainer.Selecting? && choice)
    ensures MaintainerStep(cfg, s, choice).Some?
    ensures var t := MaintainerStep(cfg, s, choice).value;
            && WellFormed(cfg, t)
            && (t.tokens < RESET_CAPACITY
                || (t.tokens == RESET_CAPACITY
                    && StepsToReceive(cfg, t.maintainer) < StepsToReceive(cfg, s.maintainer)))
  {
    MaintainerKeepsWellFormed(cfg, s, choice);
  }

  lemma FreshManagers(cfgs: Configs, n: nat)
    requires PoolConfig(cfgs, n)
    ensures var ms := InitPool(cfgs, n).managers;
            && GoodManagers(cfgs, ms) && PoolSends(ms) == 0
            && (forall k | 0 <= k < |ms| :: |ms[k].writers| == 1) && OthersIdle(ms, Panicked)
  {
    InitPoolGood(cfgs, n);
    PoolGoodManagers(cfgs, InitPool(cfgs, n));
    NoSendsYet(InitPool(cfgs, n).managers);
    hide PoolGood, PoolSends, Reachable;
  }

  class Pool {
    const cfgs: Configs
    var managers: seq<State>
    /** The calls of the managers' Write so far. */
    ghost var calls: seq<Call>

    /** Reachable managers; the caller's own writer may be busy. */
    ghost predicate Good()
      reads this
    {
      (forall k: nat :: cfgs(k).writers == 1) && |managers| <= MAX_INT64 && GoodManagers(cfgs, managers)
    }

    ghost predicate Valid()
      reads this
    {
      Good() && OthersIdle(managers, Panicked)
    }

    constructor (cfgs: Configs, n: nat)
      requires PoolConfig(cfgs, n)
      ensures Valid() && this.cfgs == cfgs && |managers| == n && PoolSends(managers) == 0 && calls == []
    {
      this.cfgs := cfgs;
      managers := InitPool(cfgs, n).managers;
      calls := [];
      new;
      hide PoolGood, PoolSends, Reachable;
      FreshManagers(cfgs, n);
    }

    /** The other goroutines: any number of maintainer steps, of any managers. */
    method Interfere()
      requires Good()
      modifies this`managers
      ensures Good() && |managers| == |old(managers)|
      ensures forall k | 0 <= k < |managers| :: managers[k].writers == old(managers)[k].writers
      ensures PoolSends(managers) == PoolSends(old(managers))
    {
      var steps: nat :| true;
      for i := 0 to steps
        invariant Good() && |managers| == |old(managers)|
        invariant forall k | 0 <= k < |managers| :: managers[k].writers == old(managers)[k].writers
        invariant PoolSends(managers) == PoolSends(old(managers))
      {
        var k: nat :| true;
        var choice: bool := *;
        if k < |managers| {
          MaintainerMove(k, choice);
        }
      }
    }

    method MaintainerMove(k: nat, choice: bool)
      requires Good() && k < |managers|
      modifies this`managers
      ensures Good() && |managers| == |old(managers)|
      ensures forall j | 0 <= j < |managers| && j != k :: managers[j] == old(managers)[j]
      ensures managers[k].writers == old(managers)[k].writers
      ensures PoolSends(managers) == PoolSends(old(managers))
      ensures MaintainerStep(cfgs(k), old(managers)[k], choice) == Some(managers[k])
           || (MaintainerStep(cfgs(k), old(managers)[k], choice) == None && managers[k] == old(managers)[k])
    {
      var cfg := cfgs(k);
      assert GoodManager(cfg, managers[k]);
      var next := MaintainerStep(cfg, managers[k], choice);
      if next.Some? {
        ReachableStep(cfg, managers[k], Maintain(choice));
        MaintainerMovesSends(cfg, managers[k], choice);
        PoolSendsUpdate(managers, k, next.value);
        ReplaceManager(cfgs, managers, k, next.value);
        managers := managers[k := next.value];
      }
    }

    /** One step of the caller inside manager k, after some interference. */
    method Advance(k: nat, ok: bool)
      requires Good() && k < |managers|
      requires !managers[k].writers[0].Posting?
      requires managers[k].writers[0].Sending? && !ok ==> cfgs(k).sendsMayFail
      modifies this`managers
      ensures Good() && |managers| == |old(managers)|
      ensures forall j | 0 <= j < |managers| && j != k :: managers[j].writers == old(managers)[j].writers
      ensures Successor(old(managers)[k].writers[0], ok, managers[k].writers[0])
      ensures PoolSends(managers) == PoolSends(old(managers)) + Sent(managers[k].writers[0])
                - Sent(old(managers)[k].writers[0]) + (if managers[k].writers[0] == Ready(Nil) then 1 else 0)
    {
      Interfere();
      var s, cfg := managers[k], cfgs(k);
      assert GoodManager(cfg, s);
      ReachableWellFormed(cfg, s);
      assert forall c: nat | Mentions(s.writers[0], c) :: c < |s.conns|;
      assert WriterStep(cfg, s, 0, ok).Some? by {
        match s.writers[0] {
          case Sending(c) => assert Mentions(s.writers[0], c);
          case Incrementing(c) => assert Mentions(s.writers[0], c);
          case Recycling(c) => assert Mentions(s.writers[0], c);
          case Closing(c, _, _) => assert Mentions(s.writers[0], c);
          case _ =>
        }
      }
      Commit(k, s, ok);
    }

    /** Store the result of an enabled writer step. */
    method Commit(k: nat, ghost s: State, ok: bool)
      requires Good() && k < |managers| && s == managers[k] && WriterStep(cfgs(k), s, 0, ok).Some?
      modifies this`managers
      ensures Good() && managers == old(managers)[k := WriterStep(cfgs(k), s, 0, ok).value]
      ensures Successor(s.writers[0], ok, managers[k].writers[0])
      ensures PoolSends(managers) == PoolSends(old(managers)) + Sent(managers[k].writers[0])
                - Sent(s.writers[0]) + (if managers[k].writers[0] == Ready(Nil) then 1 else 0)
    {
      var cfg := cfgs(k);
      assert GoodManager(cfg, managers[k]);
      ReachableStep(cfg, managers[k], ConnManagerProtocol.Write(0, ok));
      WriterMovesSends(cfg, managers[k], ok);
      StepIsSuccessor(cfg, managers[k], ok);
      var next := WriterStep(cfg, managers[k], 0, ok).value;
      PoolSendsUpdate(managers, k, next);
      ReplaceManager(cfgs, managers, k, next);
      managers := managers[k := next];
    }

    /** m.reset <- true: the caller waits while the channel is full. */
    method Post(k: nat)
      requires Good() && k < |managers| && managers[k].writers[0].Posting?
      modifies this`managers
      ensures Good() && |managers| == |old(managers)|
      ensures forall j | 0 <= j < |managers| && j != k :: managers[j].writers == old(managers)[j].writers
      ensures managers[k].writers[0] == Ready(ResultOf(old(managers)[k].writers[0].err))
      ensures PoolSends(managers) == PoolSends(old(managers))
    {
      hide PoolSends, Reachable;
      Interfere();
      var cfg := cfgs(k);
      assert GoodManager(cfg, managers[k]);
      ReachableWellFormed(cfg, managers[k]);
      while managers[k].tokens == RESET_CAPACITY
        invariant Good() && |managers| == |old(managers)|
        invariant forall j | 0 <= j < |managers| :: managers[j].writers == old(managers)[j].writers
        invariant PoolSends(managers) == PoolSends(old(managers))
        invariant WellFormed(cfg, managers[k])
        decreases if managers[k].tokens == RESET_CAPACITY then 1 + StepsToReceive(cfg, managers[k].maintainer) else 0
      {
        // The only step that can end the wait belongs to this manager's maintainer.
        var choice: bool := *;
        choice := choice && !managers[k].maintainer.Selecting?;
        WaitShrinks(cfg, managers[k], choice);
        MaintainerMove(k, choice);
      }
      Commit(k, managers[k], true);
    }

    method CloseAndPost(k: nat)
      requires Good() && k < |managers|
      requires managers[k].writers[0].Closing? && managers[k].writers[0].stage.DecConnections?
      modifies this`managers
      ensures Good() && |managers| == |old(managers)|
      ensures forall j | 0 <= j < |managers| && j != k :: managers[j].writers == old(managers)[j].writers
      ensures managers[k].writers[0] == Ready(ResultOf(old(managers)[k].writers[0].err))
      ensures PoolSends(managers) == PoolSends(old(managers))
                + (if old(managers)[k].writers[0].err then 0 else 1 - Sent(old(managers)[k].writers[0]))
    {
      Advance(k, true);
      Advance(k, true);
      Advance(k, true);
      Post(k);
    }

    /**
      ConnManager.Write on manager k, for any outcome of Send: nil is returned
      exactly when the message was sent, once.
      */
    method WriteTo(k: nat) returns (ok: bool)
      requires Valid() && k < |managers|
      modifies this
      ensures Valid() && |managers| == |old(managers)|
      ensures forall j | 0 <= j < |managers| && j != k :: managers[j].writers == old(managers)[j].writers
      ensures PoolSends(managers) == PoolSends(old(managers)) + if ok then 1 else 0
      ensures managers[k].writers[0] == Ready(if ok then Nil else Error)
      ensures calls == old(calls) + [Call(k, ok)]
    {
      ok := Deliver(k);
      calls := calls + [Call(k, ok)];
    }

    /** The body of ConnManager.Write. */
    method Deliver(k: nat) returns (ok: bool)
      requires Valid() && k < |managers|
      modifies this`managers
      ensures Valid() && |managers| == |old(managers)|
      ensures forall j | 0 <= j < |managers| && j != k :: managers[j].writers == old(managers)[j].writers
      ensures PoolSends(managers) == PoolSends(old(managers)) + if ok then 1 else 0
      ensures managers[k].writers[0] == Ready(if ok then Nil else Error)
    {
      hide PoolSends, Reachable;
      Advance(k, true);
      if managers[k].writers[0].Ready? {
        return false;
      }
      var sent: bool := *;
      sent := sent || !cfgs(k).sendsMayFail;
      Advance(k, sent);
      if !sent {
        Advance(k, true);
        CloseAndPost(k);
        return false;
      }
      Advance(k, true);
      if managers[k].writers[0].Recycling? {
        Advance(k, true);
        if managers[k].writers[0].Closing? {
          CloseAndPost(k);
        }
      }
      return true;
    }

    /**
      Write tries the managers in rotation.  Delivered means that the last one
      tried accepted the message, sent once; NobodyAccepted that every manager
      was called and refused, and nothing was sent; IndexPanic that the next
      index of the rotation is negative.
      */
    method Write(seed: int64) returns (outcome: WriteOutcome, ghost made: seq<Call>)
      requires Valid() && seed >= 0
      modifies this
      ensures Valid() && |managers| == |old(managers)|
      ensures PoolSends(managers) == PoolSends(old(managers)) + if outcome.Delivered? then 1 else 0
      ensures calls == old(calls) + made && Rotated(made, |managers|, seed, outcome.Delivered?)
      ensures outcome.Delivered? ==> made != []
      ensures outcome.NobodyAccepted? ==>
                |made| == |managers| && forall k: nat | k < |managers| :: managers[k].writers[0] == Ready(Error)
      ensures outcome.IndexPanic? ==> |made| < |managers| && Rotation(|managers|, seed, |made|).None?
    {
      hide PoolSends, TrueRotation;
      made := [];
      var n := |managers|;
      for i := 0 to n
        invariant Valid() && |managers| == |old(managers)| == n
        invariant calls == old(calls) + made && |made| == i && Rotated(made, n, seed, false)
        invariant PoolSends(managers) == PoolSends(old(managers))
        invariant forall j | 0 <= j < i :: managers[made[j].k].writers[0] == Ready(Error)
      {
        var idx := TruncatedMod(AddInt64(i, seed), n);
        if idx < 0 {
          return IndexPanic, made;
        }
        NextCall(made, n, seed, idx);
        var ok := WriteTo(idx);
        made := made + [Call(idx, ok)];
        if ok {
          return Delivered, made;
        }
      }
      forall k: nat | k < n ensures managers[k].writers[0] == Ready(Error) {
        var j := CalledAll(made, n, seed, k);
      }
      return NobodyAccepted, made;
    }
  }

  /** The calls of one Write follow the rotation, and only the last may have succeeded. */
  ghost predicate Rotated(made: seq<Call>, n: nat, seed: int64, delivered: bool) {
    && |made| <= n <= MAX_INT64
    && forall i: nat | i < |made| ::
         && made[i].k < n && TrueRotation(n, seed, i) && made[i].k == (seed + i) % n
         && (made[i].ok <==> delivered && i == |made| - 1)
  }

  lemma NextCall(made: seq<Call>, n: nat, seed: int64, idx: nat)
    requires seed >= 0 && |made| < n && Rotated(made, n, seed, false) && Rotation(n, seed, |made|) == Some(idx)
    ensures idx < n
    ensures Rotated(made + [Call(idx, true)], n, seed, true) && Rotated(made + [Call(idx, false)], n, seed, false)
  {
    if made != [] { assert TrueRotation(n, seed, |made| - 1); }
    RotationStaysTrue(n, seed, |made|);
  }

  lemma CalledAll(made: seq<Call>, n: nat, seed: int64, k: nat) returns (i: nat)
    requires seed >= 0 && |made| == n && Rotated(made, n, seed, false) && k < n
    ensures i < n && made[i].k == k
  {
    forall i: nat | i < n ensures Rotation(n, seed, i).Some? { assert TrueRotation(n, seed, i); }
    RotationVisitsEachOnce(n, seed, k);
    i :| i < n && Rotation(n, seed, i) == Some(k);
    assert TrueRotation(n, seed, i);
  }
}
