/**
  Facts that hold in every reachable state of every configuration: the shape of
  the state, the write budget, and the absence of lost wake-ups and deadlock.
  */
module ConnManagerInvariants {
  import opened Wrappers
  import opened ConnManagerProtocol

  /** The connection a writer has loaded and not yet detached or let go of. */
  ghost predicate Uses(pc: WriterPc, c: nat) {
    match pc
    case Sending(d) => d == c
    case Incrementing(d) => d == c
    case Failing(d) => d == c
    case Recycling(d) => d == c
    case _ => false
  }

  ghost predicate Mentions(pc: WriterPc, c: nat) {
    Uses(pc, c) || (pc.Closing? && pc.c == c)
  }

  ghost predicate StageExists(v: Version, stage: FetchStage) {
    v.V2? ==> !stage.UndoConnections?
  }

  /** Only the maintainer installs connections, and only over nil. */
  ghost predicate WellFormed(cfg: Config, s: State) {
    && |s.writers| == cfg.writers
    && s.tokens <= RESET_CAPACITY
    && (s.conn.Some? ==> s.conn.value < |s.conns|)
    && (forall w, c: nat | 0 <= w < |s.writers| && Mentions(s.writers[w], c) :: c < |s.conns|)
    && (s.maintainer.Starting? ==> s.conns == [] && s.tokens == 0)
    && (s.maintainer.Starting? || s.maintainer.Dialing? || s.maintainer.Holding? ==> s.conn.None?)
    && (s.maintainer.Starting? ==> forall w | 0 <= w < |s.writers| :: s.writers[w].Ready?)
    && (s.maintainer.Holding? ==>
          && s.maintainer.c == |s.conns| - 1
          && StageExists(cfg.version, s.maintainer.stage)
          && Fresh(s.conns[s.maintainer.c])
          && forall w | 0 <= w < |s.writers| :: !Mentions(s.writers[w], s.maintainer.c))
  }

  /** Nobody has sent on, recycled or closed this connection yet. */
  ghost predicate Fresh(k: Conn) {
    k.writes == 0 && k.sends == 0 && k.closes == 0 && k.over == {} && !k.recycled
  }

  lemma WriterKeepsWellFormed(cfg: Config, s: State, w: nat, ok: bool)
    requires WellFormed(cfg, s) && w < |s.writers| && WriterStep(cfg, s, w, ok).Some?
    ensures WellFormed(cfg, WriterStep(cfg, s, w, ok).value)
  {
    var t := WriterStep(cfg, s, w, ok).value;
    forall v, c: nat | 0 <= v < |t.writers| && Mentions(t.writers[v], c)
      ensures c < |t.conns| && (v != w ==> Mentions(s.writers[v], c))
    {
      if v != w {
        assert t.writers[v] == s.writers[v];
      } else if !s.writers[w].Ready? {
        assert Mentions(s.writers[w], c);
      }
    }
    if s.maintainer.Holding? {
      WriterSparesTheHeld(cfg, s, w, ok);
    }
  }

  lemma WriterSparesTheHeld(cfg: Config, s: State, w: nat, ok: bool)
    requires WellFormed(cfg, s) && s.maintainer.Holding? && w < |s.writers| && WriterStep(cfg, s, w, ok).Some?
    ensures var t, h := WriterStep(cfg, s, w, ok).value, s.maintainer.c;
            && |t.conns| == |s.conns| && t.conns[h] == s.conns[h]
            && forall v | 0 <= v < |t.writers| :: !Mentions(t.writers[v], h)
  {
    var t, h := WriterStep(cfg, s, w, ok).value, s.maintainer.c;
    assert !Mentions(s.writers[w], h);
    assert t.conns[h] == s.conns[h];
    forall v | 0 <= v < |t.writers| ensures !Mentions(t.writers[v], h) {
      if v != w { assert t.writers[v] == s.writers[v]; }
    }
  }

  lemma MaintainerKeepsWellFormed(cfg: Config, s: State, choice: bool)
    requires WellFormed(cfg, s) && MaintainerStep(cfg, s, choice).Some?
    ensures WellFormed(cfg, MaintainerStep(cfg, s, choice).value)
  {
    if s.maintainer.Holding? {
      FetchKeepsWellFormed(cfg, s, choice);
    } else {
      hide FetchStep;
      var t := MaintainerStep(cfg, s, choice).value;
      forall v, c: nat | 0 <= v < |t.writers| && Mentions(t.writers[v], c) ensures c < |s.conns| {
        assert Mentions(s.writers[v], c);
      }
    }
  }

  lemma FetchKeepsWellFormed(cfg: Config, s: State, choice: bool)
    requires WellFormed(cfg, s) && s.maintainer.Holding? && MaintainerStep(cfg, s, choice).Some?
    ensures WellFormed(cfg, MaintainerStep(cfg, s, choice).value)
  {
    hide Mentions;
  }

  lemma ReachableWellFormed(cfg: Config, s: State)
    requires Reachable(cfg, s)
    ensures WellFormed(cfg, s)
  {
    var inv := (x: State) => WellFormed(cfg, x);
    forall x: State, w: nat, ok: bool | inv(x) && w < |x.writers| && WriterStep(cfg, x, w, ok).Some?
      ensures inv(WriterStep(cfg, x, w, ok).value) { WriterKeepsWellFormed(cfg, x, w, ok); }
    forall x: State, choice: bool | inv(x) && MaintainerStep(cfg, x, choice).Some?
      ensures inv(MaintainerStep(cfg, x, choice).value) { MaintainerKeepsWellFormed(cfg, x, choice); }
    InvariantHolds(cfg, inv, s);
  }

  // ----- the write budget -----

  /** The increment after which a connection is due for recycling. */
  function Threshold(cfg: Config): int {
    if cfg.maxWrites <= 1 then 1 else cfg.maxWrites
  }

  /** A writer whose increment reached maxWrites never increments that connection again. */
  ghost predicate Retired(s: State, c: nat, w: nat)
    requires w < |s.writers|
  {
    && (Uses(s.writers[w], c) ==> s.writers[w].Recycling?)
    && (s.conn == Some(c) ==> s.writers[w] == Recycling(c))
  }

  ghost predicate BudgetAt(cfg: Config, s: State, c: nat)
    requires c < |s.conns|
  {
    && s.conns[c].writes <= Threshold(cfg) - 1 + |s.conns[c].over|
    && forall w | w in s.conns[c].over :: w < |s.writers| && Retired(s, c, w)
  }

  ghost predicate WithinBudget(cfg: Config, s: State) {
    && WellFormed(cfg, s)
    && forall c: nat | c < |s.conns| :: BudgetAt(cfg, s, c)
  }

  lemma WriterKeepsRetired(cfg: Config, s: State, w: nat, ok: bool, c: nat, v: nat)
    requires w < |s.writers| && v < |s.writers| && WriterStep(cfg, s, w, ok).Some?
    requires Retired(s, c, v)
    ensures Retired(WriterStep(cfg, s, w, ok).value, c, v)
  {
  }

  lemma WriterKeepsBudgetAt(cfg: Config, s: State, w: nat, ok: bool, c: nat)
    requires w < |s.writers| && WriterStep(cfg, s, w, ok).Some?
    requires c < |s.conns| && BudgetAt(cfg, s, c)
    ensures c < |WriterStep(cfg, s, w, ok).value.conns|
    ensures s.writers[w] != Incrementing(c) ==> BudgetAt(cfg, WriterStep(cfg, s, w, ok).value, c)
  {
    var t := WriterStep(cfg, s, w, ok).value;
    if s.writers[w] != Incrementing(c) {
      assert t.conns[c].writes == s.conns[c].writes && t.conns[c].over == s.conns[c].over;
      forall v | v in t.conns[c].over ensures v < |t.writers| && Retired(t, c, v) {
        WriterKeepsRetired(cfg, s, w, ok, c, v);
      }
    }
  }

  lemma IncrementKeepsBudgetAt(cfg: Config, s: State, w: nat, ok: bool, c: nat)
    requires w < |s.writers| && WriterStep(cfg, s, w, ok).Some?
    requires c < |s.conns| && BudgetAt(cfg, s, c) && s.writers[w] == Incrementing(c)
    ensures c < |WriterStep(cfg, s, w, ok).value.conns|
    ensures BudgetAt(cfg, WriterStep(cfg, s, w, ok).value, c)
  {
    var t := WriterStep(cfg, s, w, ok).value;
    assert w in s.conns[c].over ==> Retired(s, c, w);
    forall v | v in t.conns[c].over ensures v < |t.writers| && Retired(t, c, v) {
      if v != w { assert Retired(s, c, v); }
    }
  }

  lemma WriterKeepsBudget(cfg: Config, s: State, w: nat, ok: bool)
    requires WithinBudget(cfg, s) && w < |s.writers| && WriterStep(cfg, s, w, ok).Some?
    ensures WithinBudget(cfg, WriterStep(cfg, s, w, ok).value)
  {
    WriterKeepsWellFormed(cfg, s, w, ok);
    var t := WriterStep(cfg, s, w, ok).value;
    forall c: nat | c < |t.conns| ensures BudgetAt(cfg, t, c) {
      if s.writers[w] == Incrementing(c) {
        IncrementKeepsBudgetAt(cfg, s, w, ok, c);
      } else {
        WriterKeepsBudgetAt(cfg, s, w, ok, c);
      }
    }
  }

  lemma MaintainerKeepsBudget(cfg: Config, s: State, choice: bool)
    requires WithinBudget(cfg, s) && MaintainerStep(cfg, s, choice).Some?
    ensures WithinBudget(cfg, MaintainerStep(cfg, s, choice).value)
  {
    MaintainerKeepsWellFormed(cfg, s, choice);
    assert s.maintainer.Holding? ==> s.maintainer.c < |s.conns| && s.conns[s.maintainer.c].over == {};
    hide WellFormed;
    var t := MaintainerStep(cfg, s, choice).value;
    forall c: nat | c < |t.conns| ensures BudgetAt(cfg, t, c) {
      MaintainerKeepsBudgetAt(cfg, s, choice, c);
    }
  }

  lemma MaintainerKeepsBudgetAt(cfg: Config, s: State, choice: bool, c: nat)
    requires MaintainerStep(cfg, s, choice).Some? && c < |MaintainerStep(cfg, s, choice).value.conns|
    requires s.maintainer.Holding? ==> s.maintainer.c < |s.conns| && s.conns[s.maintainer.c].over == {}
    requires c < |s.conns| ==> BudgetAt(cfg, s, c)
    ensures BudgetAt(cfg, MaintainerStep(cfg, s, choice).value, c)
  {
    var t := MaintainerStep(cfg, s, choice).value;
    if c < |s.conns| {
      assert t.conns[c].over == s.conns[c].over && t.conns[c].writes == s.conns[c].writes;
      forall w | w in t.conns[c].over ensures w < |t.writers| && Retired(t, c, w) { assert Retired(s, c, w); }
    }
  }

  lemma {:induction false} SubsetOfRange(xs: set<nat>, n: nat)
    requires forall x | x in xs :: x < n
    ensures |xs| <= n
    decreases n
  {
    if n > 0 {
      SubsetOfRange(xs - {n - 1}, n - 1);
      assert xs <= (xs - {n - 1}) + {n - 1};
      if n - 1 in xs { assert |xs - {n - 1}| == |xs| - 1; } else { assert xs - {n - 1} == xs; }
    } else {
      assert xs == {};
    }
  }

  /**
    In every interleaving of any number of writers, with or without send errors,
    no connection's counter passes the recycling threshold by more than the
    number of writers less one.
    */
  lemma WriteBudget(cfg: Config, s: State, c: nat)
    requires Reachable(cfg, s) && c < |s.conns|
    ensures s.conns[c].writes <= Threshold(cfg) + cfg.writers - 1
    ensures cfg.maxWrites >= 1 ==> s.conns[c].writes <= cfg.maxWrites + cfg.writers - 1
  {
    var inv := (x: State) => WithinBudget(cfg, x);
    forall x: State, w: nat, ok: bool | inv(x) && w < |x.writers| && WriterStep(cfg, x, w, ok).Some?
      ensures inv(WriterStep(cfg, x, w, ok).value) { WriterKeepsBudget(cfg, x, w, ok); }
    forall x: State, choice: bool | inv(x) && MaintainerStep(cfg, x, choice).Some?
      ensures inv(MaintainerStep(cfg, x, choice).value) { MaintainerKeepsBudget(cfg, x, choice); }
    InvariantHolds(cfg, inv, s);
    assert BudgetAt(cfg, s, c);
    SubsetOfRange(s.conns[c].over, |s.writers|);
  }

  // ----- wake-ups and progress -----

  /** A writer that has detached a connection and still owes the maintainer a token. */
  ghost predicate OwesToken(pc: WriterPc) {
    pc.Closing? || pc.Posting?
  }

  /** Why the maintainer will look at a nil pointer again. */
  ghost predicate WakeUpDue(s: State) {
    || s.tokens > 0
    || (exists w :: 0 <= w < |s.writers| && OwesToken(s.writers[w]))
    || !s.maintainer.Selecting?
    || s.connectFailed
  }

  ghost predicate NoneForgotten(cfg: Config, s: State) {
    && WellFormed(cfg, s)
    && (s.conn.None? ==> WakeUpDue(s))
  }

  lemma WriterKeepsWakeUp(cfg: Config, s: State, w: nat, ok: bool)
    requires NoneForgotten(cfg, s) && w < |s.writers| && WriterStep(cfg, s, w, ok).Some?
    ensures NoneForgotten(cfg, WriterStep(cfg, s, w, ok).value)
  {
    WriterKeepsWellFormed(cfg, s, w, ok);
    var t := WriterStep(cfg, s, w, ok).value;
    if t.conn.None? {
      assert t.writers[w] == t.writers[w];
      if v :| 0 <= v < |s.writers| && OwesToken(s.writers[v]) {
        assert v != w ==> OwesToken(t.writers[v]);
      }
    }
  }

  lemma MaintainerKeepsWakeUp(cfg: Config, s: State, choice: bool)
    requires NoneForgotten(cfg, s) && MaintainerStep(cfg, s, choice).Some?
    ensures NoneForgotten(cfg, MaintainerStep(cfg, s, choice).value)
  {
    MaintainerKeepsWellFormed(cfg, s, choice);
  }

  /** Whenever m.conn is nil somebody is bound to wake the maintainer, or only the ticker is owed. */
  lemma NoLostWakeUp(cfg: Config, s: State)
    requires Reachable(cfg, s) && s.conn.None?
    ensures WakeUpDue(s)
  {
    var inv := (x: State) => NoneForgotten(cfg, x);
    forall x: State, w: nat, ok: bool | inv(x) && w < |x.writers| && WriterStep(cfg, x, w, ok).Some?
      ensures inv(WriterStep(cfg, x, w, ok).value) { WriterKeepsWakeUp(cfg, x, w, ok); }
    forall x: State, choice: bool | inv(x) && MaintainerStep(cfg, x, choice).Some?
      ensures inv(MaintainerStep(cfg, x, choice).value) { MaintainerKeepsWakeUp(cfg, x, choice); }
    InvariantHolds(cfg, inv, s);
  }

  /**
    Steps the maintainer needs, whatever its calls return, before it has
    received one token, when it prefers the reset channel to the ticker.
    */
  function StepsToReceive(cfg: Config, m: MaintainerPc): nat {
    match m
    case Starting => 2
    case Selecting => 1
    case Loading => 7
    case Dialing => 6
    case Holding(_, stage) =>
      match stage
      case IncConnections => if cfg.version.V1? then 5 else 4
      case OpenStream => if cfg.version.V1? then 4 else 5
      case IncStreams => 3
      case Storing => 2
      case UndoConnections => 3
      case CloseDialed => 2
  }

  /** A schedule of the maintainer alone that never waits for the ticker. */
  ghost predicate Untimed(cfg: Config, s: State, schedule: seq<Action>)
    decreases |schedule|
  {
    schedule == [] ||
    (&& schedule[0].Maintain?
     && (s.maintainer.Selecting? ==> !schedule[0].choice)
     && (Step(cfg, s, schedule[0]).Some? ==>
           Untimed(cfg, Step(cfg, s, schedule[0]).value, schedule[1..])))
  }

  lemma {:induction false} ReceivesAToken(cfg: Config, s: State, schedule: seq<Action>) returns (n: nat)
    requires WellFormed(cfg, s) && !s.maintainer.Starting? && s.tokens > 0
    requires Untimed(cfg, s, schedule) && |schedule| >= StepsToReceive(cfg, s.maintainer)
    ensures n <= StepsToReceive(cfg, s.maintainer)
    ensures Exec(cfg, s, schedule[..n]).Some?
    ensures Exec(cfg, s, schedule[..n]).value.tokens == s.tokens - 1
    ensures Exec(cfg, s, schedule[..n]).value.writers == s.writers
    decreases |schedule|
  {
    var t := Step(cfg, s, schedule[0]).value;
    MaintainerKeepsWellFormed(cfg, s, schedule[0].choice);
    assert s.maintainer.Holding? ==> s.maintainer.c < |s.conns| && StageExists(cfg.version, s.maintainer.stage);
    hide WellFormed;
    if s.maintainer.Selecting? {
      n := 1;
      assert schedule[..1] == [schedule[0]] && schedule[..1][1..] == [];
    } else {
      assert StepsToReceive(cfg, t.maintainer) < StepsToReceive(cfg, s.maintainer);
      var m := ReceivesAToken(cfg, t, schedule[1..]);
      n := m + 1;
      assert schedule[..n][1..] == schedule[1..][..m];
    }
  }

  /**
    The maintainer's first send never blocks; a blocked writer is one that
    waits for room in the full channel; and then every run of the maintainer
    alone makes room within seven steps, whatever its connection attempts
    return and without help from the ticker.
    */
  lemma NoDeadlock(cfg: Config, s: State, w: nat, schedule: seq<Action>)
    requires Reachable(cfg, s) && w < |s.writers|
    requires Untimed(cfg, s, schedule) && |schedule| >= 7
    ensures s.maintainer.Starting? ==> MaintainerStep(cfg, s, true).Some?
    ensures WriterStep(cfg, s, w, true).None? ==>
              && s.writers[w].Posting? && s.tokens == RESET_CAPACITY
              && exists n :: 0 <= n <= 7
                             && Exec(cfg, s, schedule[..n]).Some?
                             && w < |Exec(cfg, s, schedule[..n]).value.writers|
                             && WriterStep(cfg, Exec(cfg, s, schedule[..n]).value, w, true).Some?
  {
    ReachableWellFormed(cfg, s);
    if WriterStep(cfg, s, w, true).None? {
      assert forall c: nat | Mentions(s.writers[w], c) :: c < |s.conns|;
      assert s.writers[w].Posting? by {
        match s.writers[w] {
          case Sending(c) => assert Mentions(s.writers[w], c);
          case Incrementing(c) => assert Mentions(s.writers[w], c);
          case Recycling(c) => assert Mentions(s.writers[w], c);
          case Closing(c, _, _) => assert Mentions(s.writers[w], c);
          case _ =>
        }
      }
      var n := ReceivesAToken(cfg, s, schedule);
    }
  }

  /** Whether what is left of Fetch leads to the store when all calls succeed. */
  predicate Fetching(m: MaintainerPc) {
    m.Holding? && !m.stage.UndoConnections? && !m.stage.CloseDialed?
  }

  /** Steps until a maintainer whose calls succeed has stored a connection. */
  function StepsToConnect(cfg: Config, m: MaintainerPc): nat {
    match m
    case Starting => 8
    case Selecting => 7
    case Loading => 6
    case Dialing => 5
    case Holding(_, stage) =>
      match stage
      case IncConnections => if cfg.version.V1? then 4 else 3
      case OpenStream => if cfg.version.V1? then 3 else 4
      case IncStreams => 2
      case Storing => 1
      case UndoConnections => 9
      case CloseDialed => 8
  }

  /** How many connections the maintainer will still count on the way to the store. */
  function ConnectionsDue(cfg: Config, m: MaintainerPc): int {
    if m.Holding? && (m.stage.IncStreams? || m.stage.Storing? || m.stage.UndoConnections?
                      || (m.stage.OpenStream? && cfg.version.V1?))
    then 0 else 1
  }

  function StreamsDue(m: MaintainerPc): int {
    if m.Holding? && m.stage.Storing? then 0 else 1
  }

  /** One step of a maintainer whose calls succeed. */
  lemma ConnectStep(cfg: Config, s: State)
    requires WellFormed(cfg, s) && s.conn.None?
    requires s.tokens > 0 || s.maintainer.Starting? || StepsToConnect(cfg, s.maintainer) < 7
    ensures MaintainerStep(cfg, s, !s.maintainer.Selecting?).Some?
    ensures var t := MaintainerStep(cfg, s, !s.maintainer.Selecting?).value;
            && WellFormed(cfg, t)
            && if s.maintainer.Holding? && s.maintainer.stage.Storing? then
                 Connected(cfg, s, t) && t.tokens == s.tokens && StepsToConnect(cfg, s.maintainer) == 1
               else
                 && t.conn.None? && (t.tokens > 0 || StepsToConnect(cfg, t.maintainer) < 7)
                 && StepsToConnect(cfg, s.maintainer) == 1 + StepsToConnect(cfg, t.maintainer)
                 && (StepsToConnect(cfg, s.maintainer) < 7 ==> t.tokens == s.tokens && !s.maintainer.Selecting?)
                 && forall u :: Connected(cfg, t, u) ==> Connected(cfg, s, u)
  {
    assert s.maintainer.Holding? ==>
        s.maintainer.c == |s.conns| - 1 && StageExists(cfg.version, s.maintainer.stage);
    MaintainerKeepsWellFormed(cfg, s, !s.maintainer.Selecting?);
    hide WellFormed;
  }

  lemma {:induction false} ConnectsFrom(cfg: Config, s: State) returns (schedule: seq<Action>)
    requires WellFormed(cfg, s) && s.conn.None?
    requires s.tokens > 0 || s.maintainer.Starting? || StepsToConnect(cfg, s.maintainer) < 7
    ensures |schedule| == StepsToConnect(cfg, s.maintainer) && Untimed(cfg, s, schedule)
    ensures Exec(cfg, s, schedule).Some?
    ensures Connected(cfg, s, Exec(cfg, s, schedule).value)
    ensures StepsToConnect(cfg, s.maintainer) < 7 ==>
              && Exec(cfg, s, schedule).value.tokens == s.tokens
              && forall i | 0 <= i < |schedule| :: schedule[i] == Maintain(true)
    decreases StepsToConnect(cfg, s.maintainer)
  {
    ConnectStep(cfg, s);
    hide WellFormed, MaintainerStep, StepsToConnect, ConnectionsDue, StreamsDue, Fetching;
    var choice := !s.maintainer.Selecting?;
    var t := MaintainerStep(cfg, s, choice).value;
    if s.maintainer.Holding? && s.maintainer.stage.Storing? {
      schedule := [Maintain(choice)];
      assert schedule[1..] == [];
      assert Exec(cfg, t, schedule[1..]) == Some(t);
    } else {
      var rest := ConnectsFrom(cfg, t);
      schedule := [Maintain(choice)] + rest;
      assert schedule[1..] == rest;
    }
  }

  /** From s the maintainer has installed a new connection, counted it, and left the writers alone. */
  ghost predicate Connected(cfg: Config, s: State, t: State) {
    && t.conn == Some(|t.conns| - 1) && t.writers == s.writers && t.maintainer.Selecting? && !t.connectFailed
    && |t.conns| == |s.conns| + (if Fetching(s.maintainer) then 0 else 1)
    && t.connections == s.connections + ConnectionsDue(cfg, s.maintainer)
    && t.streams == s.streams + StreamsDue(s.maintainer)
  }

  /**
    From any reachable state with a nil pointer and a token, wherever the
    maintainer is, at most nine of its steps install a new connection if its
    calls succeed, without the ticker.
    */
  lemma Reconnects(cfg: Config, s: State) returns (schedule: seq<Action>)
    requires Reachable(cfg, s) && s.conn.None? && s.tokens > 0
    ensures |schedule| <= 9 && Untimed(cfg, s, schedule)
    ensures Exec(cfg, s, schedule).Some? && Connected(cfg, s, Exec(cfg, s, schedule).value)
  {
    ReachableWellFormed(cfg, s);
    schedule := ConnectsFrom(cfg, s);
  }

  /**
    A tick alone wakes the maintainer, tokens or not: from every reachable state
    in which it selects over a nil pointer, the tick and six successful calls
    and steps install and count a new connection, and no token is consumed.
    */
  lemma TickReconnects(cfg: Config, s: State)
    requires Reachable(cfg, s) && s.maintainer.Selecting? && s.conn.None?
    ensures var schedule := seq(7, i => Maintain(true));
            && Exec(cfg, s, schedule).Some?
            && var t := Exec(cfg, s, schedule).value;
               && t.conn == Some(|s.conns|) && |t.conns| == |s.conns| + 1
               && t.tokens == s.tokens && t.writers == s.writers
               && t.maintainer.Selecting? && !t.connectFailed
               && t.connections == s.connections + 1 && t.streams == s.streams + 1
  {
    ReachableWellFormed(cfg, s);
    var t := MaintainerStep(cfg, s, true).value;
    MaintainerKeepsWellFormed(cfg, s, true);
    var rest := ConnectsFrom(cfg, t);
    hide WellFormed;
    var schedule := [Maintain(true)] + rest;
    assert schedule[1..] == rest;
    assert schedule == seq(7, i => Maintain(true));
  }

  /** No dial and no stream of the maintainer fails along the schedule. */
  ghost predicate CallsSucceed(cfg: Config, s: State, schedule: seq<Action>)
    decreases |schedule|
  {
    schedule == [] ||
    (&& (schedule[0] == Maintain(false) ==>
           !s.maintainer.Dialing? && !(s.maintainer.Holding? && s.maintainer.stage.OpenStream?))
     && (Step(cfg, s, schedule[0]).Some? ==>
           CallsSucceed(cfg, Step(cfg, s, schedule[0]).value, schedule[1..])))
  }

  lemma {:induction false} NothingFailed(cfg: Config, s: State, schedule: seq<Action>)
    requires Exec(cfg, s, schedule).Some? && CallsSucceed(cfg, s, schedule)
    requires !s.connectFailed && (s.maintainer.Holding? ==> Fetching(s.maintainer))
    ensures !Exec(cfg, s, schedule).value.connectFailed
    decreases |schedule|
  {
    if schedule != [] {
      NothingFailed(cfg, Step(cfg, s, schedule[0]).value, schedule[1..]);
    }
  }

  /** As long as no connection attempt has failed, a nil pointer never waits for the ticker. */
  lemma AwakeWithoutFailures(cfg: Config, schedule: seq<Action>)
    requires Exec(cfg, Init(cfg), schedule).Some? && CallsSucceed(cfg, Init(cfg), schedule)
    ensures var t := Exec(cfg, Init(cfg), schedule).value;
            t.conn.None? ==>
              || t.tokens > 0
              || (exists w :: 0 <= w < |t.writers| && (t.writers[w].Closing? || t.writers[w].Posting?))
              || !t.maintainer.Selecting?
  {
    var t := Exec(cfg, Init(cfg), schedule).value;
    NothingFailed(cfg, Init(cfg), schedule);
    if t.conn.None? {
      NoLostWakeUp(cfg, t);
      if w :| 0 <= w < |t.writers| && OwesToken(t.writers[w]) {}
    }
  }
}
