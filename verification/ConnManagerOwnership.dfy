/**
  Who owns each connection.  Every connection has exactly one owner in every
  run if and only if the manager has at most one writer, or recycles by
  compare-and-swap and never sees a failing Send.
  */
module ConnManagerOwnership {
  import opened Wrappers
  import opened ConnManagerProtocol
  import opened ConnManagerInvariants

  /**
    Three quantities are counted alike: the owners of a connection, and its
    share of the connection gauge and of the stream gauge.
    */
  datatype Quantity = Owners | ConnectionsGauge | StreamsGauge

  function PointerShare(conn: Option<nat>, c: nat): nat {
    if conn == Some(c) then 1 else 0
  }

  /** A detached connection counts until the writer has taken back its part of the quantity. */
  function WriterShare(q: Quantity, pc: WriterPc, c: nat): nat {
    if pc.Closing? && pc.c == c
       && (q.Owners? || pc.stage.DecConnections? || (q.StreamsGauge? && pc.stage.DecStreams?))
    then 1 else 0
  }

  function WritersShare(q: Quantity, pcs: seq<WriterPc>, c: nat): nat {
    if pcs == [] then 0 else WriterShare(q, pcs[0], c) + WritersShare(q, pcs[1..], c)
  }

  function MaintainerShare(v: Version, q: Quantity, m: MaintainerPc, c: nat): nat {
    if m.Holding? && m.c == c
       && (match q
           case Owners => true
           case ConnectionsGauge =>
             m.stage.IncStreams? || m.stage.Storing? || m.stage.UndoConnections? || (v.V1? && m.stage.OpenStream?)
           case StreamsGauge => m.stage.Storing?)
    then 1 else 0
  }

  /** What the connection's own history says the shares must add up to. */
  function Due(q: Quantity, k: Conn): int {
    match q
    case Owners => 1 - k.closes
    case ConnectionsGauge => k.connectionsUp
    case StreamsGauge => k.streamsUp
  }

  function Shares(cfg: Config, s: State, q: Quantity, c: nat): nat {
    PointerShare(s.conn, c) + MaintainerShare(cfg.version, q, s.maintainer, c) + WritersShare(q, s.writers, c)
  }

  ghost predicate Balanced(cfg: Config, s: State, q: Quantity, c: nat)
    requires c < |s.conns|
  {
    Shares(cfg, s, q, c) == Due(q, s.conns[c])
  }

  /**
    Every dialed connection is exactly one of: held by the maintainer,
    installed, detached by one writer that has not closed it, or closed once.
    */
  ghost predicate OneOwnerEach(cfg: Config, s: State) {
    forall c: nat | c < |s.conns| :: Shares(cfg, s, Owners, c) + s.conns[c].closes == 1
  }

  predicate SafeConfig(cfg: Config) {
    cfg.writers <= 1 || (cfg.version.V1? && !cfg.sendsMayFail)
  }

  /** What makes an unconditional store of nil harmless. */
  ghost predicate Disciplined(cfg: Config, s: State) {
    forall w: nat | w < |s.writers| ::
      && (!cfg.sendsMayFail ==> !s.writers[w].Failing?)
      && (cfg.writers <= 1 ==> forall c: nat | Uses(s.writers[w], c) :: s.conn == Some(c))
  }

  ghost predicate Owned(cfg: Config, s: State) {
    && WellFormed(cfg, s)
    && Disciplined(cfg, s)
    && forall q: Quantity, c: nat | c < |s.conns| :: Balanced(cfg, s, q, c)
  }

  lemma {:induction false} WritersShareUpdate(q: Quantity, pcs: seq<WriterPc>, w: nat, pc: WriterPc, c: nat)
    requires w < |pcs|
    ensures WritersShare(q, pcs[w := pc], c)
         == WritersShare(q, pcs, c) - WriterShare(q, pcs[w], c) + WriterShare(q, pc, c)
  {
    if w == 0 {
      assert pcs[w := pc][1..] == pcs[1..];
    } else {
      assert pcs[w := pc][1..] == pcs[1..][w - 1 := pc];
      WritersShareUpdate(q, pcs[1..], w - 1, pc, c);
    }
  }

  lemma {:induction false} WritersShareZero(q: Quantity, pcs: seq<WriterPc>, c: nat)
    requires forall w | 0 <= w < |pcs| :: !Mentions(pcs[w], c)
    ensures WritersShare(q, pcs, c) == 0
  {
    if pcs != [] {
      assert !Mentions(pcs[0], c);
      WritersShareZero(q, pcs[1..], c);
    }
  }

  lemma WriterKeepsDiscipline(cfg: Config, s: State, w: nat, ok: bool)
    requires WellFormed(cfg, s) && Disciplined(cfg, s) && w < |s.writers| && WriterStep(cfg, s, w, ok).Some?
    ensures Disciplined(cfg, WriterStep(cfg, s, w, ok).value)
  {
    var t := WriterStep(cfg, s, w, ok).value;
    forall v: nat | v < |t.writers|
      ensures !cfg.sendsMayFail ==> !t.writers[v].Failing?
      ensures cfg.writers <= 1 ==> forall c: nat | Uses(t.writers[v], c) :: t.conn == Some(c)
    {
      assert cfg.writers <= 1 ==> v == w;
      if v == w && cfg.writers <= 1 {
        forall c: nat | Uses(t.writers[v], c) ensures t.conn == Some(c) {
          assert s.writers[w].Ready? || Uses(s.writers[w], c);
        }
      }
    }
  }

  /** The step that stores nil, or swaps it in, finds its own connection installed. */
  lemma DetachesItsOwn(cfg: Config, s: State, w: nat, ok: bool, c: nat)
    requires SafeConfig(cfg) && WellFormed(cfg, s) && Disciplined(cfg, s)
    requires w < |s.writers| && WriterStep(cfg, s, w, ok).Some?
    requires Uses(s.writers[w], c) && WriterStep(cfg, s, w, ok).value.writers[w].Closing?
    ensures s.conn == Some(c)
  {
  }

  /** What the stepping writer and the pointer lose or gain is what the connection's history records. */
  lemma WriterMovesShares(cfg: Config, s: State, w: nat, ok: bool, q: Quantity, c: nat)
    requires w < |s.writers| && WriterStep(cfg, s, w, ok).Some? && c < |s.conns|
    requires s.writers[w].Failing? || (s.writers[w].Recycling? && WriterStep(cfg, s, w, ok).value.writers[w].Closing?)
             ==> s.conn == Some(s.writers[w].c)
    ensures var t := WriterStep(cfg, s, w, ok).value;
            && |t.conns| == |s.conns| && t.maintainer == s.maintainer
            && t.writers == s.writers[w := t.writers[w]]
            && PointerShare(t.conn, c) + WriterShare(q, t.writers[w], c) - Due(q, t.conns[c])
            == PointerShare(s.conn, c) + WriterShare(q, s.writers[w], c) - Due(q, s.conns[c])
  {
    match s.writers[w] {
      case Ready(_) =>
      case Sending(d) =>
      case Incrementing(d) =>
      case Failing(d) =>
      case Recycling(d) =>
      case Closing(d, stage, _) => match stage { case DecConnections => case DecStreams => case CloseUnderlying => }
      case Posting(_) =>
    }
  }

  lemma WriterKeepsBalance(cfg: Config, s: State, w: nat, ok: bool, q: Quantity, c: nat)
    requires SafeConfig(cfg) && WellFormed(cfg, s) && Disciplined(cfg, s)
    requires w < |s.writers| && WriterStep(cfg, s, w, ok).Some?
    requires c < |s.conns| && Balanced(cfg, s, q, c)
    ensures |WriterStep(cfg, s, w, ok).value.conns| == |s.conns|
    ensures Balanced(cfg, WriterStep(cfg, s, w, ok).value, q, c)
  {
    if s.writers[w].Failing? || (s.writers[w].Recycling? && WriterStep(cfg, s, w, ok).value.writers[w].Closing?) {
      DetachesItsOwn(cfg, s, w, ok, s.writers[w].c);
    }
    WriterMovesShares(cfg, s, w, ok, q, c);
    WritersShareUpdate(q, s.writers, w, WriterStep(cfg, s, w, ok).value.writers[w], c);
  }

  lemma MaintainerKeepsBalance(cfg: Config, s: State, choice: bool, q: Quantity, c: nat)
    requires WellFormed(cfg, s) && MaintainerStep(cfg, s, choice).Some?
    requires c < |MaintainerStep(cfg, s, choice).value.conns|
    requires c < |s.conns| ==> Balanced(cfg, s, q, c)
    ensures Balanced(cfg, MaintainerStep(cfg, s, choice).value, q, c)
  {
    NoShareOfNext(cfg, s, q);
    PointerIsNil(cfg, s);
    hide WellFormed, WritersShare;
    if s.maintainer.Holding? {
      FetchMovesShares(cfg, s, choice, q, c);
    }
  }

  lemma FetchMovesShares(cfg: Config, s: State, choice: bool, q: Quantity, c: nat)
    requires s.maintainer.Holding? && s.maintainer.c < |s.conns| && c < |s.conns| && s.conn.None?
    requires StageExists(cfg.version, s.maintainer.stage) && MaintainerStep(cfg, s, choice).Some?
    ensures var t := MaintainerStep(cfg, s, choice).value;
            && |t.conns| == |s.conns| && t.writers == s.writers
            && PointerShare(t.conn, c) + MaintainerShare(cfg.version, q, t.maintainer, c) - Due(q, t.conns[c])
            == MaintainerShare(cfg.version, q, s.maintainer, c) - Due(q, s.conns[c])
  {
  }

  lemma NoShareOfNext(cfg: Config, s: State, q: Quantity)
    requires WellFormed(cfg, s)
    ensures WritersShare(q, s.writers, |s.conns|) == 0
  {
    forall w | 0 <= w < |s.writers| ensures !Mentions(s.writers[w], |s.conns|) {}
    WritersShareZero(q, s.writers, |s.conns|);
  }

  lemma PointerIsNil(cfg: Config, s: State)
    requires WellFormed(cfg, s)
    ensures s.maintainer.Dialing? || s.maintainer.Holding? ==> s.conn.None?
    ensures s.conn != Some(|s.conns|)
    ensures s.maintainer.Holding? ==> s.maintainer.c < |s.conns| && StageExists(cfg.version, s.maintainer.stage)
  {
  }

  lemma WriterKeepsOwned(cfg: Config, s: State, w: nat, ok: bool)
    requires SafeConfig(cfg) && Owned(cfg, s) && w < |s.writers| && WriterStep(cfg, s, w, ok).Some?
    ensures Owned(cfg, WriterStep(cfg, s, w, ok).value)
  {
    var t := WriterStep(cfg, s, w, ok).value;
    WriterKeepsWellFormed(cfg, s, w, ok);
    WriterKeepsDiscipline(cfg, s, w, ok);
    forall q: Quantity, c: nat | c < |t.conns| ensures Balanced(cfg, t, q, c) {
      WriterKeepsBalance(cfg, s, w, ok, q, c);
    }
  }

  lemma MaintainerKeepsOwned(cfg: Config, s: State, choice: bool)
    requires Owned(cfg, s) && MaintainerStep(cfg, s, choice).Some?
    ensures Owned(cfg, MaintainerStep(cfg, s, choice).value)
  {
    var t := MaintainerStep(cfg, s, choice).value;
    MaintainerKeepsWellFormed(cfg, s, choice);
    forall w: nat | w < |t.writers|
      ensures !cfg.sendsMayFail ==> !t.writers[w].Failing?
      ensures cfg.writers <= 1 ==> forall c: nat | Uses(t.writers[w], c) :: t.conn == Some(c)
    {
      if cfg.writers <= 1 {
        forall c: nat | Uses(t.writers[w], c) ensures t.conn == Some(c) {
          assert s.conn == Some(c);
        }
      }
    }
    forall q: Quantity, c: nat | c < |t.conns| ensures Balanced(cfg, t, q, c) {
      MaintainerKeepsBalance(cfg, s, choice, q, c);
    }
  }

  lemma ReachableOwned(cfg: Config, s: State)
    requires SafeConfig(cfg) && Reachable(cfg, s)
    ensures Owned(cfg, s)
  {
    var inv := (x: State) => Owned(cfg, x);
    forall x: State, w: nat, ok: bool | inv(x) && w < |x.writers| && WriterStep(cfg, x, w, ok).Some?
      ensures inv(WriterStep(cfg, x, w, ok).value) { WriterKeepsOwned(cfg, x, w, ok); }
    forall x: State, choice: bool | inv(x) && MaintainerStep(cfg, x, choice).Some?
      ensures inv(MaintainerStep(cfg, x, choice).value) { MaintainerKeepsOwned(cfg, x, choice); }
    InvariantHolds(cfg, inv, s);
  }

  // ----- the configurations that lose or double-close connections -----

  /** The first connection, freshly stored; only the gauges differ from a run's history. */
  lemma FirstConnection(cfg: Config) returns (s: State)
    ensures Reachable(cfg, s)
    ensures s.conn == Some(0) && |s.conns| == 1 && s.maintainer.Selecting? && s.tokens == 0
    ensures s.conns[0].writes == 0 && s.conns[0].closes == 0
    ensures s.writers == Init(cfg).writers
  {
    s := Init(cfg);
    assert Exec(cfg, s, []) == Some(s);
    var i := 0;
    while i < 8
      invariant 0 <= i <= 8 && Reachable(cfg, s) && s.writers == Init(cfg).writers
      invariant i == 0 ==> s == Init(cfg)
      invariant 1 <= i <= 3 ==> s.conns == [] && s.conn == None
      invariant i == 1 ==> s.maintainer.Selecting? && s.tokens == 1
      invariant i >= 2 ==> s.tokens == 0
      invariant i == 2 ==> s.maintainer.Loading?
      invariant i == 3 ==> s.maintainer.Dialing?
      invariant i >= 4 ==> |s.conns| == 1 && s.conns[0].writes == 0 && s.conns[0].closes == 0
      invariant i == 4 ==> s.maintainer == Holding(0, if cfg.version.V1? then IncConnections else OpenStream)
      invariant i == 5 ==> s.maintainer == Holding(0, if cfg.version.V1? then OpenStream else IncConnections)
      invariant i == 6 ==> s.maintainer == Holding(0, IncStreams)
      invariant i == 7 ==> s.maintainer == Holding(0, Storing)
      invariant i == 8 ==> s.conn == Some(0) && s.maintainer.Selecting?
    {
      ReachableStep(cfg, s, Maintain(i != 1));
      s := MaintainerStep(cfg, s, i != 1).value;
      i := i + 1;
    }
  }

  /** Measure of the complete writes left before an increment reaches maxWrites, wrap-around included. */
  function WritesLeft(cfg: Config, writes: int64): nat {
    if writes == MAX_INT64 then 0x2_0000_0000_0000_0000
    else if writes + 1 >= cfg.maxWrites then 0
    else cfg.maxWrites - writes
  }

  /** An undisturbed writer writes on an installed connection until it decides to recycle it. */
  lemma {:induction false} RunToRecycling(cfg: Config, s: State, w: nat) returns (t: State)
    requires Reachable(cfg, s) && w < |s.writers| && s.writers[w].Ready?
    requires s.conn == Some(0) && |s.conns| == 1
    ensures Reachable(cfg, t) && t.conn == Some(0) && |t.conns| == 1
    ensures t.writers == s.writers[w := Recycling(0)]
    decreases WritesLeft(cfg, s.conns[0].writes)
  {
    ReachableStep(cfg, s, Write(w, true));
    var s1 := WriterStep(cfg, s, w, true).value;
    ReachableStep(cfg, s1, Write(w, true));
    var s2 := WriterStep(cfg, s1, w, true).value;
    ReachableStep(cfg, s2, Write(w, true));
    t := WriterStep(cfg, s2, w, true).value;
    if t.writers[w].Ready? {
      t := RunToRecycling(cfg, t, w);
    }
  }

  /** Two writers that have detached the same connection. */
  lemma TwoOwners(cfg: Config, s: State)
    requires |s.writers| >= 2 && |s.conns| == 1
    requires s.writers[0].Closing? && s.writers[0].c == 0 && s.writers[1].Closing? && s.writers[1].c == 0
    ensures !OneOwnerEach(cfg, s)
  {
    assert s.writers[1..][0] == s.writers[1];
    assert WritersShare(Owners, s.writers, 0)
        == 1 + WriterShare(Owners, s.writers[1..][0], 0) + WritersShare(Owners, s.writers[1..][1..], 0);
    assert Shares(cfg, s, Owners, 0) >= 2;
  }

  lemma FailingWritersCollide(cfg: Config) returns (s: State)
    requires cfg.writers >= 2 && cfg.sendsMayFail
    ensures Reachable(cfg, s) && !OneOwnerEach(cfg, s)
  {
    s := FirstConnection(cfg);
    var turns := [0, 1, 0, 1, 0, 1];
    var i := 0;
    while i < 6
      invariant 0 <= i <= 6 && Reachable(cfg, s) && |s.writers| == cfg.writers && |s.conns| == 1
      invariant i <= 4 ==> s.conn == Some(0)
      invariant s.writers[0] == (if i == 0 then Ready(NotCalled) else if i <= 2 then Sending(0)
                                 else if i <= 4 then Failing(0) else Closing(0, DecConnections, true))
      invariant s.writers[1] == (if i <= 1 then Ready(NotCalled) else if i <= 3 then Sending(0)
                                 else if i <= 5 then Failing(0) else Closing(0, DecConnections, true))
    {
      ReachableStep(cfg, s, Write(turns[i], false));
      s := WriterStep(cfg, s, turns[i], false).value;
      i := i + 1;
    }
    TwoOwners(cfg, s);
  }

  lemma PlainStoresCollide(cfg: Config) returns (s: State)
    requires cfg.writers >= 2 && cfg.version.V2?
    ensures Reachable(cfg, s) && !OneOwnerEach(cfg, s)
  {
    s := FirstConnection(cfg);
    s := RunToRecycling(cfg, s, 0);
    s := RunToRecycling(cfg, s, 1);
    ReachableStep(cfg, s, Write(0, true));
    s := WriterStep(cfg, s, 0, true).value;
    ReachableStep(cfg, s, Write(1, true));
    s := WriterStep(cfg, s, 1, true).value;
    TwoOwners(cfg, s);
  }

  /** The exact condition under which every connection has one owner in every run. */
  lemma OwnershipExactly(cfg: Config)
    ensures (forall s :: Reachable(cfg, s) ==> OneOwnerEach(cfg, s)) <==> SafeConfig(cfg)
  {
    if SafeConfig(cfg) {
      forall s | Reachable(cfg, s) ensures OneOwnerEach(cfg, s) {
        ReachableOwned(cfg, s);
        forall c: nat | c < |s.conns| ensures Shares(cfg, s, Owners, c) + s.conns[c].closes == 1 {
          assert Balanced(cfg, s, Owners, c);
        }
      }
    } else if cfg.sendsMayFail {
      var s := FailingWritersCollide(cfg);
    } else {
      var s := PlainStoresCollide(cfg);
    }
  }

  // ----- how many connections are open -----

  function Open(s: State): set<nat> {
    set c: nat | c < |s.conns| && s.conns[c].closes == 0
  }

  function ClosingCount(pcs: seq<WriterPc>): nat {
    if pcs == [] then 0 else (if pcs[0].Closing? then 1 else 0) + ClosingCount(pcs[1..])
  }

  function ClosingConns(pcs: seq<WriterPc>): set<nat> {
    if pcs == [] then {} else (if pcs[0].Closing? then {pcs[0].c} else {}) + ClosingConns(pcs[1..])
  }

  lemma {:induction false} ClosingConnsBound(pcs: seq<WriterPc>, c: nat)
    ensures |ClosingConns(pcs)| <= ClosingCount(pcs)
    ensures WritersShare(Owners, pcs, c) > 0 ==> c in ClosingConns(pcs)
  {
    if pcs != [] {
      ClosingConnsBound(pcs[1..], c);
    }
  }

  /** At most one connection is open besides those that writers have detached and not yet closed. */
  lemma OpenBound(cfg: Config, s: State)
    requires SafeConfig(cfg) && Reachable(cfg, s)
    ensures |Open(s)| <= 1 + ClosingCount(s.writers)
  {
    ReachableOwned(cfg, s);
    var held: set<nat> :=
      if s.conn.Some? then {s.conn.value} else if s.maintainer.Holding? then {s.maintainer.c} else {};
    forall c | c in Open(s) ensures c in held + ClosingConns(s.writers) {
      assert Balanced(cfg, s, Owners, c);
      ClosingConnsBound(s.writers, c);
    }
    ClosingConnsBound(s.writers, 0);
    SubsetSize(Open(s), held + ClosingConns(s.writers));
  }

  lemma {:induction false} SubsetSize(a: set<nat>, b: set<nat>)
    requires a <= b
    ensures |a| <= |b|
    decreases a
  {
    if x :| x in a {
      SubsetSize(a - {x}, b - {x});
    }
  }

  // ----- the gauges -----

  function GaugeSum(q: Quantity, conns: seq<Conn>): int {
    if conns == [] then 0 else GaugeSum(q, conns[..|conns| - 1]) + Due(q, conns[|conns| - 1])
  }

  lemma {:induction false} GaugeSumUpdate(q: Quantity, conns: seq<Conn>, c: nat, k: Conn)
    requires c < |conns|
    ensures GaugeSum(q, conns[c := k]) == GaugeSum(q, conns) - Due(q, conns[c]) + Due(q, k)
  {
    var n := |conns| - 1;
    if c == n {
      assert conns[c := k][..n] == conns[..n];
    } else {
      assert conns[c := k][..n] == conns[..n][c := k];
      GaugeSumUpdate(q, conns[..n], c, k);
    }
  }

  ghost predicate GaugesAddUp(cfg: Config, s: State) {
    WellFormed(cfg, s) && SumsMatch(s)
  }

  ghost predicate SumsMatch(s: State) {
    && s.connections == GaugeSum(ConnectionsGauge, s.conns)
    && s.streams == GaugeSum(StreamsGauge, s.conns)
  }

  lemma FetchKeepsSums(cfg: Config, s: State, c: nat, stage: FetchStage, choice: bool)
    requires SumsMatch(s) && c < |s.conns| && FetchStep(cfg, s, c, stage, choice).Some?
    ensures SumsMatch(FetchStep(cfg, s, c, stage, choice).value)
  {
    hide GaugeSum;
    var t := FetchStep(cfg, s, c, stage, choice).value;
    assert t.conns == s.conns[c := t.conns[c]];
    GaugeSumUpdate(ConnectionsGauge, s.conns, c, t.conns[c]);
    GaugeSumUpdate(StreamsGauge, s.conns, c, t.conns[c]);
  }

  lemma GaugeSumDial(q: Quantity, conns: seq<Conn>)
    ensures !q.Owners? ==> GaugeSum(q, conns + [NewConn]) == GaugeSum(q, conns)
  {
    assert (conns + [NewConn])[..|conns|] == conns;
  }

  lemma WriterKeepsGauges(cfg: Config, s: State, w: nat, ok: bool)
    requires GaugesAddUp(cfg, s) && w < |s.writers| && WriterStep(cfg, s, w, ok).Some?
    ensures GaugesAddUp(cfg, WriterStep(cfg, s, w, ok).value)
  {
    WriterKeepsWellFormed(cfg, s, w, ok);
    hide WellFormed, SumsMatch, WriterStep;
    WriterKeepsSums(cfg, s, w, ok);
  }

  lemma WriterKeepsSums(cfg: Config, s: State, w: nat, ok: bool)
    requires SumsMatch(s) && w < |s.writers| && WriterStep(cfg, s, w, ok).Some?
    ensures SumsMatch(WriterStep(cfg, s, w, ok).value)
  {
    hide GaugeSum;
    var t := WriterStep(cfg, s, w, ok).value;
    if !s.writers[w].Ready? && !s.writers[w].Posting? && !s.writers[w].Failing? {
      var c := s.writers[w].c;
      assert t.conns == s.conns[c := t.conns[c]];
      GaugeSumUpdate(ConnectionsGauge, s.conns, c, t.conns[c]);
      GaugeSumUpdate(StreamsGauge, s.conns, c, t.conns[c]);
    }
  }

  lemma MaintainerKeepsGauges(cfg: Config, s: State, choice: bool)
    requires GaugesAddUp(cfg, s) && MaintainerStep(cfg, s, choice).Some?
    ensures GaugesAddUp(cfg, MaintainerStep(cfg, s, choice).value)
  {
    MaintainerKeepsWellFormed(cfg, s, choice);
    PointerIsNil(cfg, s);
    hide WellFormed, GaugeSum, FetchStep;
    if s.maintainer.Holding? {
      FetchKeepsSums(cfg, s, s.maintainer.c, s.maintainer.stage, choice);
    } else {
      GaugeSumDial(ConnectionsGauge, s.conns);
      GaugeSumDial(StreamsGauge, s.conns);
    }
  }

  /** Connections whose Fetch has raised the gauge and whose closer has not lowered it again. */
  ghost function Counted(cfg: Config, s: State, q: Quantity): set<nat> {
    set c: nat | c < |s.conns| && Shares(cfg, s, q, c) > 0
  }

  lemma {:induction false} SumOfOnes(q: Quantity, conns: seq<Conn>, ones: set<nat>)
    requires forall c: nat | c < |conns| :: Due(q, conns[c]) == if c in ones then 1 else 0
    requires forall c | c in ones :: c < |conns|
    ensures GaugeSum(q, conns) == |ones|
    decreases |conns|
  {
    if conns == [] {
      assert ones == {};
    } else {
      var n := |conns| - 1;
      SumOfOnes(q, conns[..n], ones - {n});
    }
  }

  lemma {:induction false} SharesShrink(q: Quantity, pcs: seq<WriterPc>, c: nat)
    ensures WritersShare(q, pcs, c) <= WritersShare(Owners, pcs, c)
  {
    if pcs != [] {
      SharesShrink(q, pcs[1..], c);
    }
  }

  /** Both gauges count exactly the connections that are fetched and not yet taken back. */
  lemma GaugesExact(cfg: Config, s: State)
    requires SafeConfig(cfg) && Reachable(cfg, s)
    ensures s.connections == |Counted(cfg, s, ConnectionsGauge)|
    ensures s.streams == |Counted(cfg, s, StreamsGauge)|
  {
    ReachableOwned(cfg, s);
    var inv := (x: State) => GaugesAddUp(cfg, x);
    forall x: State, w: nat, ok: bool | inv(x) && w < |x.writers| && WriterStep(cfg, x, w, ok).Some?
      ensures inv(WriterStep(cfg, x, w, ok).value) { WriterKeepsGauges(cfg, x, w, ok); }
    forall x: State, choice: bool | inv(x) && MaintainerStep(cfg, x, choice).Some?
      ensures inv(MaintainerStep(cfg, x, choice).value) { MaintainerKeepsGauges(cfg, x, choice); }
    InvariantHolds(cfg, inv, s);
    forall q: Quantity, c: nat | c < |s.conns| && !q.Owners?
      ensures Due(q, s.conns[c]) == if c in Counted(cfg, s, q) then 1 else 0
    {
      assert Balanced(cfg, s, Owners, c) && Balanced(cfg, s, q, c);
      SharesShrink(q, s.writers, c);
    }
    SumOfOnes(ConnectionsGauge, s.conns, Counted(cfg, s, ConnectionsGauge));
    SumOfOnes(StreamsGauge, s.conns, Counted(cfg, s, StreamsGauge));
  }

  lemma {:induction false} NobodyClosing(q: Quantity, pcs: seq<WriterPc>, c: nat)
    requires forall w | 0 <= w < |pcs| :: !pcs[w].Closing?
    ensures WritersShare(q, pcs, c) == 0
  {
    if pcs != [] {
      NobodyClosing(q, pcs[1..], c);
    }
  }

  /** Once no fetch and no close is under way, both gauges are 1 with a connection installed and 0 without. */
  lemma QuietGauges(cfg: Config, s: State)
    requires SafeConfig(cfg) && Reachable(cfg, s)
    requires !s.maintainer.Holding? && forall w | 0 <= w < |s.writers| :: !s.writers[w].Closing?
    ensures s.connections == s.streams == if s.conn.Some? then 1 else 0
    ensures Open(s) == if s.conn.Some? then {s.conn.value} else {}
  {
    ReachableOwned(cfg, s);
    GaugesExact(cfg, s);
    var held: set<nat> := if s.conn.Some? then {s.conn.value} else {};
    forall q: Quantity, c: nat | c < |s.conns| ensures Shares(cfg, s, q, c) == if c in held then 1 else 0 {
      NobodyClosing(q, s.writers, c);
    }
    assert Counted(cfg, s, ConnectionsGauge) == held && Counted(cfg, s, StreamsGauge) == held;
    forall c: nat | c < |s.conns| ensures s.conns[c].closes == 0 <==> c in held {
      assert Balanced(cfg, s, Owners, c);
    }
  }

  // ----- a single writer -----

  /** What a lone writer's connection has carried. */
  ghost predicate Tallied(cfg: Config, s: State, c: nat)
    requires c < |s.conns| && |s.writers| == 1
  {
    var k := s.conns[c];
    && k.writes >= 0
    && k.sends == k.writes + (if s.writers[0] == Incrementing(c) then 1 else 0)
    && (k.recycled ==> k.writes == Threshold(cfg) && s.conn != Some(c) && !Uses(s.writers[0], c))
    && (s.writers[0] == Recycling(c) ==> k.writes == Threshold(cfg))
    && (!k.recycled && s.writers[0] != Recycling(c) ==> k.writes < Threshold(cfg))
  }

  ghost predicate AllTallied(cfg: Config, s: State) {
    && Owned(cfg, s)
    && (|s.writers| == 1 ==> forall c: nat | c < |s.conns| :: Tallied(cfg, s, c))
  }

  lemma WriterKeepsTally(cfg: Config, s: State, ok: bool, c: nat)
    requires cfg.writers == 1 && WellFormed(cfg, s) && Disciplined(cfg, s) && WriterStep(cfg, s, 0, ok).Some?
    requires c < |s.conns| && Tallied(cfg, s, c)
    ensures Tallied(cfg, WriterStep(cfg, s, 0, ok).value, c)
  {
    assert forall d: nat | Uses(s.writers[0], d) :: s.conn == Some(d);
    match s.writers[0] {
      case Ready(_) =>
      case Sending(d) =>
      case Incrementing(d) => assert Uses(s.writers[0], d);
      case Failing(d) => assert Uses(s.writers[0], d);
      case Recycling(d) => assert Uses(s.writers[0], d);
      case Closing(_, _, _) =>
      case Posting(_) =>
    }
  }

  lemma MaintainerKeepsTally(cfg: Config, s: State, choice: bool, c: nat)
    requires cfg.writers == 1 && WellFormed(cfg, s) && MaintainerStep(cfg, s, choice).Some?
    requires c < |MaintainerStep(cfg, s, choice).value.conns|
    requires c < |s.conns| ==> Tallied(cfg, s, c)
    ensures Tallied(cfg, MaintainerStep(cfg, s, choice).value, c)
  {
    if c == |s.conns| {
      assert !Mentions(s.writers[0], c);
    }
  }

  /**
    With one writer a connection is recycled after exactly the threshold number
    of successful sends, and one closed for any other reason carried fewer.
    */
  lemma RecycledExactly(cfg: Config, s: State, c: nat)
    requires cfg.writers == 1 && Reachable(cfg, s) && c < |s.conns| && s.conns[c].closes > 0
    ensures s.conns[c].recycled ==> s.conns[c].sends == Threshold(cfg)
    ensures !s.conns[c].recycled ==> s.conns[c].sends < Threshold(cfg)
    ensures cfg.maxWrites >= 1 ==> (s.conns[c].recycled <==> s.conns[c].sends == cfg.maxWrites)
    ensures cfg.maxWrites >= 1 ==> s.conns[c].sends <= cfg.maxWrites
    ensures s.conns[c].writes == s.conns[c].sends
  {
    var inv := (x: State) => AllTallied(cfg, x);
    forall x: State, w: nat, ok: bool | inv(x) && w < |x.writers| && WriterStep(cfg, x, w, ok).Some?
      ensures inv(WriterStep(cfg, x, w, ok).value)
    {
      WriterKeepsOwned(cfg, x, w, ok);
      var t := WriterStep(cfg, x, w, ok).value;
      forall d: nat | d < |t.conns| ensures Tallied(cfg, t, d) { WriterKeepsTally(cfg, x, ok, d); }
    }
    forall x: State, choice: bool | inv(x) && MaintainerStep(cfg, x, choice).Some?
      ensures inv(MaintainerStep(cfg, x, choice).value)
    {
      MaintainerKeepsOwned(cfg, x, choice);
      var t := MaintainerStep(cfg, x, choice).value;
      forall d: nat | d < |t.conns| ensures Tallied(cfg, t, d) { MaintainerKeepsTally(cfg, x, choice, d); }
    }
    InvariantHolds(cfg, inv, s);
    assert Balanced(cfg, s, Owners, c) && Tallied(cfg, s, c);
    assert forall d: nat | Uses(s.writers[0], d) :: s.conn == Some(d);
  }
}
