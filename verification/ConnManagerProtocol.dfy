/**
  The protocol between the writer goroutines of one ConnManager and its single
  maintainer goroutine, at the grain of one shared-memory access, channel
  operation, gauge update or network call per step.

  Both generations of the code are one step function: v1 recycles a connection
  with compare-and-swap, v2 with a plain store, and the two Fetch functions
  update the shared gauges in a different order.  The scheduler, the outcome of
  every network call and the ticker are the actions that drive the machine.
  */
module ConnManagerProtocol {
  import opened Wrappers

  const MAX_INT64: int := 0x7fff_ffff_ffff_ffff
  const MIN_INT64: int := -0x8000_0000_0000_0000
  const RESET_CAPACITY: nat := 100

  type int64 = x: int | MIN_INT64 <= x <= MAX_INT64

  datatype Version = V1 | V2

  /** One deployment: how many goroutines call Write, and whether Send may fail. */
  datatype Config = Config(version: Version, writers: nat, maxWrites: int64, sendsMayFail: bool)

  /**
    A gRPC connection, numbered in the order of the successful dials.
    `writes` is the field of the source; the other fields record its history:
    successful sends, calls of the underlying Close, the increments minus the
    decrements it caused on the two gauges, the writers whose increment reached
    maxWrites, and whether a writer detached it in order to recycle it.
    */
  datatype Conn = Conn(
    writes: int64, sends: nat, closes: nat,
    connectionsUp: int, streamsUp: int,
    over: set<nat>, recycled: bool)

  const NewConn := Conn(0, 0, 0, 0, 0, {}, false)

  datatype WriteResult = NotCalled | Nil | Error

  /** decrementingCloser.Close: two gauge updates, then the underlying Close. */
  datatype CloseStage = DecConnections | DecStreams | CloseUnderlying

  /** What a writer does next; Ready is between two calls of Write. */
  datatype WriterPc =
    | Ready(last: WriteResult)
    | Sending(c: nat)
    | Incrementing(c: nat)
    | Failing(c: nat)
    | Recycling(c: nat)
    | Closing(c: nat, stage: CloseStage, err: bool)
    | Posting(err: bool)

  /** What remains of Fetch, and of the maintainer's store after it. */
  datatype FetchStage = IncConnections | OpenStream | IncStreams | Storing | UndoConnections | CloseDialed

  datatype MaintainerPc =
    | Starting
    | Selecting
    | Loading
    | Dialing
    | Holding(c: nat, stage: FetchStage)

  datatype State = State(
    conn: Option<nat>,
    conns: seq<Conn>,
    tokens: nat,
    writers: seq<WriterPc>,
    maintainer: MaintainerPc,
    connectFailed: bool,
    connections: int,
    streams: int)

  /**
    `ok` is the outcome of Send for a writer.  For the maintainer `choice`
    picks the ticker over the reset channel, or says that a call succeeded.
    */
  datatype Action = Write(w: nat, ok: bool) | Maintain(choice: bool)

  function Init(cfg: Config): State {
    State(None, [], 0, seq(cfg.writers, i => Ready(NotCalled)), Starting, false, 0, 0)
  }

  /** atomic.AddInt64(p, 1). */
  function AddOne(x: int64): int64 {
    if x == MAX_INT64 then MIN_INT64 else x + 1
  }

  function ResultOf(err: bool): WriteResult {
    if err then Error else Nil
  }

  /** One step of writer w; None when it is blocked or the outcome is excluded. */
  function WriterStep(cfg: Config, s: State, w: nat, ok: bool): Option<State>
    requires w < |s.writers|
  {
    match s.writers[w]
    case Ready(_) =>
      if s.conn.None? then Some(s.(writers := s.writers[w := Ready(Error)]))
      else Some(s.(writers := s.writers[w := Sending(s.conn.value)]))
    case Sending(c) =>
      if c >= |s.conns| || (!ok && !cfg.sendsMayFail) then None
      else if ok then
        Some(s.(conns := s.conns[c := s.conns[c].(sends := s.conns[c].sends + 1)],
                writers := s.writers[w := Incrementing(c)]))
      else Some(s.(writers := s.writers[w := Failing(c)]))
    case Failing(c) =>
      Some(s.(conn := None, writers := s.writers[w := Closing(c, DecConnections, true)]))
    case Incrementing(c) =>
      if c >= |s.conns| then None else
      var n := AddOne(s.conns[c].writes);
      if n >= cfg.maxWrites then
        Some(s.(conns := s.conns[c := s.conns[c].(writes := n, over := s.conns[c].over + {w})],
                writers := s.writers[w := Recycling(c)]))
      else
        Some(s.(conns := s.conns[c := s.conns[c].(writes := n)],
                writers := s.writers[w := Ready(Nil)]))
    case Recycling(c) =>
      if c >= |s.conns| then None
      else if cfg.version.V1? && s.conn != Some(c) then
        Some(s.(writers := s.writers[w := Ready(Nil)]))
      else
        Some(s.(conn := None,
                conns := s.conns[c := s.conns[c].(recycled := true)],
                writers := s.writers[w := Closing(c, DecConnections, false)]))
    case Closing(c, stage, err) =>
      if c >= |s.conns| then None else
      var k := s.conns[c];
      (match stage
       case DecConnections =>
         Some(s.(connections := s.connections - 1,
                 conns := s.conns[c := k.(connectionsUp := k.connectionsUp - 1)],
                 writers := s.writers[w := Closing(c, DecStreams, err)]))
       case DecStreams =>
         Some(s.(streams := s.streams - 1,
                 conns := s.conns[c := k.(streamsUp := k.streamsUp - 1)],
                 writers := s.writers[w := Closing(c, CloseUnderlying, err)]))
       case CloseUnderlying =>
         Some(s.(conns := s.conns[c := k.(closes := k.closes + 1)],
                 writers := s.writers[w := Posting(err)])))
    case Posting(err) =>
      if s.tokens == RESET_CAPACITY then None
      else Some(s.(tokens := s.tokens + 1, writers := s.writers[w := Ready(ResultOf(err))]))
  }

  /** One step of the maintainer; None when it is blocked. */
  function MaintainerStep(cfg: Config, s: State, choice: bool): Option<State> {
    match s.maintainer
    case Starting =>
      if s.tokens == RESET_CAPACITY then None
      else Some(s.(tokens := s.tokens + 1, maintainer := Selecting))
    case Selecting =>
      if choice then Some(s.(maintainer := Loading))
      else if s.tokens == 0 then None
      else Some(s.(tokens := s.tokens - 1, maintainer := Loading))
    case Loading =>
      Some(s.(maintainer := if s.conn.Some? then Selecting else Dialing))
    case Dialing =>
      if choice then
        Some(s.(conns := s.conns + [NewConn],
                maintainer := Holding(|s.conns|, if cfg.version.V1? then IncConnections else OpenStream)))
      else Some(s.(connectFailed := true, maintainer := Selecting))
    case Holding(c, stage) =>
      if c >= |s.conns| then None else FetchStep(cfg, s, c, stage, choice)
  }

  /** The part of Fetch after the dial, then the store of the new connection. */
  function FetchStep(cfg: Config, s: State, c: nat, stage: FetchStage, choice: bool): Option<State>
    requires c < |s.conns|
  {
    var k := s.conns[c];
    match stage
    case IncConnections =>
      Some(s.(connections := s.connections + 1,
              conns := s.conns[c := k.(connectionsUp := k.connectionsUp + 1)],
              maintainer := Holding(c, if cfg.version.V1? then OpenStream else IncStreams)))
    case OpenStream =>
      if choice then
        Some(s.(maintainer := Holding(c, if cfg.version.V1? then IncStreams else IncConnections)))
      else
        Some(s.(maintainer := Holding(c, if cfg.version.V1? then UndoConnections else CloseDialed)))
    case IncStreams =>
      Some(s.(streams := s.streams + 1,
              conns := s.conns[c := k.(streamsUp := k.streamsUp + 1)],
              maintainer := Holding(c, Storing)))
    case Storing =>
      Some(s.(conn := Some(c), connectFailed := false, maintainer := Selecting))
    case UndoConnections =>
      Some(s.(connections := s.connections - 1,
              conns := s.conns[c := k.(connectionsUp := k.connectionsUp - 1)],
              maintainer := Holding(c, CloseDialed)))
    case CloseDialed =>
      Some(s.(conns := s.conns[c := k.(closes := k.closes + 1)],
              connectFailed := true, maintainer := Selecting))
  }

  function Step(cfg: Config, s: State, a: Action): Option<State> {
    match a
    case Write(w, ok) => if w < |s.writers| then WriterStep(cfg, s, w, ok) else None
    case Maintain(choice) => MaintainerStep(cfg, s, choice)
  }

  /** The state after a schedule, if every action of it is enabled in turn. */
  function Exec(cfg: Config, s: State, schedule: seq<Action>): Option<State>
    decreases |schedule|
  {
    if schedule == [] then Some(s)
    else match Step(cfg, s, schedule[0])
         case None => None
         case Some(t) => Exec(cfg, t, schedule[1..])
  }

  ghost predicate Reachable(cfg: Config, s: State) {
    exists schedule :: Exec(cfg, Init(cfg), schedule) == Some(s)
  }

  lemma {:induction false} ExecConcat(cfg: Config, s: State, p: seq<Action>, q: seq<Action>)
    requires Exec(cfg, s, p).Some?
    ensures Exec(cfg, s, p + q) == Exec(cfg, Exec(cfg, s, p).value, q)
    decreases |p|
  {
    if p == [] {
      assert p + q == q;
    } else {
      assert (p + q)[1..] == p[1..] + q;
      ExecConcat(cfg, Step(cfg, s, p[0]).value, p[1..], q);
    }
  }

  lemma ReachableExec(cfg: Config, s: State, schedule: seq<Action>)
    requires Reachable(cfg, s) && Exec(cfg, s, schedule).Some?
    ensures Reachable(cfg, Exec(cfg, s, schedule).value)
  {
    var p :| Exec(cfg, Init(cfg), p) == Some(s);
    ExecConcat(cfg, Init(cfg), p, schedule);
  }

  lemma ReachableStep(cfg: Config, s: State, a: Action)
    requires Reachable(cfg, s) && Step(cfg, s, a).Some?
    ensures Reachable(cfg, Step(cfg, s, a).value)
  {
    assert Exec(cfg, Step(cfg, s, a).value, [a][1..]) == Step(cfg, s, a);
    ReachableExec(cfg, s, [a]);
  }

  ghost predicate KeptByWriters(cfg: Config, inv: State -> bool) {
    forall s: State, w: nat, ok: bool |
      inv(s) && w < |s.writers| && WriterStep(cfg, s, w, ok).Some? ::
      inv(WriterStep(cfg, s, w, ok).value)
  }

  ghost predicate KeptByMaintainer(cfg: Config, inv: State -> bool) {
    forall s: State, choice: bool |
      inv(s) && MaintainerStep(cfg, s, choice).Some? ::
      inv(MaintainerStep(cfg, s, choice).value)
  }

  lemma {:induction false} ExecKeeps(cfg: Config, inv: State -> bool, s: State, schedule: seq<Action>)
    requires KeptByWriters(cfg, inv) && KeptByMaintainer(cfg, inv)
    requires inv(s) && Exec(cfg, s, schedule).Some?
    ensures inv(Exec(cfg, s, schedule).value)
    decreases |schedule|
  {
    if schedule != [] {
      var t := Step(cfg, s, schedule[0]).value;
      assert inv(t);
      ExecKeeps(cfg, inv, t, schedule[1..]);
    }
  }

  /** What holds at the start and is kept by every step holds in every reachable state. */
  lemma InvariantHolds(cfg: Config, inv: State -> bool, s: State)
    requires inv(Init(cfg)) && KeptByWriters(cfg, inv) && KeptByMaintainer(cfg, inv)
    requires Reachable(cfg, s)
    ensures inv(s)
  {
    var schedule :| Exec(cfg, Init(cfg), schedule) == Some(s);
    ExecKeeps(cfg, inv, Init(cfg), schedule);
  }
}
