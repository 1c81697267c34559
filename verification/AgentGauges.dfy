/**
  The agent's two pools.  The managers of a pool share one stream gauge, and
  those of both pools one connection gauge, which every step of any of their
  goroutines may raise or lower.
  */
module AgentGauges {
  import opened Wrappers
  import opened ConnManagerProtocol
  import opened ConnManagerOwnership
  import opened ClientPoolProtocol

  datatype Agent = Agent(v1: Pool, v2: Pool, connections: int, v1Streams: int, v2Streams: int)

  datatype AgentAction = V1Moves(a: PoolAction) | V2Moves(a: PoolAction)

  ghost predicate AgentConfig(c1: Configs, c2: Configs, n: nat) {
    && PoolConfig(c1, n) && PoolConfig(c2, n)
    && (forall k: nat :: c1(k).version.V1?) && (forall k: nat :: c2(k).version.V2?)
  }

  function InitAgent(c1: Configs, c2: Configs, n: nat): Agent {
    Agent(InitPool(c1, n), InitPool(c2, n), 0, 0, 0)
  }

  /** A step of one pool adds to the shared gauges what it adds to the managers' parts in them. */
  function AgentStep(c1: Configs, c2: Configs, s: Agent, a: AgentAction): Option<Agent>
    requires |s.v1.managers| <= MAX_INT64 && |s.v2.managers| <= MAX_INT64
  {
    match a
    case V1Moves(b) =>
      (match PoolStep(c1, s.v1, b)
       case None => None
       case Some(p) =>
         Some(s.(v1 := p,
                 connections := s.connections + ConnectionsSum(p.managers) - ConnectionsSum(s.v1.managers),
                 v1Streams := s.v1Streams + StreamsSum(p.managers) - StreamsSum(s.v1.managers))))
    case V2Moves(b) =>
      (match PoolStep(c2, s.v2, b)
       case None => None
       case Some(p) =>
         Some(s.(v2 := p,
                 connections := s.connections + ConnectionsSum(p.managers) - ConnectionsSum(s.v2.managers),
                 v2Streams := s.v2Streams + StreamsSum(p.managers) - StreamsSum(s.v2.managers))))
  }

  function AgentExec(c1: Configs, c2: Configs, s: Agent, schedule: seq<AgentAction>): Option<Agent>
    requires |s.v1.managers| <= MAX_INT64 && |s.v2.managers| <= MAX_INT64
    decreases |schedule|
  {
    if schedule == [] then Some(s)
    else match AgentStep(c1, c2, s, schedule[0])
         case None => None
         case Some(t) => AgentExec(c1, c2, t, schedule[1..])
  }

  ghost predicate AgentGood(c1: Configs, c2: Configs, s: Agent) {
    && PoolGood(c1, s.v1) && PoolGood(c2, s.v2)
    && s.connections == ConnectionsSum(s.v1.managers) + ConnectionsSum(s.v2.managers)
    && s.v1Streams == StreamsSum(s.v1.managers)
    && s.v2Streams == StreamsSum(s.v2.managers)
  }

  lemma {:induction false} NothingRaisedYet(ms: seq<State>)
    requires forall k | 0 <= k < |ms| :: ms[k].connections == 0 && ms[k].streams == 0
    ensures ConnectionsSum(ms) == 0 && StreamsSum(ms) == 0
  {
    if ms != [] {
      NothingRaisedYet(ms[1..]);
    }
  }

  lemma {:induction false} AgentExecGood(c1: Configs, c2: Configs, s: Agent, schedule: seq<AgentAction>)
    requires AgentGood(c1, c2, s) && AgentExec(c1, c2, s, schedule).Some?
    ensures AgentGood(c1, c2, AgentExec(c1, c2, s, schedule).value)
    decreases |schedule|
  {
    PoolGoodManagers(c1, s.v1);
    PoolGoodManagers(c2, s.v2);
    hide PoolGood, GoodManagers, PoolStep, ConnectionsSum, StreamsSum;
    if schedule != [] {
      match schedule[0] {
        case V1Moves(b) => PoolStepGood(c1, s.v1, b);
        case V2Moves(b) => PoolStepGood(c2, s.v2, b);
      }
      AgentExecGood(c1, c2, AgentStep(c1, c2, s, schedule[0]).value, schedule[1..]);
    }
  }

  /**
    In every interleaving of both pools' goroutines each shared gauge is the
    number of connections that have raised it and not yet lowered it, over all
    managers that share it.
    */
  lemma AgentGaugesExact(c1: Configs, c2: Configs, n: nat, schedule: seq<AgentAction>)
    requires AgentConfig(c1, c2, n) && AgentExec(c1, c2, InitAgent(c1, c2, n), schedule).Some?
    ensures var t := AgentExec(c1, c2, InitAgent(c1, c2, n), schedule).value;
            && t.connections == CountedTotal(c1, t.v1.managers, ConnectionsGauge)
                                + CountedTotal(c2, t.v2.managers, ConnectionsGauge)
            && t.v1Streams == CountedTotal(c1, t.v1.managers, StreamsGauge)
            && t.v2Streams == CountedTotal(c2, t.v2.managers, StreamsGauge)
  {
    hide PoolGood, PoolStep, GoodManagers;
    var s := InitAgent(c1, c2, n);
    InitPoolGood(c1, n);
    InitPoolGood(c2, n);
    NothingRaisedYet(s.v1.managers);
    NothingRaisedYet(s.v2.managers);
    AgentExecGood(c1, c2, s, schedule);
    var t := AgentExec(c1, c2, s, schedule).value;
    PoolGoodManagers(c1, t.v1);
    PoolGoodManagers(c2, t.v2);
    SumsAreCounted(c1, t.v1.managers);
    SumsAreCounted(c2, t.v2.managers);
  }
}
