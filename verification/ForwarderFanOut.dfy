/**
  The forwarder agent hands one mutable envelope to every downstream client in
  turn.  Each client has its own aggregator, so the later ones process what the
  earlier ones have already rewritten.
  */
module ForwarderFanOut {
  import opened CounterHistory
  import opened TagHash
  import opened CounterAggregator

  /** A processor and the totals it holds. */
  datatype Stage = Stage(tagger: Tagger, digest: Digest, totals: Totals)

  /** The envelope after a chain of processors, each of which rewrites what the one before it left. */
  ghost function Chain(stages: seq<Stage>, v: View): View {
    if stages == [] then v else
    var before, last := stages[..|stages| - 1], stages[|stages| - 1];
    Processed(last.tagger, last.digest, last.totals, Chain(before, v)).env
  }

  /** What the stage at position i makes of its totals and the envelope. */
  ghost function StageOutcome(stages: seq<Stage>, v: View, i: nat): Outcome
    requires i < |stages|
  {
    Processed(stages[i].tagger, stages[i].digest, stages[i].totals, Chain(stages[..i], v))
  }

  lemma ChainNext(stages: seq<Stage>, v: View, i: nat)
    requires i < |stages|
    ensures Chain(stages[..i + 1], v) == StageOutcome(stages, v, i).env
  {
    assert stages[..i + 1][..i] == stages[..i];
  }

  lemma SingleStage(stages: seq<Stage>, v: View)
    requires |stages| == 1
    ensures StageOutcome(stages, v, 0) == Processed(stages[0].tagger, stages[0].digest, stages[0].totals, v)
    ensures Chain(stages, v) == StageOutcome(stages, v, 0).env
  {
    assert stages[..0] == [] && stages[..1] == stages;
    ChainNext(stages, v, 0);
  }

  /** EnvelopeWriter over a sink that records what it is given. */
  class EnvelopeWriter {
    const processors: seq<CounterAggregator>
    var written: seq<View>

    constructor (processors: seq<CounterAggregator>)
      ensures this.processors == processors && written == []
    {
      this.processors := processors;
      written := [];
    }

    ghost function Stages(): (stages: seq<Stage>)
      reads processors
      ensures |stages| == |processors|
    {
      seq(|processors|, i requires 0 <= i < |processors| reads processors =>
        Stage(processors[i].tagger, processors[i].digest, processors[i].counterTotals))
    }

    /** One turn of the loop. */
    method Apply(i: nat, env: Envelope, ghost stages: seq<Stage>, ghost v: View)
      requires i < |processors| == |stages|
      requires stages[i] == Stage(processors[i].tagger, processors[i].digest, processors[i].counterTotals)
      requires env.Contents() == Chain(stages[..i], v)
      modifies processors[i], env
      ensures env.Contents() == Chain(stages[..i + 1], v)
      ensures processors[i].counterTotals == StageOutcome(stages, v, i).totals
    {
      processors[i].Process(env);
      ChainNext(stages, v, i);
    }

    /** The chain of processors, each once and in order. */
    method RunChain(env: Envelope, ghost stages: seq<Stage>)
      requires forall i, j | 0 <= i < j < |processors| :: processors[i] != processors[j]
      requires |stages| == |processors| && forall j: nat | j < |processors| ::
                 stages[j] == Stage(processors[j].tagger, processors[j].digest, processors[j].counterTotals)
      modifies processors, env
      ensures env.Contents() == Chain(stages, old(env.Contents()))
      ensures forall i: nat | i < |processors| ::
                processors[i].counterTotals == StageOutcome(stages, old(env.Contents()), i).totals
    {
      ghost var v := env.Contents();
      assert Chain(stages[..0], v) == v;
      hide Chain, StageOutcome;
      for i := 0 to |processors|
        invariant env.Contents() == Chain(stages[..i], v)
        invariant forall j: nat | j < i :: processors[j].counterTotals == StageOutcome(stages, v, j).totals
        invariant forall j: nat | i <= j < |processors| ::
                    stages[j] == Stage(processors[j].tagger, processors[j].digest, processors[j].counterTotals)
      {
        label before:
        Apply(i, env, stages, v);
        forall j: nat | j < |processors| && j != i
          ensures processors[j].counterTotals == old@before(processors[j].counterTotals)
        {
          assert processors[j] != processors[i];
        }
      }
      assert stages[..|processors|] == stages;
    }

    /** The processors rewrite the envelope in turn; the sink is given the result. */
    method Write(env: Envelope)
      requires forall i, j | 0 <= i < j < |processors| :: processors[i] != processors[j]
      modifies this, processors, env
      ensures env.Contents() == Chain(old(Stages()), old(env.Contents()))
      ensures forall i: nat | i < |processors| ::
                processors[i].counterTotals == StageOutcome(old(Stages()), old(env.Contents()), i).totals
      ensures written == old(written) + [env.Contents()]
    {
      RunChain(env, Stages());
      written := written + [env.Contents()];
    }
  }

  class Forwarder {
    const tagger: Tagger
    const digest: Digest
    const clients: seq<EnvelopeWriter>

    /** Each client has one aggregator of its own, built from the agent's tags. */
    ghost predicate Built() {
      && (forall i | 0 <= i < |clients| ::
            && |clients[i].processors| == 1
            && clients[i].processors[0].tagger == tagger
            && clients[i].processors[0].digest == digest)
      && (forall i, j | 0 <= i < j < |clients| ::
            clients[i] != clients[j] && clients[i].processors[0] != clients[j].processors[0])
    }

    ghost function Aggregators(): set<object> {
      set i: nat | i < |clients| && |clients[i].processors| == 1 :: clients[i].processors[0]
    }

    /** All aggregators hold these totals and all clients have been given these envelopes. */
    ghost predicate InStep(totals: Totals, written: seq<View>)
      requires Built()
      reads clients, Aggregators()
    {
      forall i: nat | i < |clients| ::
        clients[i].processors[0].counterTotals == totals && clients[i].written == written
    }

    /** ingressClients: a fresh tagger, aggregator and writer for every address. */
    constructor (tagger: Tagger, digest: Digest, n: nat)
      ensures Built() && |clients| == n && this.tagger == tagger && this.digest == digest
      ensures InStep(map[], [])
      ensures fresh(set c | c in clients) && fresh(Aggregators())
    {
      var cs: seq<EnvelopeWriter> := [];
      for i := 0 to n
        invariant |cs| == i
        invariant forall j | 0 <= j < i ::
                    && fresh(cs[j]) && |cs[j].processors| == 1 && fresh(cs[j].processors[0])
                    && cs[j].processors[0].tagger == tagger && cs[j].processors[0].digest == digest
                    && cs[j].processors[0].counterTotals == map[] && cs[j].written == []
        invariant forall j, k | 0 <= j < k < i :: cs[j] != cs[k] && cs[j].processors[0] != cs[k].processors[0]
      {
        var aggregator := new CounterAggregator(tagger, digest);
        var writer := new EnvelopeWriter([aggregator]);
        cs := cs + [writer];
      }
      this.tagger := tagger;
      this.digest := digest;
      clients := cs;
    }

    /**
      One turn of the forwarding loop: every client is handed the same
      contents, those the first aggregator produced, and the aggregators,
      equal before, are equal after.
      */
    method FanOut(env: Envelope, ghost totals: Totals, ghost written: seq<View>)
      requires Built() && InStep(totals, written)
      modifies clients, Aggregators(), env
      ensures clients != [] ==> env.Contents() == Processed(tagger, digest, totals, old(env.Contents())).env
      ensures InStep(Processed(tagger, digest, totals, old(env.Contents())).totals,
                     written + [Processed(tagger, digest, totals, old(env.Contents())).env])
    {
      hide Processed, Chain, StageOutcome;
      ghost var out := Processed(tagger, digest, totals, env.Contents());
      ProcessedIsFixedPoint(tagger, digest, totals, env.Contents());
      for i := 0 to |clients|
        invariant env.Contents() == if i == 0 then old(env.Contents()) else out.env
        invariant forall j: nat | j < i ::
                    clients[j].processors[0].counterTotals == out.totals && clients[j].written == written + [out.env]
        invariant forall j: nat | i <= j < |clients| ::
                    clients[j].processors[0].counterTotals == totals && clients[j].written == written
      {
        assert clients[i].processors[0] in Aggregators();
        assert forall p | p in clients[i].processors :: p == clients[i].processors[0];
        ghost var stages, v := clients[i].Stages(), env.Contents();
        label before:
        clients[i].Write(env);
        SingleStage(stages, v);
        forall j: nat | j < |clients| && j != i
          ensures clients[j].written == old@before(clients[j].written)
          ensures clients[j].processors[0].counterTotals == old@before(clients[j].processors[0].counterTotals)
        {
          assert clients[j] != clients[i] && clients[j].processors[0] != clients[i].processors[0];
        }
      }
    }

    /** The envelopes every client receives in a run. */
    ghost function Emitted(vs: seq<View>): seq<View> {
      if vs == [] then [] else
      var before := vs[..|vs| - 1];
      Emitted(before) + [Processed(tagger, digest, RunTotals(tagger, digest, before), vs[|vs| - 1]).env]
    }

    lemma EmittedNext(vs: seq<View>, n: nat)
      requires n < |vs|
      ensures var out := Processed(tagger, digest, RunTotals(tagger, digest, vs[..n]), vs[n]);
              && RunTotals(tagger, digest, vs[..n + 1]) == out.totals
              && Emitted(vs[..n + 1]) == Emitted(vs[..n]) + [out.env]
    {
      hide Processed;
      assert vs[..n + 1][..n] == vs[..n];
    }

    /** The forwarding loop over any stream of distinct envelopes keeps all clients in step. */
    method Forward(envs: seq<Envelope>) returns (ghost vs: seq<View>)
      requires Built() && InStep(map[], [])
      requires forall i, j | 0 <= i < j < |envs| :: envs[i] != envs[j]
      modifies clients, Aggregators(), envs
      ensures |vs| == |envs| && forall i | 0 <= i < |envs| :: vs[i] == old(envs[i].Contents())
      ensures InStep(RunTotals(tagger, digest, vs), Emitted(vs))
    {
      vs := seq(|envs|, i requires 0 <= i < |envs| reads envs => envs[i].Contents());
      for n := 0 to |envs|
        invariant forall i | n <= i < |envs| :: envs[i].Contents() == vs[i]
        invariant InStep(RunTotals(tagger, digest, vs[..n]), Emitted(vs[..n]))
      {
        EmittedNext(vs, n);
        ghost var totals, written := RunTotals(tagger, digest, vs[..n]), Emitted(vs[..n]);
        FanOut(envs[n], totals, written);
      }
      assert vs[..|envs|] == vs;
    }
  }
}
