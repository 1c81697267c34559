/** What a nil return of ConnManager.Write means, with any number of writers. */
module ConnManagerDelivery {
  import opened Wrappers
  import opened ConnManagerProtocol

  /** A writer that owes its caller a nil, having sent the message. */
  function Sent(pc: WriterPc): nat {
    if pc.Incrementing? || pc.Recycling? || (pc.Closing? && !pc.err) || (pc.Posting? && !pc.err) then 1 else 0
  }

  /** Whether the step is a successful Send of writer w. */
  predicate Sends(s: State, a: Action, w: nat) {
    a == Write(w, true) && w < |s.writers| && s.writers[w].Sending?
  }

  /** Whether a call of writer w returns with this step, and with what. */
  predicate Returns(s: State, a: Action, t: State, w: nat, result: WriteResult) {
    && a.Write? && a.w == w && w < |s.writers| && w < |t.writers| && t.writers[w] == Ready(result)
  }

  function SendsBy(cfg: Config, s: State, schedule: seq<Action>, w: nat): nat
    decreases |schedule|
  {
    if schedule == [] then 0
    else match Step(cfg, s, schedule[0])
         case None => 0
         case Some(t) => (if Sends(s, schedule[0], w) then 1 else 0) + SendsBy(cfg, t, schedule[1..], w)
  }

  function ReturnsBy(cfg: Config, s: State, schedule: seq<Action>, w: nat, result: WriteResult): nat
    decreases |schedule|
  {
    if schedule == [] then 0
    else match Step(cfg, s, schedule[0])
         case None => 0
         case Some(t) =>
           (if Returns(s, schedule[0], t, w, result) then 1 else 0) + ReturnsBy(cfg, t, schedule[1..], w, result)
  }

  lemma {:induction false} NilsFollowSends(cfg: Config, s: State, schedule: seq<Action>, w: nat)
    requires Exec(cfg, s, schedule).Some? && w < |s.writers|
    ensures w < |Exec(cfg, s, schedule).value.writers|
    ensures ReturnsBy(cfg, s, schedule, w, Nil) + Sent(Exec(cfg, s, schedule).value.writers[w])
         == SendsBy(cfg, s, schedule, w) + Sent(s.writers[w])
    decreases |schedule|
  {
    if schedule != [] {
      var t := Step(cfg, s, schedule[0]).value;
      StepAccounts(cfg, s, schedule[0], w);
      NilsFollowSends(cfg, t, schedule[1..], w);
    }
  }

  lemma StepAccounts(cfg: Config, s: State, a: Action, w: nat)
    requires Step(cfg, s, a).Some? && w < |s.writers|
    ensures var t := Step(cfg, s, a).value;
            && |t.writers| == |s.writers|
            && (if Returns(s, a, t, w, Nil) then 1 else 0) + Sent(t.writers[w])
            == (if Sends(s, a, w) then 1 else 0) + Sent(s.writers[w])
  {
    if a.Write? {
      hide MaintainerStep;
      var t := WriterStep(cfg, s, a.w, a.ok).value;
      assert t.writers == s.writers[a.w := t.writers[a.w]];
    } else {
      hide WriterStep;
    }
  }

  /**
    In every interleaving of any number of writers, recycled or not, a writer's
    calls have returned nil once for each of its successful sends, except for
    the present call if it has sent and not yet returned.
    */
  lemma NilExactlyWhenSent(cfg: Config, schedule: seq<Action>, w: nat)
    requires Exec(cfg, Init(cfg), schedule).Some? && w < cfg.writers
    ensures var t := Exec(cfg, Init(cfg), schedule).value;
            && w < |t.writers|
            && ReturnsBy(cfg, Init(cfg), schedule, w, Nil)
               <= SendsBy(cfg, Init(cfg), schedule, w)
               <= ReturnsBy(cfg, Init(cfg), schedule, w, Nil) + 1
            && (t.writers[w].Ready? ==>
                  ReturnsBy(cfg, Init(cfg), schedule, w, Nil) == SendsBy(cfg, Init(cfg), schedule, w))
  {
    NilsFollowSends(cfg, Init(cfg), schedule, w);
  }
}
