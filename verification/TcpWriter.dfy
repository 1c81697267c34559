/** The TCP syslog writer: a connection that may fail in the middle of a frame. */
module TcpWriter {
  import opened Wrappers
  import opened Decimals
  import opened OctetFraming
  import opened Rfc5424
  import opened SyslogParser

  /** What the peer's end of one connection has received, and whether it was closed. */
  datatype Conn = Conn(bytes: string, closed: bool)

  datatype WriteResult = Sent | DialFailed | Rejected(error: Error) | Broken

  function Total(framed: seq<seq<string>>): nat {
    if framed == [] then 0 else Total(framed[..|framed| - 1]) + |framed[|framed| - 1]|
  }

  lemma {:induction false} TotalUpdate(framed: seq<seq<string>>, c: nat, msgs: seq<string>)
    requires c < |framed|
    ensures Total(framed[c := msgs]) == Total(framed) - |framed[c]| + |msgs|
  {
    var n := |framed| - 1;
    if c == n {
      assert framed[c := msgs][..n] == framed[..n];
    } else {
      assert framed[c := msgs][..n] == framed[..n][c := msgs];
      TotalUpdate(framed[..n], c, msgs);
    }
  }

  /** How a stream ends: with a whole frame, or with what was sent of msg's before a write failed. */
  datatype Tail = Whole | Cut(msg: string, sent: string)

  function TailBytes(t: Tail): string {
    if t.Whole? then "" else t.sent
  }

  /** Complete frames, then part of one more; on an open connection nothing more. */
  ghost predicate GoodLog(k: Conn, framed: seq<string>, tail: Tail) {
    && k.bytes == Frames(framed) + TailBytes(tail)
    && (forall m | m in framed :: m != "")
    && (tail.Cut? ==> k.closed && tail.msg != "" && tail.sent <= Frame(tail.msg))
  }

  lemma NextPrefix(before: seq<string>, msgs: seq<string>, i: nat)
    requires i < |msgs|
    ensures before + msgs[..i] + [msgs[i]] == before + msgs[..i + 1]
  {
  }

  /** The state of a writer and of all connections it has dialed; `conn` is the open one. */
  datatype Link = Link(conn: Option<nat>, conns: seq<Conn>, framed: seq<seq<string>>, tails: seq<Tail>, egressed: nat)

  ghost predicate Good(l: Link) {
    && |l.framed| == |l.tails| == |l.conns|
    && (l.conn.Some? ==> l.conn.value < |l.conns|)
    && (forall c: nat | c < |l.conns| :: l.conns[c].closed <==> l.conn != Some(c))
    && (forall c: nat | c < |l.conns| :: GoodLog(l.conns[c], l.framed[c], l.tails[c]))
    && l.egressed == Total(l.framed)
  }

  /** Nothing has happened to the connections of `before` other than c. */
  ghost predicate Untouched(before: Link, after: Link, c: nat)
    requires Good(before) && Good(after)
  {
    && |before.conns| <= |after.conns|
    && forall j: nat | j < |before.conns| && j != c ::
         after.conns[j] == before.conns[j] && after.framed[j] == before.framed[j] && after.tails[j] == before.tails[j]
  }

  /** Connections closed before are as they were. */
  ghost predicate ClosedStay(before: Link, after: Link)
    requires Good(before) && Good(after)
  {
    && |before.conns| <= |after.conns|
    && forall j: nat | j < |before.conns| && before.conns[j].closed ::
         after.conns[j] == before.conns[j] && after.framed[j] == before.framed[j] && after.tails[j] == before.tails[j]
  }

  lemma UntouchedClosed(before: Link, after: Link, c: nat)
    requires Good(before) && Good(after) && Untouched(before, after, c)
    requires before.conn == Some(c) || (before.conn.None? && c == |before.conns|)
    ensures ClosedStay(before, after)
  {
  }

  lemma UntouchedTransitive(a: Link, b: Link, d: Link, c: nat)
    requires Good(a) && Good(b) && Good(d) && Untouched(a, b, c) && Untouched(b, d, c)
    ensures Untouched(a, d, c)
  {
  }

  lemma ClosedStayTransitive(a: Link, b: Link, d: Link)
    requires Good(a) && Good(b) && Good(d) && ClosedStay(a, b) && ClosedStay(b, d)
    ensures ClosedStay(a, d)
  {
  }

  lemma WholeFrameKeepsLog(k: Conn, framed: seq<string>, tail: Tail, msg: string)
    requires GoodLog(k, framed, tail) && !k.closed && msg != ""
    ensures GoodLog(Conn(k.bytes + Frame(msg), false), framed + [msg], tail)
  {
    hide Frame;
    var more := framed + [msg];
    assert more[..|more| - 1] == framed;
    assert k.bytes + Frame(msg) == Frames(more) + "";
  }

  /** A message's frame has gone out whole on connection c. */
  lemma WholeFrameKeepsGood(l: Link, c: nat, msg: string)
    requires Good(l) && l.conn == Some(c) && msg != ""
    ensures Good(l.(conns := l.conns[c := Conn(l.conns[c].bytes + Frame(msg), false)],
                    framed := l.framed[c := l.framed[c] + [msg]],
                    egressed := l.egressed + 1))
  {
    hide GoodLog, Frame, Total;
    WholeFrameKeepsLog(l.conns[c], l.framed[c], l.tails[c], msg);
    TotalUpdate(l.framed, c, l.framed[c] + [msg]);
  }

  /** Part of a frame has gone out on connection c, which is then closed. */
  lemma CutFrameKeepsGood(l: Link, c: nat, msg: string, sent: string)
    requires Good(l) && l.conn == Some(c) && msg != "" && sent <= Frame(msg)
    ensures Good(l.(conn := None,
                    conns := l.conns[c := Conn(l.conns[c].bytes + sent, true)],
                    tails := l.tails[c := Cut(msg, sent)]))
  {
    hide Frame, Frames, Total;
    assert GoodLog(l.conns[c], l.framed[c], l.tails[c]);
    assert l.conns[c].bytes + sent == Frames(l.framed[c]) + sent;
    assert GoodLog(Conn(l.conns[c].bytes + sent, true), l.framed[c], Cut(msg, sent));
  }

  lemma DialKeepsGood(l: Link)
    requires Good(l) && l.conn == None
    ensures Good(l.(conn := Some(|l.conns|), conns := l.conns + [Conn("", false)],
                    framed := l.framed + [[]], tails := l.tails + [Whole]))
  {
    var framed := l.framed + [[]];
    assert framed[..|framed| - 1] == l.framed;
    assert Frames([]) + "" == "";
    assert GoodLog(Conn("", false), [], Whole);
  }

  lemma CloseKeepsGood(l: Link, c: nat)
    requires Good(l) && l.conn == Some(c)
    ensures Good(l.(conn := None, conns := l.conns[c := l.conns[c].(closed := true)]))
  {
    hide Frames, Frame, Total;
    assert GoodLog(l.conns[c], l.framed[c], l.tails[c]);
  }

  class TCPWriter {
    const platform: Platform
    const hostname: string
    const appId: string
    /** w.conn, as an index into the connections dialed so far. */
    var conn: Option<nat>
    var conns: seq<Conn>
    var egressed: nat
    /** For each connection, the messages whose two writes succeeded and what a failed write left behind. */
    ghost var framed: seq<seq<string>>
    ghost var tails: seq<Tail>
    /** Dials and writes that have failed. */
    ghost var faults: nat
    /** What the calls of Write have returned. */
    ghost var results: seq<WriteResult>

    ghost function State(): Link
      reads this
    {
      Link(conn, conns, framed, tails, egressed)
    }

    ghost predicate Valid()
      reads this
    {
      Good(State())
    }

    constructor (platform: Platform, hostname: string, appId: string)
      ensures Valid() && conns == [] && results == []
      ensures this.platform == platform && this.hostname == hostname && this.appId == appId
    {
      this.platform, this.hostname, this.appId := platform, hostname, appId;
      conn, conns, egressed, framed, tails, faults, results := None, [], 0, [], [], 0, [];
    }

    /** conn.Write: all of the data, or an error after any part of it. */
    method NetWrite(c: nat, data: string) returns (ok: bool, ghost sent: string)
      requires c < |conns| && !conns[c].closed
      modifies this`conns, this`faults
      ensures sent <= data && (ok ==> sent == data)
      ensures faults == old(faults) + if ok then 0 else 1
      ensures conns == old(conns)[c := Conn(old(conns)[c].bytes + sent, false)]
    {
      var n: nat :| n <= |data|;
      ok := *;
      if ok {
        n := |data|;
      } else {
        faults := faults + 1;
      }
      sent := data[..n];
      conns := conns[c := conns[c].(bytes := conns[c].bytes + data[..n])];
    }

    /** The connection Write will use, and the messages it has carried so far. */
    ghost function Target(): nat
      reads this
    {
      if conn.Some? then conn.value else |conns|
    }

    ghost function Before(): seq<string>
      requires Valid()
      reads this
    {
      if conn.Some? then framed[conn.value] else []
    }

    /** connection: the present connection or a newly dialed one. */
    method Connection() returns (c: Option<nat>)
      requires Valid()
      modifies this`conn, this`conns, this`framed, this`tails, this`faults
      ensures Valid() && conn == c && egressed == old(egressed)
      ensures faults == old(faults) + if c.None? then 1 else 0
      ensures |conns| == |old(conns)| + if old(conn).None? && c.Some? then 1 else 0
      ensures Untouched(old(State()), State(), old(Target()))
      ensures c.None? ==> old(conn).None? && State() == old(State())
      ensures c.Some? ==> c.value == old(Target()) && framed[c.value] == old(Before())
    {
      hide GoodLog, Total;
      if conn.Some? {
        return conn;
      }
      var dialed: bool := *;
      if dialed {
        DialKeepsGood(State());
        conns := conns + [Conn("", false)];
        framed := framed + [[]];
        tails := tails + [Whole];
        conn := Some(|conns| - 1);
      } else {
        faults := faults + 1;
      }
      return conn;
    }

    /** Close: the connection is dropped and will not be written to again. */
    method Close()
      requires conn.Some? ==> conn.value < |conns|
      modifies this`conn, this`conns
      ensures conn == None
      ensures old(Valid()) ==> Valid()
      ensures old(conn).None? ==> conns == old(conns)
      ensures old(conn).Some? ==> var c := old(conn).value; conns == old(conns)[c := old(conns)[c].(closed := true)]
    {
      if conn.Some? {
        if Valid() { CloseKeepsGood(State(), conn.value); }
        conns := conns[conn.value := conns[conn.value].(closed := true)];
        conn := None;
      }
    }

    /** The length and a space in one write, the message in another. */
    method SendFrame(c: nat, msg: string) returns (ok: bool, ghost sent: string)
      requires c < |conns| && !conns[c].closed
      modifies this`conns, this`faults
      ensures sent <= Frame(msg) && (ok ==> sent == Frame(msg))
      ensures faults == old(faults) + if ok then 0 else 1
      ensures conns == old(conns)[c := Conn(old(conns)[c].bytes + sent, false)]
    {
      ok, sent := NetWrite(c, Decimal(|msg|) + " ");
      if ok {
        ghost var body;
        ok, body := NetWrite(c, msg);
        assert (old(conns)[c].bytes + sent) + body == old(conns)[c].bytes + (sent + body);
        sent := sent + body;
      }
    }

    /** One frame; on an error the connection is closed. */
    method WriteFrame(c: nat, msg: string) returns (ok: bool)
      requires Valid() && conn == Some(c) && msg != ""
      modifies this`conn, this`conns, this`framed, this`tails, this`faults, this`egressed
      ensures Valid() && |conns| == |old(conns)| && Untouched(old(State()), State(), c)
      ensures faults == old(faults) + if ok then 0 else 1
      ensures ok ==> conn == Some(c) && framed[c] == old(framed)[c] + [msg] && egressed == old(egressed) + 1
      ensures !ok ==> && conn == None && framed[c] == old(framed)[c] && egressed == old(egressed)
                      && tails[c].Cut? && tails[c].msg == msg
    {
      hide GoodLog, Frame, Total;
      ghost var start := State();
      ghost var sent;
      ok, sent := SendFrame(c, msg);
      if !ok {
        CutFrameKeepsGood(start, c, msg, sent);
        tails := tails[c := Cut(msg, sent)];
        Close();
        return false;
      }
      WholeFrameKeepsGood(start, c, msg);
      egressed := egressed + 1;
      framed := framed[c := framed[c] + [msg]];
      return true;
    }

    /** The loop of Write; false as soon as a frame fails, after the first k. */
    method WriteAll(c: nat, msgs: seq<string>) returns (ok: bool, ghost k: nat)
      requires Valid() && conn == Some(c) && forall m | m in msgs :: m != ""
      modifies this`conn, this`conns, this`framed, this`tails, this`faults, this`egressed
      ensures Valid() && Untouched(old(State()), State(), c) && |conns| == |old(conns)|
      ensures k <= |msgs| && egressed == old(egressed) + k && faults == old(faults) + if ok then 0 else 1
      ensures ok ==> k == |msgs| && conn == Some(c) && framed[c] == old(framed)[c] + msgs
      ensures !ok ==> && k < |msgs| && conn.None? && framed[c] == old(framed)[c] + msgs[..k]
                      && tails[c].Cut? && tails[c].msg == msgs[k]
    {
      k := 0;
      ghost var start := State();
      for i := 0 to |msgs|
        invariant Valid() && conn == Some(c) && k == i && egressed == old(egressed) + i && |conns| == |old(conns)|
        invariant faults == old(faults)
        invariant Untouched(start, State(), c)
        invariant framed[c] == start.framed[c] + msgs[..i]
      {
        ghost var now := State();
        assert msgs[i] in msgs;
        ok := WriteFrame(c, msgs[i]);
        UntouchedTransitive(start, now, State(), c);
        if !ok {
          return;
        }
        k := i + 1;
        NextPrefix(start.framed[c], msgs, i);
      }
      assert msgs[..|msgs|] == msgs;
      ok := true;
    }

    /**
      Write renders the envelope and frames its messages on one connection.
      Nil means all of them, contiguously; a broken connection carries the
      first k and part of the next, and is closed; connections closed before
      the call are never touched.
      */
    method Write(env: Envelope) returns (r: WriteResult, ghost msgs: seq<string>, ghost k: nat)
      requires Valid()
      modifies this
      ensures Valid() && k <= |msgs| && ClosedStay(old(State()), State())
      ensures egressed == old(egressed) + k
      ensures faults == old(faults) + if r.DialFailed? || r.Broken? then 1 else 0
      ensures r.DialFailed? ==> old(conn).None? && State() == old(State()) && k == 0
      ensures results == old(results) + [r]
      ensures |conns| == |old(conns)| + if old(conn).None? && !r.DialFailed? then 1 else 0
      ensures !r.DialFailed? ==> (r.Rejected? <==> TooLong(env, hostname, appId))
      ensures r.Rejected? ==> conn.Some? && framed[conn.value] == old(Before()) && k == 0
      ensures r.Sent? || r.Broken? ==> Renders(platform, env, hostname, appId, msgs)
      ensures r.Sent? ==> k == |msgs| && conn == Some(old(Target())) && framed[conn.value] == old(Before()) + msgs
      ensures r.Broken? ==> && k < |msgs| && conn.None? && old(Target()) < |conns|
                            && framed[old(Target())] == old(Before()) + msgs[..k]
                            && tails[old(Target())].Cut? && tails[old(Target())].msg == msgs[k]
    {
      hide GoodLog, Total, Renders;
      msgs, k := [], 0;
      ghost var start := State();
      var c := Connection();
      UntouchedClosed(start, State(), old(Target()));
      if c.None? {
        results := results + [DialFailed];
        return DialFailed, msgs, 0;
      }
      var rendered := ToRFC5424(platform, env, hostname, appId);
      if rendered.Err? {
        results := results + [Rejected(rendered.error)];
        return Rejected(rendered.error), msgs, 0;
      }
      msgs := rendered.value;
      ghost var now := State();
      var ok;
      ok, k := WriteAll(c.value, rendered.value);
      UntouchedTransitive(start, now, State(), c.value);
      UntouchedClosed(start, State(), c.value);
      r := if ok then Sent else Broken;
      results := results + [r];
    }

    /** Close does not prevent reconnecting: the next Write dials again, and goes on if that succeeds. */
    method WriteAfterClose(env: Envelope) returns (r: WriteResult, ghost msgs: seq<string>, ghost k: nat)
      requires Valid()
      modifies this
      ensures Valid() && results == old(results) + [r]
      ensures |conns| == |old(conns)| + if r.DialFailed? then 0 else 1
      ensures r.Sent? ==> conn == Some(|old(conns)|) && framed[|old(conns)|] == msgs
      ensures old(conn).Some? ==> conns[old(conn).value] == old(conns)[old(conn).value].(closed := true)
    {
      Close();
      r, msgs, k := Write(env);
    }

    /**
      On every connection a receiver decodes exactly the messages that were
      framed, in order; and the one whose write reported an error if all of it
      went out nevertheless.
      */
    lemma StreamDecodes(c: nat)
      requires Valid() && c < |conns|
      ensures Decode(conns[c].bytes)
           == match tails[c]
              case Whole => Parsed(framed[c], "")
              case Cut(m, sent) => if sent == Frame(m) then Parsed(framed[c] + [m], "") else Parsed(framed[c], sent)
      ensures conn == Some(c) ==> tails[c] == Whole
    {
      assert GoodLog(conns[c], framed[c], tails[c]);
      match tails[c] {
        case Whole => FramingIntegrity(framed[c], "x", "");
        case Cut(m, sent) => FramingIntegrity(framed[c], m, sent);
      }
    }
  }
}
