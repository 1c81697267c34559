/** Octet counting, section 3.4.1 of RFC 6587: MSG-LEN, a space, the message. */
module OctetFraming {
  import opened Wrappers
  import opened ByteStrings
  import opened Decimals
  import opened SyslogParser

  function Frame(msg: string): string {
    Decimal(|msg|) + " " + msg
  }

  function Frames(msgs: seq<string>): string {
    if msgs == [] then "" else Frames(msgs[..|msgs| - 1]) + Frame(msgs[|msgs| - 1])
  }

  /** The first frame of a stream, once all of it has arrived. */
  function DecodeFrame(s: string): (r: Option<Parsed<string>>)
    ensures r.Some? ==> |r.value.rest| < |s|
  {
    var n := IndexOf(s, ' ');
    if n == |s| || n == 0 || !AllDigits(s[..n]) || s[0] == '0' then None else
    var len := ValueOf(s[..n]);
    if n + 1 + len > |s| then None else Some(Parsed(s[n + 1..n + 1 + len], s[n + 1 + len..]))
  }

  /** Everything a receiver can deliver from a stream, and what it is left waiting on. */
  function Decode(s: string): Parsed<seq<string>>
    decreases |s|
  {
    match DecodeFrame(s)
    case None => Parsed([], s)
    case Some(p) => var q := Decode(p.rest); Parsed([p.value] + q.value, q.rest)
  }

  lemma FrameDecodes(msg: string, rest: string)
    requires msg != ""
    ensures DecodeFrame(Frame(msg) + rest) == Some(Parsed(msg, rest))
  {
    var d := Decimal(|msg|);
    var s := Frame(msg) + rest;
    assert s == d + (" " + msg + rest);
    IndexOfUnique(s, ' ', |d|);
    assert s[..|d|] == d;
    DecimalRoundTrip(|msg|);
    assert s[|d| + 1..|d| + 1 + |msg|] == msg && s[|d| + 1 + |msg|..] == rest;
  }

  /** A frame that has been cut short anywhere is not delivered. */
  lemma CutFrameWaits(msg: string, cut: string)
    requires msg != "" && cut <= Frame(msg) && cut != Frame(msg)
    ensures DecodeFrame(cut).None?
  {
    var d, f := Decimal(|msg|), Frame(msg);
    assert f == d + (" " + msg);
    if |cut| > |d| {
      assert cut[|d|] == f[|d|];
      assert forall i | 0 <= i < |d| :: cut[i] == f[i] == d[i];
      IndexOfUnique(cut, ' ', |d|);
      assert cut[..|d|] == d;
      DecimalRoundTrip(|msg|);
    } else {
      assert forall i | 0 <= i < |cut| :: cut[i] == f[i] == d[i];
    }
  }

  lemma {:induction false} FramesFirst(msgs: seq<string>)
    requires msgs != []
    ensures Frames(msgs) == Frame(msgs[0]) + Frames(msgs[1..])
  {
    hide Frame;
    if |msgs| == 1 {
      assert msgs[..0] == [] && msgs[1..] == [];
    } else {
      var front, tail, last := msgs[..|msgs| - 1], msgs[1..], Frame(msgs[|msgs| - 1]);
      FramesFirst(front);
      assert front[1..] == tail[..|tail| - 1];
      assert Frames(tail) == Frames(front[1..]) + last;
      assert (Frame(msgs[0]) + Frames(front[1..])) + last == Frame(msgs[0]) + (Frames(front[1..]) + last);
    }
  }

  lemma DecodeNext(msg: string, more: string)
    requires msg != ""
    ensures Decode(Frame(msg) + more) == Parsed([msg] + Decode(more).value, Decode(more).rest)
  {
    FrameDecodes(msg, more);
  }

  lemma FramesSplit(msgs: seq<string>, rest: string)
    requires msgs != []
    ensures Frames(msgs) + rest == Frame(msgs[0]) + (Frames(msgs[1..]) + rest)
  {
    FramesFirst(msgs);
  }

  lemma DecodeChain(first: string, more: string, others: seq<string>, last: seq<string>, left: string)
    requires first != "" && Decode(more) == Parsed(others + last, left)
    ensures Decode(Frame(first) + more) == Parsed([first] + others + last, left)
  {
    DecodeNext(first, more);
    assert [first] + (others + last) == [first] + others + last;
  }

  lemma {:induction false} FramesDecode(msgs: seq<string>, rest: string)
    requires forall m | m in msgs :: m != ""
    ensures Decode(Frames(msgs) + rest) == Parsed(msgs + Decode(rest).value, Decode(rest).rest)
    decreases |msgs|
  {
    hide Decode;
    var d := Decode(rest);
    if msgs == [] {
      assert Frames(msgs) + rest == rest && msgs + d.value == d.value;
    } else {
      hide Frame, Frames;
      assert msgs[0] in msgs && forall m | m in msgs[1..] :: m in msgs;
      FramesDecode(msgs[1..], rest);
      DecodeChain(msgs[0], Frames(msgs[1..]) + rest, msgs[1..], d.value, d.rest);
      FramesSplit(msgs, rest);
      assert [msgs[0]] + msgs[1..] == msgs;
    }
  }

  /**
    From complete frames followed by part of one more, a receiver delivers
    exactly the complete messages, for any payload bytes; the last one is
    delivered too exactly when all of its frame arrived.
    */
  lemma FramingIntegrity(msgs: seq<string>, last: string, cut: string)
    requires (forall m | m in msgs :: m != "") && last != "" && cut <= Frame(last)
    ensures Decode(Frames(msgs) + cut)
         == if cut == Frame(last) then Parsed(msgs + [last], "") else Parsed(msgs, cut)
  {
    FramesDecode(msgs, cut);
    if cut == Frame(last) {
      DecodeNext(last, "");
      assert Frame(last) + "" == cut;
      assert Decode("") == Parsed([], "");
      assert [last] + [] == [last];
    } else {
      CutFrameWaits(last, cut);
      assert msgs + [] == msgs;
    }
  }
}
