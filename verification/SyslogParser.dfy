/**
  A receiver's view of one syslog message: a parser for the format of section 6
  of RFC 5424, with the field lengths and character sets of its ABNF.  The
  timestamp is taken as a printable token and its inner format is not checked.
  */
module SyslogParser {
  import opened Wrappers
  import opened ByteStrings
  import opened Decimals

  datatype SdParam = SdParam(name: string, value: string)

  datatype SdElement = SdElement(id: string, params: seq<SdParam>)

  datatype SyslogMsg = SyslogMsg(
    priority: nat, timestamp: string, hostname: string, appName: string, procId: string,
    msgId: string, sd: seq<SdElement>, msg: Option<string>)

  /** A parsed value and the input that is left. */
  datatype Parsed<T> = Parsed(value: T, rest: string)

  const MAX_TIMESTAMP: nat := 32
  const MAX_HOSTNAME: nat := 255
  const MAX_APP_NAME: nat := 48
  const MAX_PROC_ID: nat := 128
  const MAX_MSG_ID: nat := 32
  const MAX_SD_NAME: nat := 32
  const MAX_PRIORITY: nat := 191

  /** PRINTUSASCII. */
  predicate Printable(c: char) {
    33 <= c as int <= 126
  }

  /** A header field of at most max octets. */
  predicate Field(s: string, max: nat) {
    1 <= |s| <= max && forall i | 0 <= i < |s| :: Printable(s[i])
  }

  /** A field and the space after it. */
  function ParseField(s: string, max: nat): (r: Option<Parsed<string>>)
    ensures r.Some? ==> Field(r.value.value, max)
  {
    var n := IndexOf(s, ' ');
    if n < |s| && Field(s[..n], max) then Some(Parsed(s[..n], s[n + 1..])) else None
  }

  function ParsePriority(s: string): Option<Parsed<nat>> {
    if s == "" || s[0] != '<' then None else
    var n := IndexOf(s, '>');
    if n < |s| && 1 <= n - 1 <= 3 && AllDigits(s[1..n]) && ValueOf(s[1..n]) <= MAX_PRIORITY
    then Some(Parsed(ValueOf(s[1..n]), s[n + 1..]))
    else None
  }

  predicate SdNameChar(c: char) {
    Printable(c) && c != '=' && c != ']' && c != '"'
  }

  function NameLength(s: string): (n: nat)
    ensures n <= |s|
    ensures forall i | 0 <= i < n :: SdNameChar(s[i])
    ensures n < |s| ==> !SdNameChar(s[n])
  {
    if s == "" || !SdNameChar(s[0]) then 0 else 1 + NameLength(s[1..])
  }

  predicate Escapable(c: char) {
    c == '"' || c == '\\' || c == ']'
  }

  /**
    PARAM-VALUE up to its closing quote.  A backslash escapes one of the three
    special characters and is an ordinary character before any other.
    */
  function ScanValue(s: string): (r: Option<Parsed<string>>)
    ensures r.Some? ==> |r.value.rest| < |s|
  {
    if s == "" || s[0] == ']' then None
    else if s[0] == '"' then Some(Parsed("", s[1..]))
    else if s[0] == '\\' && |s| > 1 && Escapable(s[1]) then
      (match ScanValue(s[2..])
       case None => None
       case Some(p) => Some(Parsed([s[1]] + p.value, p.rest)))
    else
      (match ScanValue(s[1..])
       case None => None
       case Some(p) => Some(Parsed([s[0]] + p.value, p.rest)))
  }

  function ParseParams(s: string): (r: Option<Parsed<seq<SdParam>>>)
    ensures r.Some? ==> |r.value.rest| < |s|
    decreases |s|
  {
    if s == "" then None
    else if s[0] == ']' then Some(Parsed([], s[1..]))
    else if s[0] != ' ' then None else
    var n := NameLength(s[1..]);
    var after := s[1 + n..];
    if !(1 <= n <= MAX_SD_NAME && |after| >= 2 && after[0] == '=' && after[1] == '"') then None else
    match ScanValue(after[2..])
    case None => None
    case Some(v) =>
      match ParseParams(v.rest)
      case None => None
      case Some(ps) => Some(Parsed([SdParam(s[1..1 + n], v.value)] + ps.value, ps.rest))
  }

  function ParseElement(s: string): (r: Option<Parsed<SdElement>>)
    ensures r.Some? ==> |r.value.rest| < |s|
  {
    if s == "" || s[0] != '[' then None else
    var n := NameLength(s[1..]);
    if !(1 <= n <= MAX_SD_NAME) then None else
    match ParseParams(s[1 + n..])
    case None => None
    case Some(ps) => Some(Parsed(SdElement(s[1..1 + n], ps.value), ps.rest))
  }

  function ParseElements(s: string): Option<Parsed<seq<SdElement>>>
    decreases |s|
  {
    match ParseElement(s)
    case None => None
    case Some(e) =>
      if e.rest != "" && e.rest[0] == '[' then
        (match ParseElements(e.rest)
         case None => None
         case Some(es) => Some(Parsed([e.value] + es.value, es.rest)))
      else Some(Parsed([e.value], e.rest))
  }

  /** STRUCTURED-DATA, then the message if there is one. */
  function ParseBody(s: string): Option<Parsed<seq<SdElement>>> {
    if s != "" && s[0] == '-' then Some(Parsed([], s[1..])) else ParseElements(s)
  }

  /** Header fields, each followed by one space. */
  function ParseFields(s: string, limits: seq<nat>): (r: Option<Parsed<seq<string>>>)
    ensures r.Some? ==> |r.value.value| == |limits|
    ensures r.Some? ==> forall i | 0 <= i < |limits| :: Field(r.value.value[i], limits[i])
    decreases |limits|
  {
    if limits == [] then Some(Parsed([], s)) else
    match ParseField(s, limits[0])
    case None => None
    case Some(f) =>
      match ParseFields(f.rest, limits[1..])
      case None => None
      case Some(fs) => Some(Parsed([f.value] + fs.value, fs.rest))
  }

  /** TIMESTAMP, HOSTNAME, APP-NAME, PROCID and MSGID. */
  const HEADER_LIMITS: seq<nat> := [MAX_TIMESTAMP, MAX_HOSTNAME, MAX_APP_NAME, MAX_PROC_ID, MAX_MSG_ID]

  function Assemble(priority: nat, fields: seq<string>, body: Option<Parsed<seq<SdElement>>>): Option<SyslogMsg>
    requires |fields| == 5
  {
    match body
    case None => None
    case Some(sd) =>
      if sd.rest == "" then
        Some(SyslogMsg(priority, fields[0], fields[1], fields[2], fields[3], fields[4], sd.value, None))
      else if sd.rest[0] == ' ' then
        Some(SyslogMsg(priority, fields[0], fields[1], fields[2], fields[3], fields[4], sd.value, Some(sd.rest[1..])))
      else None
  }

  function Parse(s: string): Option<SyslogMsg> {
    match ParsePriority(s)
    case None => None
    case Some(pri) =>
      if !(|pri.rest| >= 2 && pri.rest[..2] == "1 ") then None else
      match ParseFields(pri.rest[2..], HEADER_LIMITS)
      case None => None
      case Some(fs) => Assemble(pri.value, fs.value, ParseBody(fs.rest))
  }

  // ----- reading back what was printed -----

  lemma FieldReadsBack(t: string, rest: string, max: nat)
    requires Field(t, max)
    ensures ParseField(t + " " + rest, max) == Some(Parsed(t, rest))
  {
    var s := t + " " + rest;
    forall i | 0 <= i < |t| ensures s[i] != ' ' { assert Printable(t[i]); }
    IndexOfUnique(s, ' ', |t|);
    assert s[..|t|] == t && s[|t| + 1..] == rest;
  }

  function PrintFields(fields: seq<string>): string {
    if fields == [] then "" else fields[0] + " " + PrintFields(fields[1..])
  }

  lemma ParseFieldsNext(f: string, more: string, limits: seq<nat>, fs: seq<string>, rest: string)
    requires limits != [] && Field(f, limits[0]) && ParseFields(more, limits[1..]) == Some(Parsed(fs, rest))
    ensures ParseFields(f + " " + more, limits) == Some(Parsed([f] + fs, rest))
  {
    FieldReadsBack(f, more, limits[0]);
  }

  predicate AllFields(fields: seq<string>, limits: seq<nat>) {
    |fields| == |limits| && (fields != [] ==> Field(fields[0], limits[0]) && AllFields(fields[1..], limits[1..]))
  }

  lemma {:induction false} FieldsReadBack(fields: seq<string>, limits: seq<nat>, rest: string)
    requires AllFields(fields, limits)
    ensures ParseFields(PrintFields(fields) + rest, limits) == Some(Parsed(fields, rest))
    decreases |fields|
  {
    var s := PrintFields(fields) + rest;
    if fields == [] {
      assert s == rest;
    } else {
      var more := PrintFields(fields[1..]) + rest;
      assert s == fields[0] + " " + more;
      FieldsReadBack(fields[1..], limits[1..], rest);
      ParseFieldsNext(fields[0], more, limits, fields[1..], rest);
      assert [fields[0]] + fields[1..] == fields;
    }
  }

  /** A value the receiver reads exactly as it was written, without escapes. */
  predicate LiteralValue(v: string) {
    v == "" ||
    (&& v[0] != '"' && v[0] != ']'
     && (v[0] == '\\' ==> |v| > 1 && v[1] != '\\')
     && LiteralValue(v[1..]))
  }

  predicate LiteralAt(v: string, i: nat)
    requires i < |v|
  {
    v[i] != '"' && v[i] != ']' && (v[i] == '\\' ==> i + 1 < |v| && !Escapable(v[i + 1]))
  }

  lemma {:induction false} LiteralEverywhere(v: string, i: nat)
    requires LiteralValue(v) && i < |v|
    ensures LiteralAt(v, i)
  {
    if i > 0 {
      LiteralEverywhere(v[1..], i - 1);
    } else if |v| > 1 {
      LiteralEverywhere(v[1..], 0);
    }
  }

  lemma {:induction false} EverywhereLiteral(v: string)
    requires forall i | 0 <= i < |v| :: LiteralAt(v, i)
    ensures LiteralValue(v)
  {
    if v != "" {
      forall i | 0 <= i < |v[1..]| ensures LiteralAt(v[1..], i) { assert LiteralAt(v, i + 1); }
      EverywhereLiteral(v[1..]);
      assert LiteralAt(v, 0);
    }
  }

  /**
    Such a value contains no quote and no closing bracket, and each of its
    backslashes stands before a character that is none of the three.
    */
  lemma LiteralValueExactly(v: string)
    ensures LiteralValue(v) <==> forall i | 0 <= i < |v| :: LiteralAt(v, i)
  {
    if LiteralValue(v) {
      forall i | 0 <= i < |v| ensures LiteralAt(v, i) { LiteralEverywhere(v, i); }
    } else if forall i | 0 <= i < |v| :: LiteralAt(v, i) {
      EverywhereLiteral(v);
    }
  }

  lemma {:induction false} LiteralReadsBack(v: string, rest: string)
    requires LiteralValue(v)
    ensures ScanValue(v + "\"" + rest) == Some(Parsed(v, rest))
  {
    var s := v + "\"" + rest;
    if v == "" {
      assert s[1..] == rest;
    } else {
      LiteralReadsBack(v[1..], rest);
      assert s[1..] == v[1..] + "\"" + rest;
      assert [v[0]] + v[1..] == v;
    }
  }

  ghost predicate Backslashes(b: string) {
    b != "" && forall i | 0 <= i < |b| :: b[i] == '\\'
  }

  /** Once an escape has swallowed an octet, the rest of the value cannot make up for it. */
  lemma {:induction false} NoCatchingUp(b: string, tail: string, rest: string)
    requires Backslashes(b)
    ensures var r := ScanValue(tail + "\"" + rest); r.Some? ==> r.value.value != b + tail
    decreases |tail|
  {
    var s := tail + "\"" + rest;
    var r := ScanValue(s);
    assert (b + tail)[0] == '\\';
    if r.Some? && tail != "" && s[0] == '\\' {
      if Escapable(s[1]) {
        if s[1] == '\\' {
          assert s[2..] == tail[2..] + "\"" + rest;
          NoCatchingUp(b[1..] + "\\\\", tail[2..], rest);
          assert (b + tail)[1..] == b[1..] + "\\\\" + tail[2..];
          assert r.value.value[1..] == ScanValue(s[2..]).value.value;
        } else {
          assert r.value.value[0] != '\\';
        }
      } else {
        assert s[1..] == tail[1..] + "\"" + rest;
        NoCatchingUp(b[1..] + "\\", tail[1..], rest);
        assert (b + tail)[1..] == b[1..] + "\\" + tail[1..];
        assert r.value.value[1..] == ScanValue(s[1..]).value.value;
      }
    }
  }

  lemma {:induction false} OnlyLiteralsReadBack(v: string, rest: string)
    requires ScanValue(v + "\"" + rest).Some? && ScanValue(v + "\"" + rest).value.value == v
    ensures LiteralValue(v)
  {
    var s := v + "\"" + rest;
    if v != "" {
      if s[0] == '\\' && Escapable(s[1]) {
        var p := ScanValue(s[2..]).value;
        assert v == [s[1]] + p.value;
        assert s[1] == '\\';
        assert s[2..] == v[2..] + "\"" + rest;
        assert p.value == ([s[1]] + p.value)[1..] == v[1..];
        assert v[1..] == "\\" + v[2..];
        NoCatchingUp("\\", v[2..], rest);
        assert false;
      } else {
        assert s[1..] == v[1..] + "\"" + rest;
        var p := ScanValue(s[1..]).value;
        assert v[1..] == ([s[0]] + p.value)[1..] == p.value;
        OnlyLiteralsReadBack(v[1..], rest);
      }
    }
  }

  /** A value reads back unchanged exactly when it is literal. */
  lemma ValueReadsBackExactly(v: string, rest: string)
    ensures (ScanValue(v + "\"" + rest).Some? && ScanValue(v + "\"" + rest).value.value == v) <==> LiteralValue(v)
    ensures LiteralValue(v) ==> ScanValue(v + "\"" + rest) == Some(Parsed(v, rest))
  {
    if LiteralValue(v) {
      LiteralReadsBack(v, rest);
    } else if ScanValue(v + "\"" + rest).Some? && ScanValue(v + "\"" + rest).value.value == v {
      OnlyLiteralsReadBack(v, rest);
    }
  }

  predicate SdName(s: string) {
    1 <= |s| <= MAX_SD_NAME && forall i | 0 <= i < |s| :: SdNameChar(s[i])
  }

  lemma {:induction false} NameLengthUnique(s: string, n: nat)
    requires n < |s| && !SdNameChar(s[n]) && forall i | 0 <= i < n :: SdNameChar(s[i])
    ensures NameLength(s) == n
  {
    var m := NameLength(s);
    assert m < |s| ==> !SdNameChar(s[m]);
  }

  function PrintParam(p: SdParam): string {
    " " + p.name + "=\"" + p.value + "\""
  }

  function PrintParams(ps: seq<SdParam>): string {
    if ps == [] then "" else PrintParam(ps[0]) + PrintParams(ps[1..])
  }

  predicate Literals(ps: seq<SdParam>) {
    forall i | 0 <= i < |ps| :: LiteralValue(ps[i].value)
  }

  /** The shape of one printed parameter, as ParseParams takes it apart. */
  lemma ParamShape(p: SdParam, more: string)
    requires SdName(p.name)
    ensures var s := PrintParam(p) + more;
            && s != "" && s[0] == ' ' && NameLength(s[1..]) == |p.name| && s[1..1 + |p.name|] == p.name
            && |s[1 + |p.name|..]| >= 2 && s[1 + |p.name|..][0] == '=' && s[1 + |p.name|..][1] == '"'
            && s[1 + |p.name|..][2..] == p.value + "\"" + more
  {
    var s, n := PrintParam(p) + more, |p.name|;
    assert s[1..] == p.name + ("=\"" + p.value + "\"" + more);
    NameLengthUnique(s[1..], n);
    assert s[1 + n..] == "=\"" + p.value + "\"" + more;
    assert s[1 + n..][2..] == p.value + "\"" + more;
  }

  lemma LiteralsFirst(ps: seq<SdParam>)
    requires ps != []
    ensures Literals(ps) <==> LiteralValue(ps[0].value) && Literals(ps[1..])
  {
    assert forall i | 0 <= i < |ps| - 1 :: ps[1..][i] == ps[i + 1];
  }

  /** The parser takes one printed parameter off and goes on with the rest. */
  lemma ParamParses(p: SdParam, more: string)
    requires SdName(p.name)
    ensures var v, r := ScanValue(p.value + "\"" + more), ParseParams(PrintParam(p) + more);
            if v.None? || ParseParams(v.value.rest).None? then r.None?
            else var q := ParseParams(v.value.rest).value;
                 r == Some(Parsed([SdParam(p.name, v.value.value)] + q.value, q.rest))
  {
    hide PrintParam, ScanValue, NameLength;
    ParamShape(p, more);
  }

  lemma {:induction false} ParamsReadBackExactly(ps: seq<SdParam>, rest: string)
    requires forall i | 0 <= i < |ps| :: SdName(ps[i].name)
    ensures ParseParams(PrintParams(ps) + "]" + rest) == Some(Parsed(ps, rest)) <==> Literals(ps)
    ensures var r := ParseParams(PrintParams(ps) + "]" + rest); r.Some? && r.value.value == ps ==> Literals(ps)
    decreases |ps|
  {
    var s := PrintParams(ps) + "]" + rest;
    if ps == [] {
      assert s[1..] == rest;
    } else {
      hide PrintParam, ScanValue, ParseParams, LiteralValue, Literals;
      var p, more := ps[0], PrintParams(ps[1..]) + "]" + rest;
      assert s == PrintParam(p) + more;
      ParamParses(p, more);
      ValueReadsBackExactly(p.value, more);
      ParamsReadBackExactly(ps[1..], rest);
      assert ps == [p] + ps[1..];
      LiteralsFirst(ps);
      var r := ParseParams(s);
      if r.Some? && r.value.value == ps {
        var v := ScanValue(p.value + "\"" + more).value;
        assert r.value.value[0] == SdParam(p.name, v.value);
        assert r.value.value[1..] == ParseParams(v.rest).value.value;
      }
    }
  }

  function PrintElement(e: SdElement): string {
    "[" + e.id + PrintParams(e.params) + "]"
  }

  lemma ElementReadsBackExactly(e: SdElement, rest: string)
    requires SdName(e.id) && forall i | 0 <= i < |e.params| :: SdName(e.params[i].name)
    ensures ParseElement(PrintElement(e) + rest) == Some(Parsed(e, rest)) <==> Literals(e.params)
    ensures var r := ParseElement(PrintElement(e) + rest); r.Some? && r.value.value == e ==> Literals(e.params)
  {
    hide ParseParams, NameLength, Literals;
    var s, n := PrintElement(e) + rest, |e.id|;
    var tail := PrintParams(e.params) + "]" + rest;
    assert s[1..] == e.id + tail;
    assert !SdNameChar(tail[0]) by { if e.params != [] { assert PrintParam(e.params[0])[0] == ' '; } }
    NameLengthUnique(s[1..], n);
    assert s[1..1 + n] == e.id && s[1 + n..] == tail;
    ParamsReadBackExactly(e.params, rest);
  }
}
