/** The RFC 5424 printer of the syslog egress, and what a receiver makes of its output. */
module Rfc5424 {
  import opened Wrappers
  import opened ByteStrings
  import opened Decimals
  import opened SyslogParser

  datatype LogType = OUT | ERR | OtherType

  datatype GaugeValue = GaugeValue(value: real, unit: string)

  datatype Message =
    | Log(payload: string, logType: LogType)
    | Gauge(metrics: map<string, GaugeValue>)
    | Counter(name: string, total: nat, delta: nat)
    | OtherMessage

  datatype Envelope = Envelope(timestamp: int, instanceId: string, tags: map<string, string>, message: Message)

  /** The property an error names, and the value it shows. */
  datatype Error = InvalidValue(property: string, value: string)

  /** time.Format, strings.ToUpper and strconv.FormatFloat, whose insides are not modelled. */
  datatype Platform = Platform(formatTime: int -> string, toUpper: string -> string, formatFloat: real -> string)

  // ----- the pieces of a message -----

  function Nilify(x: string): string {
    if x == "" then "-" else x
  }

  function Priority(t: LogType): string {
    match t
    case OUT => "14"
    case ERR => "11"
    case OtherType => "-1"
  }

  function RemoveNulls(msg: string): string {
    if msg == "" then "" else (if msg[0] == '\0' then "" else [msg[0]]) + RemoveNulls(msg[1..])
  }

  function AppendNewline(msg: string): string {
    if msg != "" && msg[|msg| - 1] == '\n' then msg else msg + "\n"
  }

  function DashSpaces(s: string): (r: string)
    ensures |r| == |s|
    ensures forall i | 0 <= i < |s| :: r[i] == if s[i] == ' ' then '-' else s[i]
  {
    if s == "" then "" else [if s[0] == ' ' then '-' else s[0]] + DashSpaces(s[1..])
  }

  /** generateProcessID: spaces of the source type become dashes only when there is an instance. */
  function ProcessId(p: Platform, sourceType: string, instance: string): string {
    var upper := p.toUpper(sourceType);
    if instance != "" then "[" + DashSpaces(upper) + "/" + instance + "]" else "[" + upper + "]"
  }

  function SourceType(env: Envelope): string {
    if "source_type" in env.tags then env.tags["source_type"] else ""
  }

  /** Everything up to the structured data. */
  function Header(pri: string, ts: string, host: string, app: string, pid: string): string {
    "<" + pri + ">1 " + ts + " " + host + " " + app + " " + pid + " - "
  }

  function LogHeader(p: Platform, env: Envelope, hostname: string, appId: string): string
    requires env.message.Log?
  {
    Header(Priority(env.message.logType), p.formatTime(env.timestamp), Nilify(hostname), Nilify(appId),
           Nilify(ProcessId(p, SourceType(env), env.instanceId)))
  }

  function LogText(env: Envelope): string
    requires env.message.Log?
  {
    AppendNewline(RemoveNulls(env.message.payload))
  }

  function LogMessage(p: Platform, env: Envelope, hostname: string, appId: string): string
    requires env.message.Log?
  {
    LogHeader(p, env, hostname, appId) + "- " + LogText(env)
  }

  function MetricHeader(p: Platform, env: Envelope, hostname: string, appId: string): string {
    Header("14", p.formatTime(env.timestamp), Nilify(hostname), Nilify(appId), "[" + env.instanceId + "]")
  }

  function CounterElement(env: Envelope): SdElement
    requires env.message.Counter?
  {
    SdElement("counter@47450",
              [SdParam("name", env.message.name),
               SdParam("total", Decimal(env.message.total)),
               SdParam("delta", Decimal(env.message.delta))])
  }

  function GaugeElement(p: Platform, name: string, g: GaugeValue): SdElement {
    SdElement("gauge@47450",
              [SdParam("name", name), SdParam("value", p.formatFloat(g.value)), SdParam("unit", g.unit)])
  }

  function CounterMessage(p: Platform, env: Envelope, hostname: string, appId: string): string
    requires env.message.Counter?
  {
    MetricHeader(p, env, hostname, appId) + PrintElement(CounterElement(env)) + " \n"
  }

  function GaugeMessage(p: Platform, env: Envelope, hostname: string, appId: string, name: string): string
    requires env.message.Gauge? && name in env.message.metrics
  {
    MetricHeader(p, env, hostname, appId) + PrintElement(GaugeElement(p, name, env.message.metrics[name])) + " \n"
  }

  // ----- the message builders -----

  function SdText(id: string, n1: string, v1: string, n2: string, v2: string, n3: string, v3: string): string {
    "[" + id + " " + n1 + "=\"" + v1 + "\" " + n2 + "=\"" + v2 + "\" " + n3 + "=\"" + v3 + "\"]"
  }

  lemma SdTextIsElement(id: string, n1: string, v1: string, n2: string, v2: string, n3: string, v3: string)
    ensures SdText(id, n1, v1, n2, v2, n3, v3)
         == PrintElement(SdElement(id, [SdParam(n1, v1), SdParam(n2, v2), SdParam(n3, v3)]))
  {
    var p1, p2, p3 := SdParam(n1, v1), SdParam(n2, v2), SdParam(n3, v3);
    ThreeParams(p1, p2, p3);
    hide PrintParams;
    assert SdText(id, n1, v1, n2, v2, n3, v3)
        == "[" + id + (PrintParam(p1) + (PrintParam(p2) + PrintParam(p3))) + "]";
  }

  lemma ThreeParams(p1: SdParam, p2: SdParam, p3: SdParam)
    ensures PrintParams([p1, p2, p3]) == PrintParam(p1) + (PrintParam(p2) + PrintParam(p3))
  {
    hide PrintParam;
    assert [p1, p2, p3][1..] == [p2, p3] && [p2, p3][1..] == [p3] && [p3][1..] == [];
    assert PrintParams([p3]) == PrintParam(p3) + "";
    assert PrintParams([p2, p3]) == PrintParam(p2) + PrintParam(p3);
  }

  method AppendHeader(pri: string, ts: string, host: string, app: string, pid: string) returns (tmp: string)
    ensures tmp == Header(pri, ts, host, app, pid)
  {
    tmp := "";
    tmp := tmp + ("<" + pri + ">1 ");
    tmp := tmp + (ts + " ");
    tmp := tmp + (host + " ");
    tmp := tmp + (app + " ");
    tmp := tmp + (pid + " - ");
  }

  method ToLogMessage(p: Platform, env: Envelope, hostname: string, appId: string) returns (msg: string)
    requires env.message.Log?
    ensures msg == LogMessage(p, env, hostname, appId)
  {
    var pid := Nilify(ProcessId(p, SourceType(env), env.instanceId));
    msg := AppendHeader(Priority(env.message.logType), p.formatTime(env.timestamp),
                        Nilify(hostname), Nilify(appId), pid);
    msg := msg + "- ";
    msg := msg + AppendNewline(RemoveNulls(env.message.payload));
  }

  method ToCounterMessage(p: Platform, env: Envelope, hostname: string, appId: string) returns (msg: string)
    requires env.message.Counter?
    ensures msg == CounterMessage(p, env, hostname, appId)
  {
    var sd := SdText("counter@47450", "name", env.message.name,
                     "total", Decimal(env.message.total), "delta", Decimal(env.message.delta));
    SdTextIsElement("counter@47450", "name", env.message.name,
                    "total", Decimal(env.message.total), "delta", Decimal(env.message.delta));
    msg := AppendHeader("14", p.formatTime(env.timestamp), Nilify(hostname), Nilify(appId), "[" + env.instanceId + "]");
    msg := msg + sd + " \n";
  }

  /** One message for each metric, in whatever order the map is ranged over. */
  ghost predicate GaugeMessages(p: Platform, env: Envelope, hostname: string, appId: string,
                                names: seq<string>, msgs: seq<string>)
    requires env.message.Gauge?
  {
    && |msgs| == |names|
    && (forall i, j | 0 <= i < j < |names| :: names[i] != names[j])
    && (forall i | 0 <= i < |names| :: names[i] in env.message.metrics
                                       && msgs[i] == GaugeMessage(p, env, hostname, appId, names[i]))
  }

  /** The body of the loop over the metrics. */
  method BuildGauge(p: Platform, env: Envelope, hostname: string, appId: string, name: string)
    returns (gauge: string)
    requires env.message.Gauge? && name in env.message.metrics
    ensures gauge == GaugeMessage(p, env, hostname, appId, name)
  {
    var g := env.message.metrics[name];
    var sd := SdText("gauge@47450", "name", name, "value", p.formatFloat(g.value), "unit", g.unit);
    SdTextIsElement("gauge@47450", "name", name, "value", p.formatFloat(g.value), "unit", g.unit);
    gauge := AppendHeader("14", p.formatTime(env.timestamp), Nilify(hostname), Nilify(appId),
                          "[" + env.instanceId + "]");
    gauge := gauge + sd + " \n";
  }

  method ToGaugeMessages(p: Platform, env: Envelope, hostname: string, appId: string)
    returns (gauges: seq<string>, ghost names: seq<string>)
    requires env.message.Gauge?
    ensures GaugeMessages(p, env, hostname, appId, names, gauges)
    ensures forall k | k in env.message.metrics :: k in names
    ensures |gauges| == |env.message.metrics|
    ensures forall k | k in env.message.metrics :: GaugeMessage(p, env, hostname, appId, k) in gauges
  {
    hide GaugeMessage;
    gauges, names := [], [];
    var todo := env.message.metrics.Keys;
    while todo != {}
      invariant todo <= env.message.metrics.Keys
      invariant GaugeMessages(p, env, hostname, appId, names, gauges)
      invariant forall k | k in names :: k !in todo
      invariant forall k | k in env.message.metrics && k !in todo :: k in names
      invariant |gauges| + |todo| == |env.message.metrics.Keys|
      decreases todo
    {
      var name :| name in todo;
      var gauge := BuildGauge(p, env, hostname, appId, name);
      gauges := gauges + [gauge];
      names := names + [name];
      todo := todo - {name};
    }
    forall k | k in env.message.metrics ensures GaugeMessage(p, env, hostname, appId, k) in gauges {
      var i :| 0 <= i < |names| && names[i] == k;
      assert gauges[i] == GaugeMessage(p, env, hostname, appId, k);
    }
  }

  /** What ToRFC5424 may return: an error, or the messages of the envelope. */
  ghost predicate Renders(p: Platform, env: Envelope, hostname: string, appId: string, msgs: seq<string>) {
    match env.message
    case Log(_, _) => msgs == [LogMessage(p, env, hostname, appId)]
    case Counter(_, _, _) => msgs == [CounterMessage(p, env, hostname, appId)]
    case Gauge(metrics) =>
      exists names ::
        && GaugeMessages(p, env, hostname, appId, names, msgs)
        && forall k | k in metrics :: k in names
    case OtherMessage => msgs == []
  }

  /** A name or an instance id exceeds its limit; a long instance id is reported as an invalid app name. */
  predicate TooLong(env: Envelope, hostname: string, appId: string) {
    |hostname| > MAX_HOSTNAME || |appId| > MAX_APP_NAME || |env.instanceId| > MAX_PROC_ID
  }

  method ToRFC5424(p: Platform, env: Envelope, hostname: string, appId: string)
    returns (r: Result<seq<string>, Error>)
    ensures r.Err? <==> TooLong(env, hostname, appId)
    ensures r.Err? <==> |hostname| > 255 || |appId| > 48 || |env.instanceId| > 128
    ensures r.Err? ==> r.error == if |hostname| > MAX_HOSTNAME then InvalidValue("Hostname", hostname)
                                  else InvalidValue("AppName", appId)
    ensures r.Ok? ==> Renders(p, env, hostname, appId, r.value)
    ensures r.Ok? ==> forall m | m in r.value :: m != ""
    ensures r.Ok? && env.message.OtherMessage? ==> r.value == []
  {
    if |hostname| > MAX_HOSTNAME {
      return Err(InvalidValue("Hostname", hostname));
    }
    if |appId| > MAX_APP_NAME {
      return Err(InvalidValue("AppName", appId));
    }
    if |env.instanceId| > MAX_PROC_ID {
      return Err(InvalidValue("AppName", appId));
    }
    match env.message
    case Log(_, _) =>
      var msg := ToLogMessage(p, env, hostname, appId);
      return Ok([msg]);
    case Gauge(_) =>
      var msgs, names := ToGaugeMessages(p, env, hostname, appId);
      return Ok(msgs);
    case Counter(_, _, _) =>
      var msg := ToCounterMessage(p, env, hostname, appId);
      return Ok([msg]);
    case OtherMessage =>
      return Ok([]);
  }

  // ----- reading the header back -----

  lemma PriorityReadsBack(pri: string, rest: string)
    requires pri == "14" || pri == "11"
    ensures ParsePriority("<" + pri + ">" + rest) == Some(Parsed(if pri == "14" then 14 else 11, rest))
  {
    var s := "<" + pri + ">" + rest;
    IndexOfUnique(s, '>', 3);
    assert s[1..3] == pri && s[4..] == rest;
    assert pri[..2][..1] == pri[..1] && pri[..1][..0] == "";
    assert pri[..1] == "1" && ValueOf("1") == 1;
    assert ValueOf(pri) == 10 * ValueOf(pri[..1]) + (pri[1] as int - '0' as int);
  }

  lemma MinusOneIsNoPriority(rest: string)
    ensures ParsePriority("<-1>" + rest).None?
  {
    var s := "<-1>" + rest;
    IndexOfUnique(s, '>', 3);
    assert s[1..3][0] == '-';
  }

  predicate GoodHeader(host: string, app: string, pid: string) {
    Field(host, MAX_HOSTNAME) && Field(app, MAX_APP_NAME) && Field(pid, MAX_PROC_ID)
  }

  lemma HeaderFields(ts: string, host: string, app: string, pid: string)
    ensures PrintFields([ts, host, app, pid, "-"]) == ts + " " + host + " " + app + " " + pid + " - "
  {
    PrintFirst("-", []);
    PrintFirst(pid, ["-"]);
    PrintFirst(app, [pid, "-"]);
    PrintFirst(host, [app, pid, "-"]);
    PrintFirst(ts, [host, app, pid, "-"]);
    assert PrintFields([]) == "";
    hide PrintFields;
    assert [ts] + [host, app, pid, "-"] == [ts, host, app, pid, "-"];
    assert [host] + [app, pid, "-"] == [host, app, pid, "-"];
    assert [app] + [pid, "-"] == [app, pid, "-"] && [pid] + ["-"] == [pid, "-"] && ["-"] + [] == ["-"];
    assert PrintFields([pid, "-"]) == pid + " - ";
    assert PrintFields([app, pid, "-"]) == app + " " + (pid + " - ");
  }

  lemma PrintFirst(f: string, rest: seq<string>)
    ensures PrintFields([f] + rest) == f + " " + PrintFields(rest)
  {
    assert ([f] + rest)[1..] == rest;
  }

  lemma FieldsAreValid(ts: string, host: string, app: string, pid: string)
    requires Field(ts, MAX_TIMESTAMP) && GoodHeader(host, app, pid)
    ensures AllFields([ts, host, app, pid, "-"], HEADER_LIMITS)
  {
    var f, n := [ts, host, app, pid, "-"], HEADER_LIMITS;
    assert f[4..][1..] == [] && n[4..][1..] == [];
    assert AllFields(f[4..], n[4..]);
    assert f[3..][1..] == f[4..] && n[3..][1..] == n[4..];
    assert f[2..][1..] == f[3..] && n[2..][1..] == n[3..];
    assert AllFields(f[2..], n[2..]);
    assert f[1..][1..] == f[2..] && n[1..][1..] == n[2..];
  }

  /** With valid fields, the parser is left with the body. */
  lemma HeaderReadsBack(pri: string, ts: string, host: string, app: string, pid: string, body: string)
    requires (pri == "14" || pri == "11") && Field(ts, MAX_TIMESTAMP) && GoodHeader(host, app, pid)
    ensures Parse(Header(pri, ts, host, app, pid) + body)
         == Assemble(if pri == "14" then 14 else 11, [ts, host, app, pid, "-"], ParseBody(body))
  {
    var fields := [ts, host, app, pid, "-"];
    var tail := PrintFields(fields) + body;
    HeaderFields(ts, host, app, pid);
    assert Header(pri, ts, host, app, pid) + body == "<" + pri + ">" + ("1 " + tail);
    PriorityReadsBack(pri, "1 " + tail);
    assert ("1 " + tail)[..2] == "1 " && ("1 " + tail)[2..] == tail;
    FieldsAreValid(ts, host, app, pid);
    FieldsReadBack(fields, HEADER_LIMITS, body);
  }

  lemma ParsedFieldsAreValid(s: string)
    requires Parse(s).Some?
    ensures GoodHeader(Parse(s).value.hostname, Parse(s).value.appName, Parse(s).value.procId)
  {
  }

  // ----- round trips -----

  function PriorityValue(t: LogType): nat {
    match t
    case OUT => 14
    case ERR => 11
    case OtherType => 0
  }

  /**
    A receiver recovers a log message, NUL bytes removed and newline appended,
    exactly when its type has a priority, the host and application names are
    header fields of section 6 of RFC 5424, and source type and instance id
    make a valid PROCID.
    */
  lemma LogRoundTripExactly(p: Platform, env: Envelope, hostname: string, appId: string)
    requires env.message.Log? && Field(p.formatTime(env.timestamp), MAX_TIMESTAMP)
    ensures var pid := ProcessId(p, SourceType(env), env.instanceId);
            Parse(LogMessage(p, env, hostname, appId))
              == Some(SyslogMsg(PriorityValue(env.message.logType), p.formatTime(env.timestamp),
                                Nilify(hostname), Nilify(appId), pid, "-", [], Some(LogText(env))))
            <==> && !env.message.logType.OtherType?
                 && Field(Nilify(hostname), MAX_HOSTNAME) && Field(Nilify(appId), MAX_APP_NAME)
                 && GoodProcessId(p.toUpper(SourceType(env)), env.instanceId)
  {
    var pid := ProcessId(p, SourceType(env), env.instanceId);
    ProcessIdIsFieldExactly(p, SourceType(env), env.instanceId);
    LogReadsBackExactly(p, env, hostname, appId, pid);
  }

  lemma LogReadsBackExactly(p: Platform, env: Envelope, hostname: string, appId: string, pid: string)
    requires env.message.Log? && Field(p.formatTime(env.timestamp), MAX_TIMESTAMP)
    requires pid == ProcessId(p, SourceType(env), env.instanceId)
    ensures Parse(LogMessage(p, env, hostname, appId))
              == Some(SyslogMsg(PriorityValue(env.message.logType), p.formatTime(env.timestamp),
                                Nilify(hostname), Nilify(appId), pid, "-", [], Some(LogText(env))))
            <==> !env.message.logType.OtherType? && GoodHeader(Nilify(hostname), Nilify(appId), pid)
  {
    var m := LogMessage(p, env, hostname, appId);
    var text := "- " + LogText(env);
    assert m == LogHeader(p, env, hostname, appId) + text;
    if env.message.logType.OtherType? {
      var rest := m[4..];
      assert m == "<-1>" + rest;
      MinusOneIsNoPriority(rest);
    } else if GoodHeader(Nilify(hostname), Nilify(appId), pid) {
      HeaderReadsBack(Priority(env.message.logType), p.formatTime(env.timestamp),
                      Nilify(hostname), Nilify(appId), pid, text);
      assert text[1..][1..] == LogText(env);
    } else if Parse(m).Some? {
      ParsedFieldsAreValid(m);
    }
  }

  /** Spaces of the source type do no harm when there is an instance, and are kept when there is none. */
  predicate GoodProcessId(upper: string, instance: string) {
    if instance == "" then
      |upper| + 2 <= MAX_PROC_ID && forall i | 0 <= i < |upper| :: Printable(upper[i])
    else
      && |upper| + |instance| + 3 <= MAX_PROC_ID
      && (forall i | 0 <= i < |upper| :: Printable(upper[i]) || upper[i] == ' ')
      && (forall i | 0 <= i < |instance| :: Printable(instance[i]))
  }

  lemma ProcessIdIsFieldExactly(p: Platform, sourceType: string, instance: string)
    ensures Field(ProcessId(p, sourceType, instance), MAX_PROC_ID) <==> GoodProcessId(p.toUpper(sourceType), instance)
  {
    var upper, pid := p.toUpper(sourceType), ProcessId(p, sourceType, instance);
    var n := |upper|;
    assert forall i | 0 <= i < n ::
        pid[i + 1] == if instance != "" && upper[i] == ' ' then '-' else upper[i];
    if instance != "" {
      assert pid == "[" + (DashSpaces(upper) + ("/" + (instance + "]")));
      assert forall i | 0 <= i < |instance| :: pid[n + 2 + i] == instance[i];
      assert pid[n + 1] == '/' && pid[|pid| - 1] == ']';
    }
    if GoodProcessId(upper, instance) {
      forall i | 0 <= i < |pid| ensures Printable(pid[i]) {
        if 1 <= i <= n { assert pid[i] == pid[(i - 1) + 1]; }
        else if n + 2 <= i < |pid| - 1 { assert pid[i] == instance[i - n - 2]; }
      }
    }
  }

  lemma BodyReadsBack(e: SdElement)
    requires SdName(e.id) && forall i | 0 <= i < |e.params| :: SdName(e.params[i].name)
    ensures ParseBody(PrintElement(e) + " \n") == Some(Parsed([e], " \n")) <==> Literals(e.params)
    ensures var r := ParseBody(PrintElement(e) + " \n"); r.Some? && r.value.value == [e] ==> Literals(e.params)
  {
    var body := PrintElement(e) + " \n";
    assert body[0] == '[';
    hide PrintElement, ParseElement, Literals;
    ElementReadsBackExactly(e, " \n");
    var r := ParseElement(body);
    if ParseBody(body).Some? && ParseBody(body).value.value == [e] {
      assert ParseBody(body).value.value[0] == r.value.value;
    }
  }

  /** The structured data of a metric message, then the message "\n". */
  lemma MetricRoundTripExactly(ts: string, host: string, app: string, pid: string, e: SdElement)
    requires Field(ts, MAX_TIMESTAMP)
    requires SdName(e.id) && forall i | 0 <= i < |e.params| :: SdName(e.params[i].name)
    ensures Parse(Header("14", ts, host, app, pid) + PrintElement(e) + " \n")
              == Some(SyslogMsg(14, ts, host, app, pid, "-", [e], Some("\n")))
            <==> GoodHeader(host, app, pid) && Literals(e.params)
  {
    var body := PrintElement(e) + " \n";
    var m := Header("14", ts, host, app, pid) + PrintElement(e) + " \n";
    assert m == Header("14", ts, host, app, pid) + body;
    if GoodHeader(host, app, pid) {
      hide Header, PrintElement, ParseBody, Literals, GoodHeader, Parse;
      HeaderReadsBack("14", ts, host, app, pid, body);
      BodyReadsBack(e);
    } else if Parse(m).Some? {
      ParsedFieldsAreValid(m);
    }
  }

  lemma LiteralsOfThree(ps: seq<SdParam>)
    requires |ps| == 3
    ensures Literals(ps) <==> LiteralValue(ps[0].value) && LiteralValue(ps[1].value) && LiteralValue(ps[2].value)
  {
    hide LiteralValue;
  }

  lemma {:induction false} DigitsAreLiteral(s: string)
    requires AllDigits(s)
    ensures LiteralValue(s)
  {
    if s != "" { DigitsAreLiteral(s[1..]); }
  }

  /**
    A receiver recovers a counter message, and from it the name, total and
    delta, exactly when the header fields are valid and the counter's name is
    literal.
    */
  lemma CounterRoundTripExactly(p: Platform, env: Envelope, hostname: string, appId: string)
    requires env.message.Counter? && Field(p.formatTime(env.timestamp), MAX_TIMESTAMP)
    ensures Parse(CounterMessage(p, env, hostname, appId))
              == Some(SyslogMsg(14, p.formatTime(env.timestamp), Nilify(hostname), Nilify(appId),
                                "[" + env.instanceId + "]", "-", [CounterElement(env)], Some("\n")))
            <==> && GoodHeader(Nilify(hostname), Nilify(appId), "[" + env.instanceId + "]")
                 && LiteralValue(env.message.name)
    ensures ValueOf(CounterElement(env).params[1].value) == env.message.total
    ensures ValueOf(CounterElement(env).params[2].value) == env.message.delta
  {
    var e := CounterElement(env);
    DecimalRoundTrip(env.message.total);
    DecimalRoundTrip(env.message.delta);
    DigitsAreLiteral(e.params[1].value);
    DigitsAreLiteral(e.params[2].value);
    LiteralsOfThree(e.params);
    hide Parse, PrintElement, Literals, LiteralValue, GoodHeader;
    MetricRoundTripExactly(p.formatTime(env.timestamp), Nilify(hostname), Nilify(appId), "[" + env.instanceId + "]", e);
  }

  /** The same for every metric of a gauge, whose unit must be literal too. */
  lemma GaugeRoundTripExactly(p: Platform, env: Envelope, hostname: string, appId: string, name: string)
    requires env.message.Gauge? && name in env.message.metrics && Field(p.formatTime(env.timestamp), MAX_TIMESTAMP)
    requires LiteralValue(p.formatFloat(env.message.metrics[name].value))
    ensures Parse(GaugeMessage(p, env, hostname, appId, name))
              == Some(SyslogMsg(14, p.formatTime(env.timestamp), Nilify(hostname), Nilify(appId),
                                "[" + env.instanceId + "]", "-",
                                [GaugeElement(p, name, env.message.metrics[name])], Some("\n")))
            <==> && GoodHeader(Nilify(hostname), Nilify(appId), "[" + env.instanceId + "]")
                 && LiteralValue(name) && LiteralValue(env.message.metrics[name].unit)
  {
    var e := GaugeElement(p, name, env.message.metrics[name]);
    LiteralsOfThree(e.params);
    hide Parse, PrintElement, Literals, LiteralValue, GoodHeader;
    MetricRoundTripExactly(p.formatTime(env.timestamp), Nilify(hostname), Nilify(appId), "[" + env.instanceId + "]", e);
  }

  /** Twelve octets besides the fields, so every builder stays within the capacity it allocates. */
  lemma WithinCapacity(p: Platform, env: Envelope, hostname: string, appId: string)
    requires env.message.Log?
    ensures |LogMessage(p, env, hostname, appId)|
         == 12 + |Priority(env.message.logType)| + |p.formatTime(env.timestamp)| + |Nilify(hostname)| + |Nilify(appId)|
            + |ProcessId(p, SourceType(env), env.instanceId)| + |LogText(env)|
  {
  }

  lemma MetricWithinCapacity(p: Platform, env: Envelope, hostname: string, appId: string, e: SdElement)
    ensures |MetricHeader(p, env, hostname, appId) + PrintElement(e) + " \n"|
         == 12 + |"14"| + |p.formatTime(env.timestamp)| + |Nilify(hostname)| + |Nilify(appId)|
            + |"[" + env.instanceId + "]"| + |PrintElement(e)|
  {
  }

  /** How many of the first n bytes are not NUL. */
  function NonNulls(msg: string, n: nat): nat
    requires n <= |msg|
  {
    if n == 0 then 0 else NonNulls(msg, n - 1) + if msg[n - 1] == '\0' then 0 else 1
  }

  lemma {:induction false} NonNullsFirst(msg: string, n: nat)
    requires 1 <= n <= |msg|
    ensures NonNulls(msg, n) == (if msg[0] == '\0' then 0 else 1) + NonNulls(msg[1..], n - 1)
  {
    if n > 1 { NonNullsFirst(msg, n - 1); }
  }

  /** Every byte that is not NUL survives, moved up by the NULs before it, and nothing else is left. */
  lemma {:induction false} NullsAreGone(payload: string)
    ensures |RemoveNulls(payload)| == NonNulls(payload, |payload|)
    ensures forall i | 0 <= i < |payload| && payload[i] != '\0' ::
              NonNulls(payload, i) < |RemoveNulls(payload)| && RemoveNulls(payload)[NonNulls(payload, i)] == payload[i]
    ensures forall i | 0 <= i < |RemoveNulls(payload)| :: RemoveNulls(payload)[i] != '\0'
  {
    if payload != "" {
      NullsAreGone(payload[1..]);
      NonNullsFirst(payload, |payload|);
      var r := RemoveNulls(payload);
      forall i | 0 <= i < |payload| && payload[i] != '\0'
        ensures NonNulls(payload, i) < |r| && r[NonNulls(payload, i)] == payload[i]
      {
        if i > 0 {
          NonNullsFirst(payload, i);
          assert payload[1..][i - 1] == payload[i];
        }
      }
    }
  }

  // ----- what a receiver makes of an envelope, in its own terms -----

  /** The last byte that is not NUL is a newline. */
  ghost predicate EndsInNewline(payload: string) {
    exists i :: 0 <= i < |payload| && payload[i] == '\n' && NonNulls(payload, i) == NonNulls(payload, |payload|) - 1
  }

  /** The bytes of the payload other than NULs, in order, and a newline unless they end in one. */
  ghost predicate TextOf(text: string, payload: string) {
    && |text| == NonNulls(payload, |payload|) + (if EndsInNewline(payload) then 0 else 1)
    && (forall i | 0 <= i < |payload| && payload[i] != '\0' ::
          NonNulls(payload, i) < |text| && text[NonNulls(payload, i)] == payload[i])
    && text != "" && text[|text| - 1] == '\n'
  }

  lemma {:induction false} LastNonNull(payload: string, n: nat) returns (i: nat)
    requires n <= |payload| && NonNulls(payload, n) > 0
    ensures i < n && payload[i] != '\0' && NonNulls(payload, i) == NonNulls(payload, n) - 1
  {
    if payload[n - 1] != '\0' {
      i := n - 1;
    } else {
      i := LastNonNull(payload, n - 1);
    }
  }

  lemma TextIsTextOf(payload: string)
    ensures TextOf(AppendNewline(RemoveNulls(payload)), payload)
  {
    hide RemoveNulls, NonNulls;
    NullsAreGone(payload);
    var r := RemoveNulls(payload);
    if r != "" {
      var i := LastNonNull(payload, |payload|);
      assert r[|r| - 1] == payload[i];
      if EndsInNewline(payload) {
        var j :| 0 <= j < |payload| && payload[j] == '\n' && NonNulls(payload, j) == NonNulls(payload, |payload|) - 1;
        assert r[NonNulls(payload, j)] == payload[j];
      }
    }
  }

  /** A payload without NULs that ends in a newline is its own text. */
  lemma PlainTextIsItself(text: string, payload: string)
    requires TextOf(text, payload) && payload != "" && payload[|payload| - 1] == '\n'
    requires forall i | 0 <= i < |payload| :: payload[i] != '\0'
    ensures text == payload
  {
    forall i: nat | i <= |payload| ensures NonNulls(payload, i) == i { AllNonNull(payload, i); }
    assert EndsInNewline(payload) by { assert NonNulls(payload, |payload| - 1) == |payload| - 1; }
    forall i | 0 <= i < |payload| ensures text[i] == payload[i] { assert NonNulls(payload, i) == i; }
  }

  lemma {:induction false} AllNonNull(payload: string, n: nat)
    requires n <= |payload| && forall i | 0 <= i < |payload| :: payload[i] != '\0'
    ensures NonNulls(payload, n) == n
  {
    if n > 0 { AllNonNull(payload, n - 1); }
  }

  /** [TYPE] or, with an instance, [TYPE/instance] with dashes for the spaces of the type. */
  predicate IsProcessId(pid: string, upper: string, instance: string) {
    if instance == "" then pid == "[" + upper + "]" else
    && |pid| == |upper| + |instance| + 3
    && pid[0] == '[' && pid[|upper| + 1] == '/' && pid[|pid| - 1] == ']'
    && (forall i | 0 <= i < |upper| :: pid[1 + i] == if upper[i] == ' ' then '-' else upper[i])
    && pid[|upper| + 2..|pid| - 1] == instance
  }

  lemma ProcessIdIsProcessId(p: Platform, sourceType: string, instance: string)
    ensures IsProcessId(ProcessId(p, sourceType, instance), p.toUpper(sourceType), instance)
  {
    var upper, pid := p.toUpper(sourceType), ProcessId(p, sourceType, instance);
    if instance != "" {
      assert pid == "[" + (DashSpaces(upper) + ("/" + (instance + "]")));
      assert pid[|upper| + 2..|pid| - 1] == instance;
    }
  }

  predicate HeaderOf(m: SyslogMsg, priority: nat, timestamp: string, hostname: string, appId: string) {
    && m.priority == priority && m.timestamp == timestamp && m.msgId == "-"
    && m.hostname == (if hostname == "" then "-" else hostname)
    && m.appName == (if appId == "" then "-" else appId)
  }

  /** The host name and the application id can be printed into a header. */
  predicate ReadableNames(p: Platform, env: Envelope, hostname: string, appId: string) {
    && Field(p.formatTime(env.timestamp), MAX_TIMESTAMP)
    && (hostname != "" ==> Field(hostname, 255)) && (appId != "" ==> Field(appId, 48))
  }

  /**
    A receiver of what a log envelope renders to gets one message, with the
    envelope's type, time, names, source and text.
    */
  lemma LogReceived(p: Platform, env: Envelope, hostname: string, appId: string, msgs: seq<string>)
    requires env.message.Log? && !env.message.logType.OtherType? && Renders(p, env, hostname, appId, msgs)
    requires ReadableNames(p, env, hostname, appId)
    requires GoodProcessId(p.toUpper(if "source_type" in env.tags then env.tags["source_type"] else ""), env.instanceId)
    ensures |msgs| == 1 && Parse(msgs[0]).Some?
    ensures var m := Parse(msgs[0]).value;
            var source := if "source_type" in env.tags then env.tags["source_type"] else "";
            && HeaderOf(m, if env.message.logType == OUT then 14 else 11, p.formatTime(env.timestamp), hostname, appId)
            && IsProcessId(m.procId, p.toUpper(source), env.instanceId)
            && m.sd == [] && m.msg.Some? && TextOf(m.msg.value, env.message.payload)
  {
    LogRoundTripExactly(p, env, hostname, appId);
    ProcessIdIsProcessId(p, SourceType(env), env.instanceId);
    TextIsTextOf(env.message.payload);
    hide Parse, LogMessage, TextOf, ProcessId, IsProcessId, GoodProcessId;
  }

  /** The receiver of a counter gets its name, and numbers that denote its total and delta. */
  lemma CounterReceived(p: Platform, env: Envelope, hostname: string, appId: string, msgs: seq<string>)
    requires env.message.Counter? && Renders(p, env, hostname, appId, msgs)
    requires ReadableNames(p, env, hostname, appId) && Field("[" + env.instanceId + "]", MAX_PROC_ID)
    requires LiteralValue(env.message.name)
    ensures |msgs| == 1 && Parse(msgs[0]).Some?
    ensures var m := Parse(msgs[0]).value;
            && HeaderOf(m, 14, p.formatTime(env.timestamp), hostname, appId)
            && m.procId == "[" + env.instanceId + "]" && m.msg == Some("\n")
            && |m.sd| == 1 && m.sd[0].id == "counter@47450" && |m.sd[0].params| == 3
            && var ps := m.sd[0].params;
               && ps[0] == SdParam("name", env.message.name)
               && ps[1].name == "total" && AllDigits(ps[1].value) && ValueOf(ps[1].value) == env.message.total
               && ps[2].name == "delta" && AllDigits(ps[2].value) && ValueOf(ps[2].value) == env.message.delta
  {
    CounterRoundTripExactly(p, env, hostname, appId);
    DecimalRoundTrip(env.message.total);
    DecimalRoundTrip(env.message.delta);
    hide Parse, CounterMessage, LiteralValue, Decimal, ValueOf;
  }

  lemma {:induction false} DistinctCount(names: seq<string>, ks: set<string>)
    requires forall i, j | 0 <= i < j < |names| :: names[i] != names[j]
    requires forall k :: k in names <==> k in ks
    ensures |names| == |ks|
    decreases |names|
  {
    if names == [] {
      assert ks == {};
    } else {
      var front, last := names[..|names| - 1], names[|names| - 1];
      forall k ensures k in front <==> k in ks - {last} { assert k in names <==> k in front || k == last; }
      DistinctCount(front, ks - {last});
    }
  }

  /** The message m reports one metric: its name, value and unit, in this order. */
  predicate ReportsGauge(m: SyslogMsg, p: Platform, env: Envelope, hostname: string, appId: string, name: string)
    requires env.message.Gauge? && name in env.message.metrics
  {
    var g := env.message.metrics[name];
    && HeaderOf(m, 14, p.formatTime(env.timestamp), hostname, appId)
    && m.procId == "[" + env.instanceId + "]" && m.msg == Some("\n")
    && |m.sd| == 1 && m.sd[0].id == "gauge@47450"
    && m.sd[0].params == [SdParam("name", name), SdParam("value", p.formatFloat(g.value)), SdParam("unit", g.unit)]
  }

  lemma GaugeReceived(p: Platform, env: Envelope, hostname: string, appId: string, name: string)
    requires env.message.Gauge? && name in env.message.metrics
    requires ReadableNames(p, env, hostname, appId) && Field("[" + env.instanceId + "]", MAX_PROC_ID)
    requires var g := env.message.metrics[name];
             LiteralValue(name) && LiteralValue(g.unit) && LiteralValue(p.formatFloat(g.value))
    ensures var r := Parse(GaugeMessage(p, env, hostname, appId, name));
            r.Some? && ReportsGauge(r.value, p, env, hostname, appId, name)
  {
    hide Parse, GaugeMessage, LiteralValue;
    GaugeRoundTripExactly(p, env, hostname, appId, name);
  }

  /** The receiver of a gauge gets one message for each metric. */
  lemma GaugesReceived(p: Platform, env: Envelope, hostname: string, appId: string, msgs: seq<string>, name: string)
    requires env.message.Gauge? && Renders(p, env, hostname, appId, msgs) && name in env.message.metrics
    requires ReadableNames(p, env, hostname, appId) && Field("[" + env.instanceId + "]", MAX_PROC_ID)
    requires var g := env.message.metrics[name];
             LiteralValue(name) && LiteralValue(g.unit) && LiteralValue(p.formatFloat(g.value))
    ensures |msgs| == |env.message.metrics|
    ensures exists i :: 0 <= i < |msgs| && Parse(msgs[i]).Some?
                        && ReportsGauge(Parse(msgs[i]).value, p, env, hostname, appId, name)
  {
    hide Parse, GaugeMessage, LiteralValue, ReportsGauge, ReadableNames, Field;
    var names :| && GaugeMessages(p, env, hostname, appId, names, msgs)
                 && forall k | k in env.message.metrics :: k in names;
    DistinctCount(names, env.message.metrics.Keys);
    var i :| 0 <= i < |names| && names[i] == name;
    GaugeReceived(p, env, hostname, appId, name);
    assert msgs[i] == GaugeMessage(p, env, hostname, appId, name);
  }
}
