/** Blacklisted address ranges: reading them from the environment and checking addresses. */
module BlacklistRanges {
  import opened Wrappers
  import opened ByteStrings

  type byte = b: int | 0 <= b < 256

  /** net.IP; an address from net.ParseIP has 16 bytes. */
  type IP = seq<byte>

  datatype BlacklistRange = BlacklistRange(start: string, end: string)

  datatype RangeError = InvalidRange(text: string) | InvalidAddress(text: string) | StartAfterEnd(range: BlacklistRange)

  /** net.ParseIP: None for nil. */
  type ParseIP = string -> Option<IP>

  ghost predicate SixteenBytes(parse: ParseIP) {
    forall s :: parse(s).Some? ==> |parse(s).value| == 16
  }

  /** bytes.Compare. */
  function Compare(a: IP, b: IP): int {
    if a == [] && b == [] then 0
    else if a == [] then -1
    else if b == [] then 1
    else if a[0] < b[0] then -1
    else if a[0] > b[0] then 1
    else Compare(a[1..], b[1..])
  }

  function Bytes(ip: Option<IP>): IP {
    if ip.Some? then ip.value else []
  }

  /** The number an address is, most significant byte first. */
  function Value(a: IP): nat {
    if a == [] then 0 else Value(a[..|a| - 1]) * 256 + a[|a| - 1]
  }

  function Pow256(n: nat): nat {
    if n == 0 then 1 else 256 * Pow256(n - 1)
  }

  lemma {:induction false} ValueFirst(a: IP)
    requires a != []
    ensures Value(a) == a[0] * Pow256(|a| - 1) + Value(a[1..])
    ensures Value(a[1..]) < Pow256(|a| - 1)
  {
    var n := |a| - 1;
    if n == 0 {
      assert a[..0] == [] && a[1..] == [];
    } else {
      ValueFirst(a[..n]);
      var p, v := Pow256(n - 1), Value(a[1..][..n - 1]);
      assert a[..n][1..] == a[1..][..n - 1];
      assert Value(a[1..]) == v * 256 + a[n];
      assert Pow256(n) == 256 * p;
      ShiftByte(a[0], p, v);
    }
  }

  lemma ShiftByte(x: byte, p: nat, v: nat)
    ensures (x * p + v) * 256 == x * (256 * p) + v * 256
  {
  }

  lemma LeadingByteDecides(x: byte, u: nat, y: byte, v: nat, p: nat)
    requires x < y && u < p
    ensures x * p + u < y * p + v
  {
    assert (x + 1) * p <= y * p;
  }

  /** Byte order is numeric order on addresses of one length. */
  lemma {:induction false} CompareIsNumeric(a: IP, b: IP)
    requires |a| == |b|
    ensures Compare(a, b) < 0 <==> Value(a) < Value(b)
    ensures Compare(a, b) == 0 <==> Value(a) == Value(b)
    ensures Compare(a, b) > 0 <==> Value(a) > Value(b)
  {
    if a != [] {
      ValueFirst(a);
      ValueFirst(b);
      var p := Pow256(|a| - 1);
      if a[0] < b[0] {
        LeadingByteDecides(a[0], Value(a[1..]), b[0], Value(b[1..]), p);
      } else if a[0] > b[0] {
        LeadingByteDecides(b[0], Value(b[1..]), a[0], Value(a[1..]), p);
      } else {
        CompareIsNumeric(a[1..], b[1..]);
      }
    }
  }

  ghost predicate ValidRange(parse: ParseIP, r: BlacklistRange) {
    && parse(r.start).Some? && parse(r.end).Some?
    && Value(parse(r.start).value) <= Value(parse(r.end).value)
  }

  /** An address lies in a range when its number does. */
  ghost predicate InRange(parse: ParseIP, r: BlacklistRange, ip: IP)
    requires ValidRange(parse, r)
  {
    Value(parse(r.start).value) <= Value(ip) <= Value(parse(r.end).value)
  }

  // ----- splitting -----

  /** strings.Split by a one-character separator. */
  function Split(s: string, sep: char): (r: seq<string>)
    ensures |r| >= 1
    decreases |s|
  {
    var n := IndexOf(s, sep);
    if n == |s| then [s] else [s[..n]] + Split(s[n + 1..], sep)
  }

  function Join(parts: seq<string>, sep: char): string
    requires parts != []
  {
    if |parts| == 1 then parts[0] else parts[0] + [sep] + Join(parts[1..], sep)
  }

  predicate Avoids(s: string, c: char) {
    forall i | 0 <= i < |s| :: s[i] != c
  }

  /** Splitting undoes joining as long as no part contains the separator. */
  lemma {:induction false} SplitJoin(parts: seq<string>, sep: char)
    requires parts != [] && forall p | p in parts :: Avoids(p, sep)
    ensures Split(Join(parts, sep), sep) == parts
    decreases |parts|
  {
    var s := Join(parts, sep);
    assert parts[0] in parts;
    if |parts| == 1 {
      assert IndexOf(s, sep) == |s|;
    } else {
      var n := |parts[0]|;
      assert forall i | 0 <= i < n :: s[i] == parts[0][i];
      IndexOfUnique(s, sep, n);
      assert s[..n] == parts[0] && s[n + 1..] == Join(parts[1..], sep);
      SplitJoin(parts[1..], sep);
      assert [parts[0]] + parts[1..] == parts;
    }
  }

  /** The text UnmarshalEnv reads for these ranges. */
  function Text(r: BlacklistRange): string {
    r.start + "-" + r.end
  }

  function Texts(ranges: seq<BlacklistRange>): (ts: seq<string>)
    ensures |ts| == |ranges| && forall i | 0 <= i < |ts| :: ts[i] == Text(ranges[i])
  {
    seq(|ranges|, i requires 0 <= i < |ranges| => Text(ranges[i]))
  }

  function EnvText(ranges: seq<BlacklistRange>): string {
    if ranges == [] then "" else Join(Texts(ranges), ',')
  }

  predicate Plain(r: BlacklistRange) {
    Avoids(r.start, '-') && Avoids(r.end, '-') && Avoids(r.start, ',') && Avoids(r.end, ',')
  }

  lemma RangeSplits(r: BlacklistRange)
    requires Plain(r)
    ensures Split(Text(r), '-') == [r.start, r.end]
    ensures Avoids(Text(r), ',')
  {
    assert Join([r.start, r.end][1..], '-') == r.end;
    assert Join([r.start, r.end], '-') == Text(r);
    SplitJoin([r.start, r.end], '-');
  }

  lemma EnvTextSplits(ranges: seq<BlacklistRange>)
    requires ranges != [] && forall r | r in ranges :: Plain(r)
    ensures Split(EnvText(ranges), ',') == Texts(ranges) && EnvText(ranges) != ""
    ensures forall i | 0 <= i < |ranges| :: Split(Texts(ranges)[i], '-') == [ranges[i].start, ranges[i].end]
  {
    var ts := Texts(ranges);
    forall i | 0 <= i < |ranges|
      ensures Avoids(ts[i], ',') && Split(ts[i], '-') == [ranges[i].start, ranges[i].end]
    {
      assert ranges[i] in ranges;
      RangeSplits(ranges[i]);
    }
    SplitJoin(ts, ',');
    JoinNotEmpty(ts, ',');
  }

  lemma JoinNotEmpty(parts: seq<string>, sep: char)
    requires parts != [] && parts[0] != ""
    ensures Join(parts, sep) != ""
  {
  }

  /** The ranges read before the first malformed part, and that part. */
  datatype Reading = Reading(ranges: seq<BlacklistRange>, malformed: Option<string>)

  function ReadParts(parts: seq<string>): Reading {
    if parts == [] then Reading([], None) else
    var ips := Split(parts[0], '-');
    if |ips| != 2 then Reading([], Some(parts[0])) else
    var rest := ReadParts(parts[1..]);
    Reading([BlacklistRange(ips[0], ips[1])] + rest.ranges, rest.malformed)
  }

  lemma ReadPartsAt(parts: seq<string>, i: nat)
    requires i < |parts|
    ensures var ips, rest := Split(parts[i], '-'), ReadParts(parts[i + 1..]);
            ReadParts(parts[i..]) == if |ips| != 2 then Reading([], Some(parts[i]))
                                     else Reading([BlacklistRange(ips[0], ips[1])] + rest.ranges, rest.malformed)
  {
    assert parts[i..][0] == parts[i] && parts[i..][1..] == parts[i + 1..];
  }

  lemma {:induction false} SplitAvoids(s: string, sep: char, c: char)
    ensures forall p | p in Split(s, sep) :: Avoids(p, sep)
    ensures Avoids(s, c) ==> forall p | p in Split(s, sep) :: Avoids(p, c)
    decreases |s|
  {
    var n := IndexOf(s, sep);
    if n < |s| {
      SplitAvoids(s[n + 1..], sep, c);
    }
  }

  lemma JoinFirst(part: string, rest: seq<string>, sep: char)
    requires rest != []
    ensures Join([part] + rest, sep) == part + [sep] + Join(rest, sep)
  {
    assert ([part] + rest)[1..] == rest;
  }

  /** Joining undoes splitting. */
  lemma {:induction false} JoinSplit(s: string, sep: char)
    ensures Join(Split(s, sep), sep) == s
    decreases |s|
  {
    var n := IndexOf(s, sep);
    if n < |s| {
      var rest := Split(s[n + 1..], sep);
      assert Split(s, sep) == [s[..n]] + rest;
      JoinSplit(s[n + 1..], sep);
      JoinFirst(s[..n], rest, sep);
      hide Split, Join;
      assert s == s[..n] + [sep] + s[n + 1..];
    }
  }

  /** A part of exactly two texts around one dash. */
  predicate WellFormed(part: string) {
    |Split(part, '-')| == 2
  }

  /** One range for each part before the first malformed one, made of the texts around its dash. */
  lemma {:induction false} ReadPartsExactly(parts: seq<string>)
    ensures var n := |ReadParts(parts).ranges|;
            && n <= |parts|
            && (forall i | 0 <= i < n ::
                  WellFormed(parts[i])
                  && ReadParts(parts).ranges[i] == BlacklistRange(Split(parts[i], '-')[0], Split(parts[i], '-')[1]))
            && (n == |parts| ==> ReadParts(parts).malformed == None)
            && (n < |parts| ==> !WellFormed(parts[n]) && ReadParts(parts).malformed == Some(parts[n]))
  {
    if parts != [] && WellFormed(parts[0]) {
      ReadPartsExactly(parts[1..]);
      var r, rest := ReadParts(parts), ReadParts(parts[1..]);
      forall i | 0 < i < |r.ranges| ensures
        WellFormed(parts[i]) && r.ranges[i] == BlacklistRange(Split(parts[i], '-')[0], Split(parts[i], '-')[1])
      {
        assert parts[i] == parts[1..][i - 1] && r.ranges[i] == rest.ranges[i - 1];
      }
    }
  }

  lemma {:induction false} ReadPartsArePlain(parts: seq<string>)
    requires forall p | p in parts :: Avoids(p, ',')
    ensures forall r | r in ReadParts(parts).ranges :: Plain(r)
  {
    if parts != [] {
      assert parts[0] in parts && forall p | p in parts[1..] :: p in parts;
      var ips := Split(parts[0], '-');
      SplitAvoids(parts[0], '-', ',');
      assert forall i | 0 <= i < |ips| :: ips[i] in ips;
      ReadPartsArePlain(parts[1..]);
    }
  }

  lemma {:induction false} ReadTexts(ranges: seq<BlacklistRange>)
    requires forall i | 0 <= i < |ranges| :: Split(Texts(ranges)[i], '-') == [ranges[i].start, ranges[i].end]
    ensures ReadParts(Texts(ranges)) == Reading(ranges, None)
  {
    if ranges != [] {
      assert Texts(ranges)[1..] == Texts(ranges[1..]);
      ReadTexts(ranges[1..]);
      assert [ranges[0]] + ranges[1..] == ranges;
    }
  }

  /**
    Ranges written as in the environment are read back exactly when no endpoint
    contains a separator.
    */
  lemma EnvRoundTripExactly(ranges: seq<BlacklistRange>)
    requires ranges != []
    ensures ReadParts(Split(EnvText(ranges), ',')) == Reading(ranges, None) <==> forall r | r in ranges :: Plain(r)
  {
    var parts := Split(EnvText(ranges), ',');
    if forall r | r in ranges :: Plain(r) {
      EnvTextSplits(ranges);
      ReadTexts(ranges);
    } else {
      SplitAvoids(EnvText(ranges), ',', ',');
      ReadPartsArePlain(parts);
    }
  }

  class BlacklistRanges {
    const parse: ParseIP
    var ranges: seq<BlacklistRange>

    ghost predicate Valid()
      reads this
    {
      SixteenBytes(parse) && forall r | r in ranges :: ValidRange(parse, r)
    }

    constructor (parse: ParseIP)
      requires SixteenBytes(parse)
      ensures Valid() && this.parse == parse && ranges == []
    {
      this.parse := parse;
      ranges := [];
    }

    /** validate: nil exactly when every range is an interval of addresses. */
    method Validate() returns (err: Option<RangeError>)
      requires SixteenBytes(parse)
      ensures err.None? <==> Valid()
      ensures err.None? <==> forall r | r in ranges ::
                && parse(r.start).Some? && parse(r.end).Some?
                && Value(parse(r.start).value) <= Value(parse(r.end).value)
    {
      for i := 0 to |ranges|
        invariant forall j | 0 <= j < i :: ValidRange(parse, ranges[j])
      {
        var r := ranges[i];
        assert r in ranges;
        var startIP, endIP := parse(r.start), parse(r.end);
        if startIP.None? {
          return Some(InvalidAddress(r.start));
        }
        if endIP.None? {
          return Some(InvalidAddress(r.end));
        }
        CompareIsNumeric(startIP.value, endIP.value);
        if Compare(startIP.value, endIP.value) > 0 {
          return Some(StartAfterEnd(r));
        }
      }
      return None;
    }

    /**
      CheckBlacklist rejects exactly the 16-byte addresses of the union of the
      ranges; a nil address is never rejected.
      */
    method CheckBlacklist(ip: IP) returns (blacklisted: bool)
      requires Valid()
      ensures |ip| == 16 ==>
                (blacklisted <==> exists r :: r in ranges && parse(r.start).Some? && parse(r.end).Some?
                                     && Value(parse(r.start).value) <= Value(ip) <= Value(parse(r.end).value))
      ensures ip == [] ==> !blacklisted
    {
      for i := 0 to |ranges|
        invariant |ip| == 16 ==>
                    forall j | 0 <= j < i :: ValidRange(parse, ranges[j]) && !InRange(parse, ranges[j], ip)
      {
        var r := ranges[i];
        assert r in ranges && ValidRange(parse, r);
        var lo, hi := Bytes(parse(r.start)), Bytes(parse(r.end));
        if |ip| == 16 {
          CompareIsNumeric(ip, lo);
          CompareIsNumeric(ip, hi);
        }
        if Compare(ip, lo) >= 0 && Compare(ip, hi) <= 0 {
          return true;
        }
      }
      return false;
    }

    /** The loop of UnmarshalEnv: the first malformed part, if any. */
    method ReadRanges(parts: seq<string>) returns (malformed: Option<string>)
      modifies this
      ensures ranges == old(ranges) + ReadParts(parts).ranges && malformed == ReadParts(parts).malformed
    {
      assert ReadParts(parts[|parts|..]) == Reading([], None) && parts[0..] == parts;
      hide Split, ReadParts;
      ghost var all := ReadParts(parts);
      for i := 0 to |parts|
        invariant old(ranges) + all.ranges == ranges + ReadParts(parts[i..]).ranges
        invariant all.malformed == ReadParts(parts[i..]).malformed
      {
        ReadPartsAt(parts, i);
        var ips := Split(parts[i], '-');
        if |ips| != 2 {
          return Some(parts[i]);
        }
        ranges := ranges + [BlacklistRange(ips[0], ips[1])];
      }
      return None;
    }

    /** UnmarshalEnv appends the ranges it reads, up to a malformed one, and validates the whole list. */
    method UnmarshalEnv(v: string) returns (err: Option<RangeError>)
      requires SixteenBytes(parse)
      modifies this
      ensures v == "" ==> err.None? && ranges == old(ranges)
      ensures v != "" ==> ranges == old(ranges) + ReadParts(Split(v, ',')).ranges
      ensures v != "" && ReadParts(Split(v, ',')).malformed.Some? ==>
                err == Some(InvalidRange(ReadParts(Split(v, ',')).malformed.value))
      ensures v != "" && ReadParts(Split(v, ',')).malformed.None? ==> (err.None? <==> Valid())
    {
      if v == "" {
        return None;
      }
      var malformed := ReadRanges(Split(v, ','));
      if malformed.Some? {
        return Some(InvalidRange(malformed.value));
      }
      err := Validate();
    }
  }

  // ----- IPv4 -----

  /** ::ffff:a.b.c.d, the form in which net.ParseIP returns an IPv4 address. */
  predicate Mapped(ip: IP) {
    |ip| == 16 && ip[..12] == [0, 0, 0, 0, 0, 0, 0, 0, 0, 0, 255, 255]
  }

  /** What lies between two sequences with a common beginning begins the same way. */
  lemma {:induction false} Between(a: IP, x: IP, b: IP, n: nat)
    requires |a| == |x| == |b| && n <= |a| && a[..n] == b[..n]
    requires Compare(a, x) <= 0 && Compare(x, b) <= 0
    ensures x[..n] == a[..n]
  {
    if n > 0 {
      assert a[0] == a[..n][0] == b[..n][0] == b[0];
      assert x[0] == a[0];
      assert a[1..][..n - 1] == a[..n][1..] && b[1..][..n - 1] == b[..n][1..];
      Between(a[1..], x[1..], b[1..], n - 1);
      assert x[..n] == [x[0]] + x[1..][..n - 1] && a[..n] == [a[0]] + a[1..][..n - 1];
    }
  }

  /** A range of IPv4 addresses contains only IPv4 addresses. */
  lemma MappedRange(lo: IP, ip: IP, hi: IP)
    requires Mapped(lo) && Mapped(hi) && |ip| == 16
    requires Value(lo) <= Value(ip) <= Value(hi)
    ensures Mapped(ip)
  {
    CompareIsNumeric(lo, ip);
    CompareIsNumeric(ip, hi);
    Between(lo, ip, hi, 12);
  }
}
