/** The text forms of bandwidth profiles, addresses with ports, and ISD-AS numbers. */
module Conversion {
  import opened Outcomes
  import opened Text

  // ---------------------------------------------------------------- comma-separated integers

  /** `list(map(int, parts))`, or None when one of them raises. */
  function ParseAll(parts: seq<string>): Option<seq<int>> {
    if |parts| == 0 then Some([])
    else
      var v :- ParseInt(parts[0], 10);
      var rest :- ParseAll(parts[1..]);
      Some([v] + rest)
  }

  function ShowAll(values: seq<int>): seq<string> {
    seq(|values|, i requires 0 <= i < |values| => ShowInt(values[i]))
  }

  function CsvToIntlist(csv: string): Option<seq<int>> {
    ParseAll(Split(csv, ','))
  }

  function IntlistToCsv(values: seq<int>): string {
    Join(ShowAll(values), ',')
  }

  /** Text accepted by the validator of profiles: unsigned decimal numbers separated by commas. */
  predicate IsIntListText(s: string) {
    forall p <- Split(s, ',') :: AllDigits(p)
  }

  lemma ShowIntChars(n: int)
    ensures forall c <- ShowInt(n) :: IsDigit(c) || c == '-'
    ensures n >= 0 <==> AllDigits(ShowInt(n))
  {
    var digits := Show(if n < 0 then -n else n, 10);
    assert forall c <- digits :: IsShown(c, 10);
    assert ShowInt(n)[0] in ShowInt(n);
  }

  lemma {:induction false} ParseAllOfShowAll(values: seq<int>)
    ensures ParseAll(ShowAll(values)) == Some(values)
  {
    hide ParseInt, ShowInt;
    if |values| > 0 {
      ParseOfShowInt(values[0]);
      assert ShowAll(values)[1..] == ShowAll(values[1..]);
      assert ShowAll(values)[0] == ShowInt(values[0]);
      ParseAllOfShowAll(values[1..]);
      assert values == [values[0]] + values[1..];
    }
  }

  lemma SplitOfCsv(values: seq<int>)
    requires |values| > 0
    ensures Split(IntlistToCsv(values), ',') == ShowAll(values)
  {
    forall p <- ShowAll(values) ensures ',' !in p {
      var i :| 0 <= i < |values| && p == ShowInt(values[i]);
      ShowIntChars(values[i]);
    }
    SplitOfJoin(ShowAll(values), ',');
  }

  /** Printing a profile and parsing it again gives the same numbers. */
  lemma CsvRoundTrip(values: seq<int>)
    requires |values| > 0
    ensures CsvToIntlist(IntlistToCsv(values)) == Some(values)
  {
    SplitOfCsv(values);
    ParseAllOfShowAll(values);
  }

  /** A printed profile is acceptable text exactly when no value is negative. */
  lemma CsvTextOfValues(values: seq<int>)
    requires |values| > 0
    ensures IsIntListText(IntlistToCsv(values)) <==> forall v <- values :: v >= 0
  {
    SplitOfCsv(values);
    var shown := ShowAll(values);
    if IsIntListText(IntlistToCsv(values)) {
      forall v <- values ensures v >= 0 {
        var i :| 0 <= i < |values| && values[i] == v;
        assert shown[i] in shown && AllDigits(shown[i]);
        ShowIntChars(v);
      }
    }
    if forall v <- values :: v >= 0 {
      forall p <- shown ensures AllDigits(p) {
        var i :| 0 <= i < |values| && p == ShowInt(values[i]);
        assert values[i] in values;
        ShowIntChars(values[i]);
      }
    }
  }

  lemma {:induction false} ParseAllOfDigits(parts: seq<string>)
    requires forall p <- parts :: AllDigits(p)
    ensures ParseAll(parts).Some? && |ParseAll(parts).value| == |parts|
    ensures forall v <- ParseAll(parts).value :: v >= 0
  {
    if |parts| > 0 {
      assert parts[0] in parts;
      ParseOfDigits(parts[0]);
      ParseAllOfDigits(parts[1..]);
    }
  }

  /** Validated text always parses, to at least one number and none below zero. */
  lemma ValidTextParses(s: string)
    requires IsIntListText(s)
    ensures CsvToIntlist(s).Some? && |CsvToIntlist(s).value| > 0
    ensures forall v <- CsvToIntlist(s).value :: v >= 0
  {
    ParseAllOfDigits(Split(s, ','));
  }

  /** A parsed list has as many numbers as the text has fields. */
  lemma {:induction false} ParseAllLength(parts: seq<string>)
    requires ParseAll(parts).Some?
    ensures |ParseAll(parts).value| == |parts|
  {
    if |parts| > 0 {
      ParseAllLength(parts[1..]);
    }
  }

  // ---------------------------------------------------------------- addresses

  type Octet = x: nat | x < 256
  type Address6 = x: nat | x < 0x1_0000_0000_0000_0000_0000_0000_0000_0000

  datatype Ip = V4(o0: Octet, o1: Octet, o2: Octet, o3: Octet) | V6(addr: Address6)

  /** The text form of IPv6 addresses is a parameter of the model. */
  datatype Ip6Codec = Ip6Codec(parse: string -> Option<Address6>, show: Address6 -> string)

  ghost predicate Lawful6(codec: Ip6Codec) {
    forall a: Address6 :: Lawful6At(codec, a)
  }

  ghost predicate Lawful6At(codec: Ip6Codec, a: Address6) {
    codec.parse(codec.show(a)) == Some(a) && forall c <- codec.show(a) :: c !in "[]\n" && c as int < 128
  }

  function ParseOctet(s: string): Option<Octet> {
    if !AllDigits(s) || |s| > 3 || (|s| > 1 && s[0] == '0') then None
    else
      var v :- Magnitude(s, 10);
      if v < 256 then Some(v) else None
  }

  function ParseIp4(s: string): Option<Ip> {
    var parts := Split(s, '.');
    if |parts| != 4 then None
    else
      var o0 :- ParseOctet(parts[0]);
      var o1 :- ParseOctet(parts[1]);
      var o2 :- ParseOctet(parts[2]);
      var o3 :- ParseOctet(parts[3]);
      Some(V4(o0, o1, o2, o3))
  }

  function ShowIp4(ip: Ip): string
    requires ip.V4?
  {
    Join([Show(ip.o0, 10), Show(ip.o1, 10), Show(ip.o2, 10), Show(ip.o3, 10)], '.')
  }

  function FindLast(s: string, c: char): (i: nat)
    requires c in s
    ensures i < |s| && s[i] == c && c !in s[i + 1..]
  {
    if s[|s| - 1] == c then |s| - 1 else
      assert s == s[..|s| - 1] + [s[|s| - 1]];
      var i := FindLast(s[..|s| - 1], c);
      assert s[i + 1..] == s[..|s| - 1][i + 1..] + [s[|s| - 1]];
      i
  }

  /** First line that holds a colon: the pattern's dots match anything but a line end. */
  function LineWithColon(lines: seq<string>): Option<string> {
    if |lines| == 0 then None
    else if ':' in lines[0] then Some(lines[0])
    else LineWithColon(lines[1..])
  }

  /** The two groups of the search for "(.*):(.*)": split at the last colon of that line. */
  function HostAndTail(s: string): Option<(string, string)> {
    var line :- LineWithColon(Split(s, '\n'));
    if ':' !in line then None
    else
      var i := FindLast(line, ':');
      Some((line[..i], line[i + 1..]))
  }

  predicate IsBracket(c: char) {
    c == '[' || c == ']'
  }

  function StripBrackets(s: string): string {
    if |s| > 0 && IsBracket(s[0]) then StripBrackets(s[1..])
    else if |s| > 0 && IsBracket(s[|s| - 1]) then StripBrackets(s[..|s| - 1])
    else s
  }

  function IpAndTail(codec: Ip6Codec, s: string): Option<(Ip, string)> {
    var (host, tail) :- HostAndTail(s);
    match ParseIp4(host)
    case Some(ip) => Some((ip, tail))
    case None =>
      var addr := StripBrackets(host);
      if addr == host then None
      else
        var a :- codec.parse(addr);
        Some((V6(a), tail))
  }

  const MAX_PORT := 65534

  function IpPort(codec: Ip6Codec, s: string): Option<(Ip, int)> {
    var (ip, tail) :- IpAndTail(codec, s);
    var port :- ParseInt(tail, 10);
    if 0 <= port <= MAX_PORT then Some((ip, port)) else None
  }

  datatype PortRange = PortRange(ip: Ip, low: int, high: int)

  function IpPortRange(codec: Ip6Codec, s: string): Option<PortRange> {
    var (ip, tail) :- IpAndTail(codec, s);
    var parts := Split(tail, '-');
    if |parts| != 2 then None
    else
      var p :- ParseInt(parts[0], 10);
      var q :- ParseInt(parts[1], 10);
      var (low, high) := if p <= q then (p, q) else (q, p);
      if high > MAX_PORT then None else Some(PortRange(ip, low, high))
  }

  function IpText(codec: Ip6Codec, ip: Ip): string {
    if ip.V6? then "[" + codec.show(ip.addr) + "]" else ShowIp4(ip)
  }

  function IpPortToStr(codec: Ip6Codec, ip: Ip, port: int): string {
    IpText(codec, ip) + ":" + ShowInt(port)
  }

  lemma OctetRoundTrip(o: Octet)
    ensures ParseOctet(Show(o, 10)) == Some(o)
  {
    var s := Show(o, 10);
    assert s[0] in s;
    MagnitudeOfShow(o, 10);
    assert |s| <= 3 by {
      if o >= 10 {
        Quotient(o, 10);
        assert |s| == |Show(o / 10, 10)| + 1;
        if o >= 100 {
          Quotient(o / 10, 10);
          assert |Show(o / 10, 10)| == |Show(o / 10 / 10, 10)| + 1;
        }
      }
    }
  }

  lemma Ip4RoundTrip(ip: Ip)
    requires ip.V4?
    ensures ParseIp4(ShowIp4(ip)) == Some(ip)
    ensures forall c <- ShowIp4(ip) :: IsDigit(c) || c == '.'
  {
    var parts := [Show(ip.o0, 10), Show(ip.o1, 10), Show(ip.o2, 10), Show(ip.o3, 10)];
    assert forall p <- parts :: forall c <- p :: IsShown(c, 10);
    SplitOfJoin(parts, '.');
    OctetRoundTrip(ip.o0);
    OctetRoundTrip(ip.o1);
    OctetRoundTrip(ip.o2);
    OctetRoundTrip(ip.o3);
    forall c <- ShowIp4(ip) ensures IsDigit(c) || c == '.' {
      JoinChars(parts, '.', c);
    }
  }

  lemma LastDigit(s: string)
    requires |s| > 1 && AllDigits(s)
    ensures AllDigits(s[..|s| - 1]) && IsDigit(s[|s| - 1])
    ensures Magnitude(s[..|s| - 1], 10).Some?
    ensures Magnitude(s, 10) == Some(Magnitude(s[..|s| - 1], 10).value * 10 + DigitValue(s[|s| - 1]))
  {
    assert s[|s| - 1] in s && s[|s| - 2] in s;
    assert forall c <- s[..|s| - 1] :: c in s;
    MagnitudeOfDigits(s[..|s| - 1]);
  }

  lemma ShowAppends(high: nat, c: char)
    requires high >= 1 && IsDigit(c)
    ensures Show(high * 10 + DigitValue(c), 10) == Show(high, 10) + [c]
  {
    var n := high * 10 + DigitValue(c);
    assert n / 10 == high && n % 10 == DigitValue(c) && DigitChar(DigitValue(c)) == c;
  }

  lemma OneDigit(c: char)
    requires IsDigit(c)
    ensures Magnitude([c], 10) == Some(DigitValue(c)) && Show(DigitValue(c), 10) == [c]
    ensures c != '0' ==> DigitValue(c) >= 1
  {
  }

  /** Digits without a leading zero are what their number is printed as. */
  lemma {:induction false} ShowOfMagnitude(s: string)
    requires AllDigits(s) && (|s| == 1 || s[0] != '0')
    ensures Magnitude(s, 10).Some? && Show(Magnitude(s, 10).value, 10) == s
    ensures s[0] != '0' ==> Magnitude(s, 10).value >= 1
  {
    hide Show, Magnitude, DigitValue;
    if |s| == 1 {
      assert s == [s[0]] && s[0] in s;
      OneDigit(s[0]);
    } else {
      var n := |s| - 1;
      LastDigit(s);
      ShowOfMagnitude(s[..n]);
      ShowAppends(Magnitude(s[..n], 10).value, s[n]);
      assert s == s[..n] + [s[n]];
    }
  }

  lemma ParseOctetIff(s: string, o: Octet)
    ensures ParseOctet(s) == Some(o) <==> s == Show(o, 10)
  {
    hide Show, Magnitude;
    OctetRoundTrip(o);
    if ParseOctet(s) == Some(o) {
      ShowOfMagnitude(s);
    }
  }

  /** The only text of an IPv4 address is the one it is printed as: four decimal octets without leading zeros. */
  lemma ParseIp4Iff(s: string, ip: Ip)
    requires ip.V4?
    ensures ParseIp4(s) == Some(ip) <==> s == ShowIp4(ip)
  {
    hide Show, ParseOctet, Split, Join;
    Ip4RoundTrip(ip);
    if ParseIp4(s) == Some(ip) {
      var parts := Split(s, '.');
      ParseOctetIff(parts[0], ip.o0);
      ParseOctetIff(parts[1], ip.o1);
      ParseOctetIff(parts[2], ip.o2);
      ParseOctetIff(parts[3], ip.o3);
      assert parts == [Show(ip.o0, 10), Show(ip.o1, 10), Show(ip.o2, 10), Show(ip.o3, 10)];
    }
  }

  lemma {:induction false} FindLastIs(s: string, c: char, i: nat)
    requires i < |s| && s[i] == c && c !in s[i + 1..]
    ensures FindLast(s, c) == i
  {
    if i < |s| - 1 {
      assert s[|s| - 1] in s[i + 1..];
      assert s[..|s| - 1][i + 1..] == s[i + 1..][..|s| - i - 2];
      FindLastIs(s[..|s| - 1], c, i);
    }
  }

  lemma HostAndTailOf(host: string, tail: string)
    requires '\n' !in host && '\n' !in tail && ':' !in tail
    ensures HostAndTail(host + ":" + tail) == Some((host, tail))
  {
    var s := host + ":" + tail;
    assert Split(s, '\n') == [s];
    assert s[|host|] == ':';
    assert s[|host| + 1..] == tail && s[..|host|] == host;
    FindLastIs(s, ':', |host|);
  }

  lemma BracketsStripped(addr: string)
    requires forall c <- addr :: !IsBracket(c)
    ensures StripBrackets("[" + addr + "]") == addr
    ensures ParseIp4("[" + addr + "]") == None
  {
    var s := "[" + addr + "]";
    var t := addr + "]";
    assert s[1..] == t && t[..|addr|] == addr;
    assert StripBrackets(s) == StripBrackets(t);
    if |addr| == 0 {
      assert t[1..] == addr;
    } else {
      assert t[0] == addr[0] && addr[0] in addr && addr[|addr| - 1] in addr;
      assert StripBrackets(t) == StripBrackets(addr);
    }
    var first := Split(s, '.')[0];
    assert |first| > 0 && first[0] == '[' && first[0] in first;
  }

  /** An address and a text after the colon are split again. */
  lemma HostSplits(codec: Ip6Codec, ip: Ip, tail: string)
    requires Lawful6(codec) && '\n' !in tail && ':' !in tail
    ensures IpAndTail(codec, IpText(codec, ip) + ":" + tail) == Some((ip, tail))
  {
    if ip.V4? {
      Ip4RoundTrip(ip);
      HostAndTailOf(ShowIp4(ip), tail);
    } else {
      assert Lawful6At(codec, ip.addr);
      var addr := codec.show(ip.addr);
      BracketsStripped(addr);
      HostAndTailOf("[" + addr + "]", tail);
    }
  }

  lemma PrintedSplits(codec: Ip6Codec, ip: Ip, port: int)
    requires Lawful6(codec)
    ensures IpAndTail(codec, IpPortToStr(codec, ip, port)) == Some((ip, ShowInt(port)))
  {
    ShowIntChars(port);
    HostSplits(codec, ip, ShowInt(port));
  }

  function ShowDecimal(ports: seq<nat>): seq<string> {
    seq(|ports|, i requires 0 <= i < |ports| => Show(ports[i], 10))
  }

  lemma ShownDecimalChars(ports: seq<nat>)
    requires |ports| > 0
    ensures forall s <- ShowDecimal(ports) :: '-' !in s
    ensures forall c <- Join(ShowDecimal(ports), '-') :: c != '\n' && c != ':'
  {
    hide Show;
    forall s <- ShowDecimal(ports) ensures forall c <- s :: IsShown(c, 10) {
      var i :| 0 <= i < |ports| && s == Show(ports[i], 10);
    }
    forall c <- Join(ShowDecimal(ports), '-') ensures c != '\n' && c != ':' {
      JoinChars(ShowDecimal(ports), '-', c);
    }
  }

  /** A template of an address and ports is accepted when there are two ports up to 65534, in either order. */
  lemma TemplateIff(codec: Ip6Codec, ip: Ip, ports: seq<nat>)
    requires Lawful6(codec) && |ports| > 0
    ensures IpPortRange(codec, IpText(codec, ip) + ":" + Join(ShowDecimal(ports), '-')) ==
      if |ports| == 2 && ports[0] <= 65534 && ports[1] <= 65534
      then Some(if ports[0] <= ports[1] then PortRange(ip, ports[0], ports[1]) else PortRange(ip, ports[1], ports[0]))
      else None
  {
    hide IpAndTail, IpText, ParseInt, Show, Split, Join;
    var shown := ShowDecimal(ports);
    ShownDecimalChars(ports);
    HostSplits(codec, ip, Join(shown, '-'));
    SplitOfJoin(shown, '-');
    if |ports| == 2 {
      ParseOfShow(ports[0], 10);
      ParseOfShow(ports[1], 10);
    }
  }

  /** Exactly the ports up to 65534 are read back; any other makes the text unreadable. */
  lemma IpPortRoundTripIff(codec: Ip6Codec, ip: Ip, port: int)
    requires Lawful6(codec)
    ensures IpPort(codec, IpPortToStr(codec, ip, port)) == if 0 <= port <= 65534 then Some((ip, port)) else None
  {
    hide IpAndTail, IpPortToStr, ParseInt, ShowInt;
    PrintedSplits(codec, ip, port);
    ParseOfShowInt(port);
  }

  /** What `ip_port_to_str` prints, `ip_port_from_str` reads back, for both address families. */
  lemma IpPortRoundTrip(codec: Ip6Codec, ip: Ip, port: int)
    requires Lawful6(codec) && 0 <= port <= MAX_PORT
    ensures IpPort(codec, IpPortToStr(codec, ip, port)) == Some((ip, port))
  {
    IpPortRoundTripIff(codec, ip, port);
  }

  lemma IpPortToStrInjective(codec: Ip6Codec, ip: Ip, port: int, ip': Ip, port': int)
    requires Lawful6(codec)
    requires IpPortToStr(codec, ip, port) == IpPortToStr(codec, ip', port')
    ensures ip == ip' && port == port'
  {
    hide IpAndTail, IpPortToStr, ShowInt;
    PrintedSplits(codec, ip, port);
    PrintedSplits(codec, ip', port');
    ShowIntInjective(port, port');
  }

  // ---------------------------------------------------------------- integers without a minus sign

  lemma {:induction false} TrimmedChars(s: string, c: char)
    requires c !in s
    ensures c !in TrimLeft(s) && c !in TrimRight(s)
    decreases |s|
  {
    if |s| > 0 {
      assert c !in s[1..] && c !in s[..|s| - 1];
      TrimmedChars(s[1..], c);
      TrimmedChars(s[..|s| - 1], c);
    }
  }

  lemma NoMinusNoNegative(s: string, base: nat)
    requires '-' !in s && ParseInt(s, base).Some?
    ensures ParseInt(s, base).value >= 0
  {
    TrimmedChars(s, '-');
    TrimmedChars(TrimLeft(s), '-');
    var t := TrimRight(TrimLeft(s));
    assert |t| > 0 ==> t[0] in t;
  }

  /** A template's ports are never negative: the dash separates the two ports. */
  lemma PortRangeBounds(codec: Ip6Codec, s: string)
    requires IpPortRange(codec, s).Some?
    ensures var r := IpPortRange(codec, s).value; 0 <= r.low <= r.high <= 65534
  {
    var (ip, tail) := IpAndTail(codec, s).value;
    var parts := Split(tail, '-');
    assert parts[0] in parts && parts[1] in parts;
    NoMinusNoNegative(parts[0], 10);
    NoMinusNoNegative(parts[1], 10);
  }

  // ---------------------------------------------------------------- ISD-AS numbers

  /** One 16-bit group of an AS number. */
  function HexGroup(s: string): Option<nat> {
    if HasBlankEnds(s) then None
    else
      var v :- ParseInt(s, 16);
      if 0 <= v <= 65535 then Some(v) else None
  }

  /** Groups read from the left, each shifting what came before by 16 bits. */
  function HexGroups(parts: seq<string>): Option<nat> {
    if |parts| == 0 then Some(0)
    else
      var high :- HexGroups(parts[..|parts| - 1]);
      var low :- HexGroup(parts[|parts| - 1]);
      Some(high * 0x1_0000 + low)
  }

  function AsNumber(s: string): Option<nat> {
    var parts := Split(s, ':');
    if |parts| == 1 then
      if HasBlankEnds(s) then None
      else
        var v :- ParseInt(s, 10);
        if 0 <= v < 0x1_0000_0000 then Some(v) else None
    else if |parts| != 3 then None
    else HexGroups(parts)
  }

  /** What `ia_str_to_int` returns, or None where it raises. */
  function IaValue(ia: string): Option<nat> {
    var parts := Split(ia, '-');
    if |parts| != 2 || HasBlankEnds(parts[0]) || HasBlankEnds(parts[1]) then None
    else
      var isd :- ParseInt(parts[0], 10);
      var number :- AsNumber(parts[1]);
      if 0 <= isd <= 65535 then Some(isd * 0x1_0000_0000_0000 + number) else None
  }

  lemma {:induction false} HexGroupsBound(parts: seq<string>)
    requires HexGroups(parts).Some? && |parts| <= 3
    ensures |parts| == 1 ==> HexGroups(parts).value < 0x1_0000
    ensures |parts| == 2 ==> HexGroups(parts).value < 0x1_0000_0000
    ensures HexGroups(parts).value < 0x1_0000_0000_0000
  {
    if |parts| > 0 {
      HexGroupsBound(parts[..|parts| - 1]);
    }
  }

  lemma {:induction false} HexGroupsFail(parts: seq<string>, n: nat)
    requires n <= |parts| && HexGroups(parts[..n]) == None
    ensures HexGroups(parts) == None
    decreases |parts|
  {
    if n < |parts| {
      assert parts[..|parts| - 1][..n] == parts[..n];
      HexGroupsFail(parts[..|parts| - 1], n);
    } else {
      assert parts[..n] == parts;
    }
  }

  /** The AS half, with the source's loop; shifting and or-ing 16 bits is `* 65536 + v` here. */
  method AsStrToInt(s: string) returns (r: Option<nat>)
    requires '-' !in s
    ensures r == AsNumber(s)
  {
    hide ParseInt, Split;
    var groups := Split(s, ':');
    if |groups| == 1 {
      if HasBlankEnds(s) {
        return None;
      }
      var v := ParseInt(s, 10);
      if v == None || v.value > 0xFFFF_FFFF {
        return None;
      }
      NoMinusNoNegative(s, 10);
      return Some(v.value);
    }
    if |groups| != 3 {
      return None;
    }
    var number: nat := 0;
    for i := 0 to |groups|
      invariant HexGroups(groups[..i]) == Some(number)
    {
      assert groups[..i + 1][..i] == groups[..i];
      var v := if HasBlankEnds(groups[i]) then None else ParseInt(groups[i], 16);
      GroupHasNoMinus(s, i);
      if v == None || v.value > 65535 {
        HexGroupsFail(groups, i + 1);
        return None;
      }
      number := number * 0x1_0000 + v.value;
    }
    assert groups[..|groups|] == groups;
    HexGroupsBound(groups);
    if number > 0xFFFF_FFFF_FFFF {
      assert false;
    }
    return Some(number);
  }

  method IaStrToInt(ia: string) returns (r: Option<nat>)
    ensures r == IaValue(ia)
  {
    hide ParseInt, AsNumber, HasBlankEnds, Split;
    var parts := Split(ia, '-');
    if |parts| != 2 || HasBlankEnds(parts[0]) || HasBlankEnds(parts[1]) {
      return None;
    }
    assert parts[0] in parts && parts[1] in parts;
    var isd := ParseInt(parts[0], 10);
    if isd == None || isd.value > 65535 {
      return None;
    }
    NoMinusNoNegative(parts[0], 10);
    var number := AsStrToInt(parts[1]);
    if number == None {
      return None;
    }
    return Some(isd.value * 0x1_0000_0000_0000 + number.value);
  }

  lemma GroupHasNoMinus(s: string, i: nat)
    requires '-' !in s && i < |Split(s, ':')|
    ensures '-' !in Split(s, ':')[i]
    ensures ParseInt(Split(s, ':')[i], 16).Some? ==> ParseInt(Split(s, ':')[i], 16).value >= 0
  {
    SplitChars(s, ':', '-', i);
    if ParseInt(Split(s, ':')[i], 16).Some? {
      NoMinusNoNegative(Split(s, ':')[i], 16);
    }
  }

  lemma {:induction false} SplitChars(s: string, sep: char, c: char, i: nat)
    requires c !in s && i < |Split(s, sep)|
    ensures c !in Split(s, sep)[i]
  {
    if sep in s {
      var k := Find(s, sep);
      assert c !in s[..k] && c !in s[k + 1..];
      if i > 0 {
        SplitChars(s[k + 1..], sep, c, i - 1);
      }
    }
  }

  function ShowIa(isd: nat, a: nat): string
  {
    Show(isd, 10) + "-" +
    Join([Show(a / 0x1_0000_0000, 16), Show(a / 0x1_0000 % 0x1_0000, 16), Show(a % 0x1_0000, 16)], ':')
  }

  lemma HexGroupOfShow(v: nat)
    ensures HexGroup(Show(v, 16)) == if v <= 65535 then Some(v) else None
  {
    var s := Show(v, 16);
    assert s[0] in s && s[|s| - 1] in s;
    ParseOfShow(v, 16);
  }

  /** Text whose AS half has no dash and no blank ends is split at the dash, and its ISD is read. */
  lemma IaOfHalves(isd: nat, right: string)
    requires |right| > 0 && forall c <- right :: c != '-' && !IsStripped(c)
    ensures var number := AsNumber(right);
      IaValue(Show(isd, 10) + "-" + right)
        == if number.Some? && isd <= 65535 then Some(isd * 0x1_0000_0000_0000 + number.value) else None
  {
    hide ParseInt, Split, Show, AsNumber;
    var left := Show(isd, 10);
    assert right[0] in right && right[|right| - 1] in right;
    assert left[0] in left && left[|left| - 1] in left;
    assert forall c <- left :: IsShown(c, 10);
    SplitOfJoin([left, right], '-');
    assert Join([left, right], '-') == left + "-" + right;
    ParseOfShow(isd, 10);
  }

  /** A decimal AS number is accepted up to 32 bits, an ISD up to 16. */
  lemma IaOfDecimal(isd: nat, a: nat)
    ensures IaValue(Show(isd, 10) + "-" + Show(a, 10))
         == if isd <= 65535 && a < 0x1_0000_0000 then Some(isd * 0x1_0000_0000_0000 + a) else None
  {
    hide ParseInt, Show, IaValue;
    var s := Show(a, 10);
    assert forall c <- s :: IsShown(c, 10);
    IaOfHalves(isd, s);
    assert s[0] in s && s[|s| - 1] in s;
    assert Split(s, ':') == [s];
    ParseOfShow(a, 10);
  }

  /** Hexadecimal groups are accepted when there are three of 16 bits each. */
  lemma IaOfGroups(isd: nat, groups: seq<nat>)
    requires |groups| > 1
    ensures IaValue(Show(isd, 10) + "-" + Join(ShowHex(groups), ':'))
         == if isd <= 65535 && |groups| == 3 && groups[0] <= 65535 && groups[1] <= 65535 && groups[2] <= 65535
            then Some(isd * 0x1_0000_0000_0000 + (groups[0] * 0x1_0000 + groups[1]) * 0x1_0000 + groups[2]) else None
  {
    hide ParseInt, Split, Show, HexGroup, HexGroups, IaValue;
    var shown := ShowHex(groups);
    var right := Join(shown, ':');
    ShownHexChars(groups);
    IaOfHalves(isd, right);
    SplitOfJoin(shown, ':');
    if |groups| == 3 {
      HexGroupOfShow(groups[0]);
      HexGroupOfShow(groups[1]);
      HexGroupOfShow(groups[2]);
      HexGroupsOfThree(shown);
    }
  }

  function ShowHex(groups: seq<nat>): seq<string> {
    seq(|groups|, i requires 0 <= i < |groups| => Show(groups[i], 16))
  }

  lemma ShownHexChars(groups: seq<nat>)
    requires |groups| > 1
    ensures |Join(ShowHex(groups), ':')| > 0
    ensures forall s <- ShowHex(groups) :: ':' !in s
    ensures forall c <- Join(ShowHex(groups), ':') :: c != '-' && !IsStripped(c)
  {
    hide Show;
    forall s <- ShowHex(groups) ensures forall c <- s :: IsShown(c, 16) {
      var i :| 0 <= i < |groups| && s == Show(groups[i], 16);
    }
    forall c <- Join(ShowHex(groups), ':') ensures c != '-' && !IsStripped(c) {
      JoinChars(ShowHex(groups), ':', c);
    }
  }

  lemma HexGroupsOfThree(groups: seq<string>)
    requires |groups| == 3
    ensures var x, y, z := HexGroup(groups[0]), HexGroup(groups[1]), HexGroup(groups[2]);
      HexGroups(groups) ==
        if x.Some? && y.Some? && z.Some? then Some((x.value * 0x1_0000 + y.value) * 0x1_0000 + z.value) else None
  {
    hide HexGroup, ParseInt;
    assert groups[..2] == [groups[0], groups[1]] && groups[..2][..1] == [groups[0]];
    assert HexGroups([groups[0]]) == HexGroup(groups[0]);
    var x, y := HexGroup(groups[0]), HexGroup(groups[1]);
    assert HexGroups(groups[..2]) == if x.Some? && y.Some? then Some(x.value * 0x1_0000 + y.value) else None;
  }

  /** The usual text of an ISD-AS number is read back as ISD * 2^48 + AS. */
  lemma IaRoundTrip(isd: nat, a: nat)
    requires isd <= 65535 && a < 0x1_0000_0000_0000
    ensures IaValue(ShowIa(isd, a)) == Some(isd * 0x1_0000_0000_0000 + a)
  {
    hide Show, IaValue, Join;
    var groups: seq<nat> := [a / 0x1_0000_0000, a / 0x1_0000 % 0x1_0000, a % 0x1_0000];
    IaOfGroups(isd, groups);
    assert ShowHex(groups) == [Show(groups[0], 16), Show(groups[1], 16), Show(groups[2], 16)];
    assert (groups[0] * 0x1_0000 + groups[1]) * 0x1_0000 + groups[2] == a;
  }

  lemma {:induction false} MagnitudeChars(s: string, base: nat, c: char)
    requires Magnitude(s, base).Some? && c in s && base <= 99
    ensures c == '_' || DigitValue(c) < base
  {
    var n := |s|;
    if c != s[n - 1] && n > 1 {
      var rest := if s[n - 2] == '_' then s[..n - 2] else s[..n - 1];
      if c != '_' {
        assert c in s[..n - 1];
        assert s[n - 2] == '_' ==> s[..n - 1] == s[..n - 2] + ['_'];
        MagnitudeChars(rest, base, c);
      }
    }
  }

  lemma {:induction false} TrimDropsSpaces(s: string, c: char)
    requires c in s && !IsSpace(c)
    ensures c in TrimLeft(s) && c in TrimRight(s)
    decreases |s|
  {
    assert s == [s[0]] + s[1..] && s == s[..|s| - 1] + [s[|s| - 1]];
    if c in s[1..] {
      TrimDropsSpaces(s[1..], c);
    }
    if c in s[..|s| - 1] {
      TrimDropsSpaces(s[..|s| - 1], c);
    }
  }

  /** A character that no number holds, in any base used here. */
  predicate NeverInNumber(c: char) {
    c !in "+-_xX" && DigitValue(c) == 99
  }

  lemma ParseIntChars(s: string, base: nat, c: char)
    requires ParseInt(s, base).Some? && base <= 16 && NeverInNumber(c)
    requires IsSpace(c) ==> !HasBlankEnds(s)
    ensures c !in s
  {
    hide Magnitude, TrimLeft, TrimRight;
    if c in s {
      if IsSpace(c) {
        TrimKeeps(s);
      } else {
        TrimDropsSpaces(s, c);
        TrimDropsSpaces(TrimLeft(s), c);
      }
      var t := TrimRight(TrimLeft(s));
      var signed := t[0] == '-' || t[0] == '+';
      var u := if signed then t[1..] else t;
      assert t == [t[0]] + t[1..];
      assert c in u;
      var prefixed := base == 16 && |u| >= 2 && u[0] == '0' && (u[1] == 'x' || u[1] == 'X');
      var w := if !prefixed then u else if |u| > 2 && u[2] == '_' then u[3..] else u[2..];
      if prefixed {
        assert u == [u[0], u[1]] + u[2..];
        assert |u| > 2 ==> u[2..] == [u[2]] + u[3..];
      }
      assert c in w;
      MagnitudeChars(w, base, c);
      assert false;
    }
  }

  lemma {:induction false} HexGroupsChars(parts: seq<string>, c: char)
    requires HexGroups(parts).Some? && NeverInNumber(c)
    ensures forall p <- parts :: c !in p
  {
    hide ParseInt, HasBlankEnds;
    if |parts| > 0 {
      HexGroupsChars(parts[..|parts| - 1], c);
      ParseIntChars(parts[|parts| - 1], 16, c);
      assert parts == parts[..|parts| - 1] + [parts[|parts| - 1]];
    }
  }

  lemma IaChars(ia: string, c: char)
    requires IaValue(ia).Some? && NeverInNumber(c) && c != ':'
    ensures c !in ia
  {
    hide ParseInt, HasBlankEnds, HexGroups;
    var parts := Split(ia, '-');
    ParseIntChars(parts[0], 10, c);
    var groups := Split(parts[1], ':');
    if |groups| == 1 {
      ParseIntChars(parts[1], 10, c);
    } else {
      HexGroupsChars(groups, c);
      if c in parts[1] {
        JoinChars(groups, ':', c);
      }
    }
    if c in ia {
      JoinChars(parts, '-', c);
    }
  }

  /** No accepted ISD-AS text holds the letter `s`, so the label after it can be found. */
  lemma IaHasNoS(ia: string)
    requires IaValue(ia).Some?
    ensures 's' !in ia
  {
    hide IaValue;
    IaChars(ia, 's');
  }

  /** No accepted ISD-AS text holds a blank, although the numbers in it are read by a parser that skips them. */
  lemma IaHasNoBlanks(ia: string)
    requires IaValue(ia).Some?
    ensures forall c <- ia :: !IsStripped(c)
  {
    hide IaValue;
    forall c <- ia ensures !IsStripped(c) {
      if IsStripped(c) {
        IaChars(ia, c);
      }
    }
  }
}
