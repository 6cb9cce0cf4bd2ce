/**
 ADP multiaddrs (src/link/AdpMultiaddr.cpp): splitting on a delimiter, decimal numbers,
 and the IPv4 and DNS forms of `/ip4/<host>/udp/<port>/adp/<wire>/p2p/<peer>`.
 IPv6 hosts go through the operating system's text form and are not part of this model.
 */
module Multiaddr {
  import opened Words

  const WIRE_VERSION: nat := 2
  const NEGOTIATION_NIBBLE: nat := 15
  const PROTOCOL := "adp"
  const LEGACY_VERSION := "1.0.0"

  datatype HostFamily = AnyFamily | V4 | V6

  /** An IPv4 endpoint. */
  datatype Endpoint = Endpoint(a: uint8, b: uint8, c: uint8, d: uint8, port: uint16)

  datatype Address =
    | Ip4(endpoint: Endpoint, peerId: string, wire: nat)
    | Dns(hostname: string, family: HostFamily, port: uint16, peerId: string, wire: nat)

  datatype Parsed = Parsed(address: Address) | Bad | Ip6Host

  // ------------------------------------------------------------ splitting

  /** The text up to the first delimiter. */
  function Head(text: string, delim: char): string {
    if text == [] || text[0] == delim then [] else [text[0]] + Head(text[1..], delim)
  }

  lemma {:induction false} HeadMeans(text: string, delim: char)
    ensures var n := |Head(text, delim)|;
      && n <= |text| && Head(text, delim) == text[..n] && delim !in Head(text, delim)
      && (n < |text| ==> text[n] == delim)
  {
    if text != [] && text[0] != delim { HeadMeans(text[1..], delim); }
  }

  function Split(text: string, delim: char): (parts: seq<string>)
    ensures |parts| >= 1
    decreases |text|
  {
    HeadMeans(text, delim);
    var n := |Head(text, delim)|;
    if n == |text| then [text] else [Head(text, delim)] + Split(text[n + 1..], delim)
  }

  /** string_view::find: the next delimiter from `start` on, or the end. */
  method Find(text: string, delim: char, start: nat) returns (pos: nat)
    requires start <= |text|
    ensures start <= pos <= |text| && Head(text[start..], delim) == text[start..pos]
  {
    pos := start;
    while pos < |text| && text[pos] != delim
      invariant start <= pos <= |text|
      invariant |Head(text[start..], delim)| == pos - start + |Head(text[pos..], delim)|
    {
      assert text[pos..][1..] == text[pos + 1..];
      pos := pos + 1;
    }
    HeadMeans(text[start..], delim);
  }

  lemma FirstPart(text: string, delim: char, start: nat, pos: nat)
    requires start <= pos <= |text| && Head(text[start..], delim) == text[start..pos]
    ensures Split(text[start..], delim) ==
      if pos == |text| then [text[start..]] else [text[start..pos]] + Split(text[pos + 1..], delim)
  {
    if pos < |text| { assert text[start..][pos - start + 1..] == text[pos + 1..]; }
  }

  method SplitText(text: string, delim: char) returns (parts: seq<string>)
    ensures parts == Split(text, delim)
  {
    parts := [];
    var start := 0;
    assert text[0..] == text && parts + Split(text, delim) == Split(text, delim);
    while true
      invariant 0 <= start <= |text|
      invariant parts + Split(text[start..], delim) == Split(text, delim)
      decreases |text| - start
    {
      hide Head, Split;
      var pos := Find(text, delim, start);
      FirstPart(text, delim, start, pos);
      if pos == |text| {
        return parts + [text[start..]];
      }
      parts := parts + [text[start..pos]];
      start := pos + 1;
    }
  }

  /** A part without the delimiter, then the delimiter: it is the first part. */
  lemma SplitStep(part: string, rest: string, delim: char)
    requires delim !in part
    ensures Split(part + [delim] + rest, delim) == [part] + Split(rest, delim)
    ensures Split(part, delim) == [part]
  {
    var text := part + [delim] + rest;
    HeadIs(part, [delim] + rest, delim);
    HeadIs(part, [], delim);
    assert text == part + ([delim] + rest) && part + [] == part;
    assert text[|part| + 1..] == rest;
  }

  lemma {:induction false} HeadIs(part: string, rest: string, delim: char)
    requires delim !in part && (rest == [] || rest[0] == delim)
    ensures Head(part + rest, delim) == part
  {
    if part == [] {
      assert part + rest == rest;
    } else {
      assert (part + rest)[1..] == part[1..] + rest;
      HeadIs(part[1..], rest, delim);
    }
  }

  /** How often the delimiter occurs is how many parts there are, less one. */
  lemma {:induction false} PartsCount(text: string, delim: char)
    ensures |Split(text, delim)| == 1 <==> delim !in text
    decreases |text|
  {
    HeadMeans(text, delim);
    var n := |Head(text, delim)|;
    if n < |text| { assert text[n] in text; }
  }

  // ------------------------------------------------------------ decimal numbers

  function DigitOf(n: nat): char
    requires n < 10
  {
    '0' + n as char
  }

  predicate IsDigit(c: char) {
    '0' <= c <= '9'
  }

  /** std::to_string of a non-negative number. */
  function Decimal(n: nat): string {
    if n < 10 then [DigitOf(n)] else Decimal(n / 10) + [DigitOf(n % 10)]
  }

  function ValueOf(digits: string): nat
    requires forall i :: 0 <= i < |digits| ==> IsDigit(digits[i])
  {
    if digits == [] then 0
    else
      assert IsDigit(digits[|digits| - 1]);
      10 * ValueOf(digits[..|digits| - 1]) + (digits[|digits| - 1] as int - '0' as int)
  }

  /** std::from_chars over the whole text into an unsigned type that holds up to `max`. */
  function Number(text: string, max: nat): Option<nat> {
    if text == [] || !(forall i :: 0 <= i < |text| ==> IsDigit(text[i])) then None
    else if ValueOf(text) > max then None
    else Some(ValueOf(text))
  }

  /** from_chars stops at the first number too large; since values only grow, that is as good as reading on. */
  method ReadNumber(text: string, max: nat) returns (n: Option<nat>)
    ensures n == Number(text, max)
  {
    if text == [] {
      return None;
    }
    var value := 0;
    var i := 0;
    while i < |text|
      invariant 0 <= i <= |text| && forall j :: 0 <= j < i ==> IsDigit(text[j])
      invariant value == ValueOf(text[..i])
    {
      if !IsDigit(text[i]) {
        return None;
      }
      assert text[..i + 1][..i] == text[..i];
      value := 10 * value + (text[i] as int - '0' as int);
      i := i + 1;
    }
    assert text[..i] == text;
    return if value > max then None else Some(value);
  }

  lemma {:induction false} DecimalReads(n: nat)
    ensures Decimal(n) != [] && forall i :: 0 <= i < |Decimal(n)| ==> IsDigit(Decimal(n)[i])
    ensures ValueOf(Decimal(n)) == n
  {
    if n >= 10 {
      DecimalReads(n / 10);
      assert Decimal(n)[..|Decimal(n)| - 1] == Decimal(n / 10);
    } else {
      assert Decimal(n)[..0] == [];
    }
  }

  // ------------------------------------------------------------ parsing

  function ParsePort(text: string): Option<uint16> {
    match Number(text, 0xFFFF)
    case None => None
    case Some(n) => if n == 0 then None else Some(n)
  }

  function ParseIp4(host: string, portText: string): Option<Endpoint> {
    var parts := Split(host, '.');
    if |parts| != 4 then None
    else
      var a, b, c, d := Number(parts[0], 255), Number(parts[1], 255), Number(parts[2], 255), Number(parts[3], 255);
      if a.None? || b.None? || c.None? || d.None? then None
      else
        match ParsePort(portText)
        case None => None
        case Some(port) => Some(Endpoint(a.value, b.value, c.value, d.value, port))
  }

  predicate NameChar(c: char) {
    'a' <= c <= 'z' || 'A' <= c <= 'Z' || '0' <= c <= '9' || c == '-'
  }

  predicate LabelOk(l: string) {
    && 1 <= |l| <= 63 && l[0] != '-' && l[|l| - 1] != '-'
    && forall i :: 0 <= i < |l| ==> NameChar(l[i])
  }

  predicate IsDnsName(host: string) {
    && 1 <= |host| <= 253
    && forall i :: 0 <= i < |Split(host, '.')| ==> LabelOk(Split(host, '.')[i])
  }

  /** The address's wire version: ours, or 0 for the legacy form; None for any other. */
  function WireOf(text: string): Option<nat> {
    if text == LEGACY_VERSION then Some(0)
    else
      match Number(text, 0x7FFF_FFFF)
      case None => None
      case Some(n) => if n == WIRE_VERSION then Some(n) else None
  }

  function FamilyOf(kind: string): HostFamily {
    if kind == "dns4" then V4 else if kind == "dns6" then V6 else AnyFamily
  }

  function Parse(text: string): Parsed {
    if text == "" || text[0] != '/' then Bad
    else
      var parts := Split(text[1..], '/');
      if |parts| != 8 then Bad
      else
        var dns := parts[0] == "dns" || parts[0] == "dns4" || parts[0] == "dns6";
        if (parts[0] != "ip4" && parts[0] != "ip6" && !dns) || parts[2] != "udp" || parts[4] != PROTOCOL || parts[6] != "p2p" then Bad
        else if WireOf(parts[5]).None? || parts[7] == "" then Bad
        else if dns then
          if !IsDnsName(parts[1]) then Bad
          else
            match ParsePort(parts[3])
            case None => Bad
            case Some(port) => Parsed(Dns(parts[1], FamilyOf(parts[0]), port, parts[7], WireOf(parts[5]).value))
        else if parts[0] == "ip6" then Ip6Host
        else
          match ParseIp4(parts[1], parts[3])
          case None => Bad
          case Some(endpoint) => Parsed(Ip4(endpoint, parts[7], WireOf(parts[5]).value))
  }

  method CheckDnsName(host: string) returns (ok: bool)
    ensures ok == IsDnsName(host)
  {
    if |host| == 0 || |host| > 253 {
      return false;
    }
    var labels := SplitText(host, '.');
    for i := 0 to |labels|
      invariant forall k :: 0 <= k < i ==> LabelOk(labels[k])
    {
      var l := labels[i];
      if |l| == 0 || |l| > 63 || l[0] == '-' || l[|l| - 1] == '-' {
        return false;
      }
      for j := 0 to |l|
        invariant forall k :: 0 <= k < j ==> NameChar(l[k])
      {
        if !NameChar(l[j]) {
          return false;
        }
      }
    }
    return true;
  }

  method ParseIp4HostPort(host: string, portText: string) returns (e: Option<Endpoint>)
    ensures e == ParseIp4(host, portText)
  {
    var parts := SplitText(host, '.');
    if |parts| != 4 {
      return None;
    }
    var octets: seq<uint8> := [];
    for i := 0 to 4
      invariant |octets| == i
      invariant forall j :: 0 <= j < i ==> Number(parts[j], 255) == Some(octets[j])
    {
      var value := ReadNumber(parts[i], 255);
      if value.None? {
        return None;
      }
      octets := octets + [value.value];
    }
    var port := ReadNumber(portText, 0xFFFF);
    if port.None? || port.value == 0 {
      return None;
    }
    e := Some(Endpoint(octets[0], octets[1], octets[2], octets[3], port.value));
  }

  method ParseAdpMultiaddr(text: string) returns (p: Parsed)
    ensures p == Parse(text)
  {
    if text == "" || text[0] != '/' {
      return Bad;
    }
    var parts := SplitText(text[1..], '/');
    if |parts| != 8 {
      return Bad;
    }
    hide Split, Number, IsDnsName, ParseIp4;
    var dns := parts[0] == "dns" || parts[0] == "dns4" || parts[0] == "dns6";
    if (parts[0] != "ip4" && parts[0] != "ip6" && !dns) || parts[2] != "udp" || parts[4] != PROTOCOL || parts[6] != "p2p" {
      return Bad;
    }
    var wire := 0;
    if parts[5] != LEGACY_VERSION {
      var n := ReadNumber(parts[5], 0x7FFF_FFFF);
      if n.None? || n.value == 0 || n.value >= NEGOTIATION_NIBBLE || n.value != WIRE_VERSION {
        return Bad;
      }
      wire := n.value;
    }
    if parts[7] == "" {
      return Bad;
    }
    if dns {
      var named := CheckDnsName(parts[1]);
      if !named {
        return Bad;
      }
      var port := ReadNumber(parts[3], 0xFFFF);
      if port.None? || port.value == 0 {
        return Bad;
      }
      return Parsed(Dns(parts[1], FamilyOf(parts[0]), port.value, parts[7], wire));
    }
    if parts[0] == "ip6" {
      return Ip6Host;
    }
    var endpoint := ParseIp4HostPort(parts[1], parts[3]);
    if endpoint.None? {
      return Bad;
    }
    p := Parsed(Ip4(endpoint.value, parts[7], wire));
  }

  // ------------------------------------------------------------ formatting

  function HostText(e: Endpoint): string {
    Joined([Decimal(e.a), Decimal(e.b), Decimal(e.c)], Decimal(e.d), '.')
  }

  /** The parts one after the other, a delimiter after each, then the last. */
  function Joined(parts: seq<string>, last: string, delim: char): string {
    if parts == [] then last else parts[0] + [delim] + Joined(parts[1..], last, delim)
  }

  function Fields(e: Endpoint): seq<string> {
    ["ip4", HostText(e), "udp", Decimal(e.port), PROTOCOL, Decimal(WIRE_VERSION), "p2p"]
  }

  /** FormatAdpMultiaddr of an IPv4 endpoint; a missing peer id is refused. */
  function Format(e: Endpoint, peerId: string): Option<string> {
    if peerId == "" then None else Some("/" + Joined(Fields(e), peerId, '/'))
  }

  // ------------------------------------------------------------ each undoes the other

  lemma DecimalHasNo(n: nat, c: char)
    requires !IsDigit(c)
    ensures c !in Decimal(n)
  {
    DecimalReads(n);
  }

  lemma {:induction false} JoinedSplits(parts: seq<string>, last: string, delim: char)
    requires forall i :: 0 <= i < |parts| ==> delim !in parts[i]
    ensures Split(Joined(parts, last, delim), delim) == parts + Split(last, delim)
  {
    if parts == [] {
      assert parts + Split(last, delim) == Split(last, delim);
    } else {
      JoinedSplits(parts[1..], last, delim);
      SplitStep(parts[0], Joined(parts[1..], last, delim), delim);
      assert [parts[0]] + (parts[1..] + Split(last, delim)) == parts + Split(last, delim);
    }
  }

  lemma {:induction false} JoinedHasNo(parts: seq<string>, last: string, delim: char, c: char)
    requires c != delim && c !in last && forall i :: 0 <= i < |parts| ==> c !in parts[i]
    ensures c !in Joined(parts, last, delim)
  {
    if parts != [] { JoinedHasNo(parts[1..], last, delim, c); }
  }

  lemma HostReads(e: Endpoint)
    ensures Split(HostText(e), '.') == [Decimal(e.a), Decimal(e.b), Decimal(e.c), Decimal(e.d)]
    ensures '/' !in HostText(e)
  {
    var parts, last := [Decimal(e.a), Decimal(e.b), Decimal(e.c)], Decimal(e.d);
    forall n: nat
      ensures '.' !in Decimal(n) && '/' !in Decimal(n)
    {
      DecimalHasNo(n, '.');
      DecimalHasNo(n, '/');
    }
    hide Decimal, Split, Joined;
    JoinedSplits(parts, last, '.');
    JoinedHasNo(parts, last, '.', '/');
    SplitStep(last, "", '.');
    assert parts + [last] == [Decimal(e.a), Decimal(e.b), Decimal(e.c), Decimal(e.d)];
  }

  lemma Ip4Reads(e: Endpoint)
    ensures ParseIp4(HostText(e), Decimal(e.port)) == if e.port == 0 then None else Some(e)
  {
    HostReads(e);
    DecimalReads(e.a);
    DecimalReads(e.b);
    DecimalReads(e.c);
    DecimalReads(e.d);
    DecimalReads(e.port);
    hide Decimal, Split, HostText, ValueOf;
  }

  /** The eight parts of a formatted address, or more when the peer id has a slash in it. */
  lemma FormatSplits(e: Endpoint, peerId: string)
    requires peerId != ""
    ensures Split(Format(e, peerId).value[1..], '/') == Fields(e) + Split(peerId, '/')
  {
    HostReads(e);
    DecimalHasNo(e.port, '/');
    DecimalHasNo(WIRE_VERSION, '/');
    hide Decimal, Split, HostText, Joined;
    assert Format(e, peerId).value[1..] == Joined(Fields(e), peerId, '/');
    JoinedSplits(Fields(e), peerId, '/');
  }

  lemma OurWireReads()
    ensures WireOf(Decimal(WIRE_VERSION)) == Some(WIRE_VERSION)
  {
    DecimalReads(WIRE_VERSION);
    assert Decimal(WIRE_VERSION)[0] != LEGACY_VERSION[0];
  }

  /** A formatted IPv4 address parses back to its endpoint and peer, exactly when its port is not 0 and the peer id has no slash. */
  lemma FormatParsesBack(e: Endpoint, peerId: string)
    requires peerId != ""
    ensures Parse(Format(e, peerId).value) ==
      if e.port != 0 && '/' !in peerId then Parsed(Ip4(e, peerId, WIRE_VERSION)) else Bad
  {
    hide Format, Split, HostText, Decimal, ParseIp4, WireOf, Joined, IsDnsName;
    FormatSlash(e, peerId);
    var text := Format(e, peerId).value;
    FormatSplits(e, peerId);
    Ip4Reads(e);
    OurWireReads();
    PartsCount(peerId, '/');
    PartIsWhole(peerId, '/');
    var parts := Split(text[1..], '/');
    assert parts == Fields(e) + Split(peerId, '/');
    if '/' !in peerId {
      assert parts[7] == peerId;
      assert parts[0] == "ip4" && parts[1] == HostText(e) && parts[2] == "udp" && parts[3] == Decimal(e.port);
      assert parts[4] == PROTOCOL && parts[5] == Decimal(WIRE_VERSION) && parts[6] == "p2p";
      KindIsIp4();
    }
  }

  lemma PartIsWhole(text: string, delim: char)
    ensures delim !in text ==> Split(text, delim) == [text]
  {
    if delim !in text { SplitStep(text, "", delim); }
  }

  lemma FormatSlash(e: Endpoint, peerId: string)
    requires peerId != ""
    ensures Format(e, peerId).Some? && Format(e, peerId).value != "" && Format(e, peerId).value[0] == '/'
  {
  }

  lemma KindIsIp4()
    ensures "ip4" != "dns" && "ip4" != "dns4" && "ip4" != "dns6" && "ip4" != "ip6"
  {
    assert "ip4"[0] == 'i' && "dns"[0] == 'd' && "dns4"[0] == 'd' && "dns6"[0] == 'd' && "ip4"[2] != "ip6"[2];
  }
}
