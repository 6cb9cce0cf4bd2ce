/**
 Which texts are multiaddrs, character by character: the parser takes the IPv4 and DNS forms below and no others
 (src/link/AdpMultiaddr.cpp). Numbers may have leading zeros, as from_chars reads them.
 */
module MultiaddrForms {
  import opened Words
  import opened Multiaddr

  // ------------------------------------------------------------ splitting loses nothing

  lemma {:induction false} SplitJoins(text: string, delim: char)
    ensures var parts := Split(text, delim);
      var n := |parts| - 1;
      text == Joined(parts[..n], parts[n], delim) && forall i :: 0 <= i <= n ==> delim !in parts[i]
    decreases |text|
  {
    HeadMeans(text, delim);
    var k := |Head(text, delim)|;
    if k < |text| {
      SplitJoins(text[k + 1..], delim);
      var rest := Split(text[k + 1..], delim);
      var parts := [text[..k]] + rest;
      assert Split(text, delim) == parts;
      assert parts[..|parts| - 1][1..] == rest[..|rest| - 1];
      assert text == text[..k] + [delim] + text[k + 1..];
    }
  }

  // ------------------------------------------------------------ numbers

  function Zeros(n: nat): string {
    seq(n, _ => '0')
  }

  /** The number in decimal, perhaps after zeros. */
  ghost predicate Numeral(text: string, n: nat) {
    exists z: nat :: text == Zeros(z) + Decimal(n)
  }

  lemma {:induction false} ZerosAddNothing(z: nat, digits: string)
    requires forall i :: 0 <= i < |digits| ==> IsDigit(digits[i])
    ensures ValueOf(Zeros(z) + digits) == ValueOf(digits)
    decreases |digits|, z
  {
    if digits == [] {
      if z > 0 {
        assert Zeros(z)[..z - 1] == Zeros(z - 1);
        assert Zeros(z) + digits == Zeros(z) && Zeros(z - 1) + digits == Zeros(z - 1);
        ZerosAddNothing(z - 1, digits);
      } else {
        assert Zeros(z) + digits == digits;
      }
    } else {
      var n := |digits| - 1;
      assert (Zeros(z) + digits)[..z + n] == Zeros(z) + digits[..n];
      ZerosAddNothing(z, digits[..n]);
    }
  }

  lemma {:induction false} DigitsAreNumeral(digits: string)
    requires digits != [] && forall i :: 0 <= i < |digits| ==> IsDigit(digits[i])
    ensures |Decimal(ValueOf(digits))| <= |digits|
    ensures digits == Zeros(|digits| - |Decimal(ValueOf(digits))|) + Decimal(ValueOf(digits))
  {
    var n := |digits| - 1;
    var front, last := digits[..n], digits[n];
    assert digits == front + [last];
    assert IsDigit(last);
    var low := last as int - '0' as int;
    assert DigitOf(low) == last;
    if n == 0 {
      assert ValueOf(front) == 0;
    } else {
      DigitsAreNumeral(front);
      var v := ValueOf(front);
      assert (10 * v + low) / 10 == v && (10 * v + low) % 10 == low;
      if v == 0 {
        assert Decimal(0) == ['0'] && front == Zeros(n - 1) + ['0'] == Zeros(n);
      } else {
        assert Decimal(10 * v + low) == Decimal(v) + [last];
      }
    }
  }

  /** A text reads as a number exactly when it is one, in range. */
  lemma NumberIs(text: string, max: nat, n: nat)
    ensures Number(text, max) == Some(n) <==> n <= max && Numeral(text, n)
  {
    if Number(text, max) == Some(n) {
      DigitsAreNumeral(text);
    }
    if Numeral(text, n) {
      var z: nat :| text == Zeros(z) + Decimal(n);
      DecimalReads(n);
      ZerosAddNothing(z, Decimal(n));
    }
  }

  lemma NumeralHasNo(text: string, n: nat, c: char)
    requires Numeral(text, n) && !IsDigit(c)
    ensures c !in text
  {
    DecimalHasNo(n, c);
  }

  // ------------------------------------------------------------ the IPv4 form

  ghost predicate Ip4Host(host: string, e: Endpoint) {
    exists a, b, c, d :: Numeral(a, e.a) && Numeral(b, e.b) && Numeral(c, e.c) && Numeral(d, e.d) && host == Joined([a, b, c], d, '.')
  }

  lemma Ip4HostIs(host: string, portText: string, e: Endpoint)
    ensures ParseIp4(host, portText) == Some(e) <==> Ip4Host(host, e) && e.port != 0 && Numeral(portText, e.port)
  {
    hide Number, Numeral, Split, Joined;
    NumberIs(portText, 65535, e.port);
    var parts := Split(host, '.');
    if |parts| == 4 {
      NumberIs(parts[0], 255, e.a);
      NumberIs(parts[1], 255, e.b);
      NumberIs(parts[2], 255, e.c);
      NumberIs(parts[3], 255, e.d);
      SplitJoins(host, '.');
      assert parts[..3] == [parts[0], parts[1], parts[2]];
    }
    if Ip4Host(host, e) {
      var a, b, c, d :| Numeral(a, e.a) && Numeral(b, e.b) && Numeral(c, e.c) && Numeral(d, e.d) && host == Joined([a, b, c], d, '.');
      HostSplits(a, b, c, d, e);
    }
  }

  lemma HostSplits(a: string, b: string, c: string, d: string, e: Endpoint)
    requires Numeral(a, e.a) && Numeral(b, e.b) && Numeral(c, e.c) && Numeral(d, e.d)
    ensures Split(Joined([a, b, c], d, '.'), '.') == [a, b, c, d]
  {
    hide Numeral, Split, Joined;
    NumeralHasNo(a, e.a, '.');
    NumeralHasNo(b, e.b, '.');
    NumeralHasNo(c, e.c, '.');
    NumeralHasNo(d, e.d, '.');
    JoinedSplits([a, b, c], d, '.');
    PartIsWhole(d, '.');
  }

  /** The wire version: 2, or the legacy text for 0. */
  ghost predicate WireText(text: string, wire: nat) {
    (text == "1.0.0" && wire == 0) || (Numeral(text, 2) && wire == 2)
  }

  lemma LegacyIsNoNumeral()
    ensures !Numeral("1.0.0", 2)
  {
    assert "1.0.0"[1] == '.';
    if Numeral("1.0.0", 2) { NumeralHasNo("1.0.0", 2, '.'); }
  }

  lemma WireIs(text: string, wire: nat)
    ensures Multiaddr.WireOf(text) == Some(wire) <==> WireText(text, wire)
  {
    NumberIs(text, 0x7FFF_FFFF, 2);
    LegacyIsNoNumeral();
  }

  /** `/<kind>/<host>/udp/<port>/adp/<wire>/p2p/<peer>`. */
  ghost predicate Shaped(text: string, kind: string, host: string, port: string, wire: string, peer: string) {
    && text == "/" + Joined([kind, host, "udp", port, "adp", wire, "p2p"], peer, '/')
    && peer != "" && '/' !in peer && '/' !in host && '/' !in port && '/' !in wire
  }

  lemma ShapeSplits(text: string, kind: string, host: string, port: string, wire: string, peer: string)
    requires Shaped(text, kind, host, port, wire, peer) && '/' !in kind
    ensures text != "" && text[0] == '/' && Split(text[1..], '/') == [kind, host, "udp", port, "adp", wire, "p2p", peer]
  {
    hide Split, Joined;
    var parts := [kind, host, "udp", port, "adp", wire, "p2p"];
    NoSlashes();
    assert text[1..] == Joined(parts, peer, '/');
    JoinedSplits(parts, peer, '/');
    PartIsWhole(peer, '/');
    assert parts + [peer] == [kind, host, "udp", port, "adp", wire, "p2p", peer];
  }

  lemma NoSlashes()
    ensures '/' !in "udp" && '/' !in "adp" && '/' !in "p2p" && '/' !in "ip4" && '/' !in "dns" && '/' !in "dns4" && '/' !in "dns6"
  {
  }

  lemma EightParts(text: string)
    requires text != "" && text[0] == '/' && |Split(text[1..], '/')| == 8
    requires var p := Split(text[1..], '/'); p[2] == "udp" && p[4] == "adp" && p[6] == "p2p" && p[7] != ""
    ensures var p := Split(text[1..], '/'); Shaped(text, p[0], p[1], p[3], p[5], p[7])
  {
    hide Split, Joined;
    SplitJoins(text[1..], '/');
    var p := Split(text[1..], '/');
    assert p[..7] == [p[0], p[1], "udp", p[3], "adp", p[5], "p2p"];
    assert text == "/" + text[1..];
  }

  /** The IPv4 form, and nothing else, is read as an IPv4 address. */
  lemma Ip4ExactlyWhen(text: string, e: Endpoint, peer: string, wire: nat)
    ensures Parse(text) == Parsed(Ip4(e, peer, wire)) <==>
            e.port != 0 && exists host, port, version ::
              Shaped(text, "ip4", host, port, version, peer) && Ip4Host(host, e) && Numeral(port, e.port) && WireText(version, wire)
  {
    if Parse(text) == Parsed(Ip4(e, peer, wire)) { Ip4Read(text, e, peer, wire); }
    hide Parse, Shaped, Ip4Host, Numeral, WireText;
    if e.port != 0 && exists host, port, version ::
        Shaped(text, "ip4", host, port, version, peer) && Ip4Host(host, e) && Numeral(port, e.port) && WireText(version, wire)
    {
      var host, port, version :|
        Shaped(text, "ip4", host, port, version, peer) && Ip4Host(host, e) && Numeral(port, e.port) && WireText(version, wire);
      Ip4Taken(text, host, port, version, e, peer, wire);
    }
  }

  lemma Ip4Read(text: string, e: Endpoint, peer: string, wire: nat)
    requires Parse(text) == Parsed(Ip4(e, peer, wire))
    ensures var p := Split(text[1..], '/');
      && |p| == 8 && e.port != 0
      && Shaped(text, "ip4", p[1], p[3], p[5], peer) && Ip4Host(p[1], e) && Numeral(p[3], e.port) && WireText(p[5], wire)
  {
    hide Split, ParseIp4, Multiaddr.WireOf, IsDnsName, ParsePort, Numeral, Ip4Host, WireText, Shaped;
    var p := Split(text[1..], '/');
    EightParts(text);
    Ip4HostIs(p[1], p[3], e);
    WireIs(p[5], wire);
  }

  lemma Ip4Taken(text: string, host: string, port: string, version: string, e: Endpoint, peer: string, wire: nat)
    requires e.port != 0 && Shaped(text, "ip4", host, port, version, peer) && Ip4Host(host, e) && Numeral(port, e.port) && WireText(version, wire)
    ensures Parse(text) == Parsed(Ip4(e, peer, wire))
  {
    NoSlashes();
    ShapeSplits(text, "ip4", host, port, version, peer);
    hide Split, ParseIp4, Multiaddr.WireOf, IsDnsName, ParsePort, Numeral, Ip4Host, WireText;
    Ip4HostIs(host, port, e);
    WireIs(version, wire);
    KindIsIp4();
  }

  // ------------------------------------------------------------ the DNS forms

  ghost predicate DnsKind(kind: string, family: HostFamily) {
    match family
    case AnyFamily => kind == "dns"
    case V4 => kind == "dns4"
    case V6 => kind == "dns6"
  }

  lemma KindsDiffer()
    ensures "dns" != "dns4" && "dns" != "dns6" && "dns4" != "dns6" && "dns" != "ip4" && "dns4" != "ip4" && "dns6" != "ip4"
    ensures "dns" != "ip6" && "dns4" != "ip6" && "dns6" != "ip6"
  {
    assert "dns4"[3] != "dns6"[3] && "dns4"[0] == "dns6"[0] == 'd' && "ip4"[0] == "ip6"[0] == 'i';
  }

  lemma PortIs(text: string, port: uint16)
    ensures ParsePort(text) == Some(port) <==> port != 0 && Numeral(text, port)
  {
    NumberIs(text, 65535, port);
  }

  /** The DNS forms, and nothing else, are read as host names of their family. */
  lemma DnsExactlyWhen(text: string, host: string, family: HostFamily, port: uint16, peer: string, wire: nat)
    ensures Parse(text) == Parsed(Dns(host, family, port, peer, wire)) <==>
            port != 0 && IsDnsName(host) && exists kind, portText, version ::
              DnsKind(kind, family) && Shaped(text, kind, host, portText, version, peer) && Numeral(portText, port) && WireText(version, wire)
  {
    if Parse(text) == Parsed(Dns(host, family, port, peer, wire)) { DnsRead(text, host, family, port, peer, wire); }
    hide Parse, Shaped, Numeral, WireText, IsDnsName, DnsKind;
    if port != 0 && IsDnsName(host) && exists kind, portText, version ::
        DnsKind(kind, family) && Shaped(text, kind, host, portText, version, peer) && Numeral(portText, port) && WireText(version, wire)
    {
      var kind, portText, version :|
        DnsKind(kind, family) && Shaped(text, kind, host, portText, version, peer) && Numeral(portText, port) && WireText(version, wire);
      DnsTaken(text, kind, host, family, port, portText, version, peer, wire);
    }
  }

  lemma DnsRead(text: string, host: string, family: HostFamily, port: uint16, peer: string, wire: nat)
    requires Parse(text) == Parsed(Dns(host, family, port, peer, wire))
    ensures var p := Split(text[1..], '/');
      && |p| == 8 && port != 0 && IsDnsName(host) && DnsKind(p[0], family)
      && Shaped(text, p[0], host, p[3], p[5], peer) && Numeral(p[3], port) && WireText(p[5], wire)
  {
    hide Split, ParseIp4, Multiaddr.WireOf, IsDnsName, ParsePort, Numeral, WireText, Shaped;
    var p := Split(text[1..], '/');
    EightParts(text);
    PortIs(p[3], port);
    WireIs(p[5], wire);
    KindsDiffer();
  }

  lemma DnsTaken(text: string, kind: string, host: string, family: HostFamily, port: uint16, portText: string, version: string, peer: string, wire: nat)
    requires port != 0 && IsDnsName(host) && DnsKind(kind, family)
    requires Shaped(text, kind, host, portText, version, peer) && Numeral(portText, port) && WireText(version, wire)
    ensures Parse(text) == Parsed(Dns(host, family, port, peer, wire))
  {
    NoSlashes();
    ShapeSplits(text, kind, host, portText, version, peer);
    hide Split, ParseIp4, Multiaddr.WireOf, IsDnsName, ParsePort, Numeral, WireText;
    PortIs(portText, port);
    WireIs(version, wire);
    KindsDiffer();
  }

  // ------------------------------------------------------------ host names

  predicate Edge(c: char) {
    c == '.' || c == '-'
  }

  predicate CharOk(c: char) {
    c == '.' || c == '-' || 'a' <= c <= 'z' || 'A' <= c <= 'Z' || '0' <= c <= '9'
  }

  predicate DotOk(h: string, i: nat)
    requires i < |h|
  {
    h[i] == '.' ==> 0 < i < |h| - 1 && !Edge(h[i - 1]) && !Edge(h[i + 1])
  }

  /** A dot among the 64 from `i` on. */
  ghost predicate DotWithin(h: string, i: nat)
    requires i + 64 <= |h|
  {
    exists j :: i <= j < i + 64 && h[j] == '.'
  }

  /** Letters, digits, hyphens and dots; neither a dot nor a hyphen at either end or beside a dot; a dot in any 64 in a row. */
  ghost predicate NameText(h: string) {
    && h != "" && !Edge(h[0]) && !Edge(h[|h| - 1])
    && (forall i :: 0 <= i < |h| ==> CharOk(h[i]) && DotOk(h, i))
    && (forall i: nat :: i + 64 <= |h| ==> DotWithin(h, i))
  }

  lemma OneLabel(h: string)
    requires '.' !in h
    ensures LabelOk(h) <==> NameText(h)
  {
    if LabelOk(h) {
      forall i | 0 <= i < |h|
        ensures CharOk(h[i]) && DotOk(h, i)
      {
        assert NameChar(h[i]);
      }
    }
    if NameText(h) {
      assert |h| >= 64 ==> DotWithin(h, 0);
      forall i | 0 <= i < |h|
        ensures NameChar(h[i])
      {
        assert CharOk(h[i]) && h[i] in h;
      }
    }
  }

  /** A name's first part, up to a dot. */
  lemma FirstLabel(h: string, n: nat)
    requires NameText(h) && n < |h| && h[n] == '.' && '.' !in h[..n]
    ensures LabelOk(h[..n])
  {
    var first := h[..n];
    assert forall i :: 0 <= i < n ==> first[i] == h[i];
    assert DotOk(h, n);
    assert n >= 64 ==> DotWithin(h, 0);
    forall i | 0 <= i < n
      ensures NameChar(first[i])
    {
      assert CharOk(h[i]) && first[i] in first;
    }
  }

  lemma RestOfName(h: string, n: nat)
    requires NameText(h) && n < |h| && h[n] == '.'
    ensures NameText(h[n + 1..])
  {
    var rest := h[n + 1..];
    assert DotOk(h, n);
    forall i | 0 <= i < |rest|
      ensures CharOk(rest[i]) && DotOk(rest, i)
    {
      assert CharOk(h[n + 1 + i]) && DotOk(h, n + 1 + i);
    }
    forall i: nat | i + 64 <= |rest|
      ensures DotWithin(rest, i)
    {
      assert DotWithin(h, n + 1 + i);
      var j :| n + 1 + i <= j < n + 1 + i + 64 && h[j] == '.';
      assert rest[j - n - 1] == '.';
    }
  }

  lemma NameOf(h: string, n: nat)
    requires n < |h| && h[n] == '.' && LabelOk(h[..n]) && NameText(h[n + 1..])
    ensures NameText(h)
  {
    var first, rest := h[..n], h[n + 1..];
    assert first[0] == h[0] && first[n - 1] == h[n - 1] && rest[0] == h[n + 1] && rest[|rest| - 1] == h[|h| - 1];
    assert NameChar(first[0]) && NameChar(first[n - 1]);
    forall i | 0 <= i < |h|
      ensures CharOk(h[i]) && DotOk(h, i)
    {
      if i < n { assert NameChar(first[i]); }
      if i > n { assert CharOk(rest[i - n - 1]) && DotOk(rest, i - n - 1); }
    }
    forall i: nat | i + 64 <= |h|
      ensures DotWithin(h, i)
    {
      if i > n {
        assert DotWithin(rest, i - n - 1);
        var j :| i - n - 1 <= j < i - n - 1 + 64 && rest[j] == '.';
        assert h[j + n + 1] == '.';
      }
    }
  }

  ghost predicate LabelsOk(h: string) {
    forall i :: 0 <= i < |Split(h, '.')| ==> LabelOk(Split(h, '.')[i])
  }

  lemma FirstThenRest(h: string, first: string, rest: seq<string>)
    requires Split(h, '.') == [first] + rest
    ensures LabelsOk(h) <==> LabelOk(first) && forall i :: 0 <= i < |rest| ==> LabelOk(rest[i])
  {
    hide Split, LabelOk;
    var all := Split(h, '.');
    assert all[0] == first && forall i :: 0 <= i < |rest| ==> all[i + 1] == rest[i];
  }

  lemma {:induction false} LabelsMakeTheName(h: string)
    ensures LabelsOk(h) <==> NameText(h)
    decreases |h|
  {
    HeadMeans(h, '.');
    var n := |Head(h, '.')|;
    if n == |h| {
      assert h[..n] == h;
      OneLabel(h);
      FirstThenRest(h, h, []);
    } else {
      var rest := h[n + 1..];
      LabelsMakeTheName(rest);
      FirstThenRest(h, h[..n], Split(rest, '.'));
      hide NameText, LabelOk, Split;
      if NameText(h) { FirstLabel(h, n); RestOfName(h, n); }
      if LabelOk(h[..n]) && NameText(rest) { NameOf(h, n); }
    }
  }

  /** Which host names pass. */
  lemma DnsNameExactlyWhen(h: string)
    ensures IsDnsName(h) <==> |h| <= 253 && NameText(h)
  {
    LabelsMakeTheName(h);
  }
}
