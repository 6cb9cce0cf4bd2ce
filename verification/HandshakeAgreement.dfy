/**
 Handshake agreement: the two honest ends on a network that belongs to somebody else.

 Any message may be delivered to either end at any time, lost, repeated, reordered or
 made up, with two limits: a MAC under a master secret the network cannot know, and a
 signature of an honest identity, must have been sent by an honest end before.
 */
module HandshakeAgreement {
  import opened Words
  import opened Symbols
  import opened Handshake

  /** The initiator's Finished: the secret and the transcript it vouched for. */
  datatype Claim = Claim(master: Master, transcript: seq<Text>)

  datatype Pair = Pair(i: HandshakeState, r: HandshakeState, sent: seq<Msg>, claims: seq<Claim>)

  datatype Act = Begin | ToInitiator(m: Msg) | ToResponder(m: Msg)

  function NewPair(chunkedI: bool, chunkedR: bool): Pair {
    Pair(NewHandshake(Initiator, chunkedI), NewHandshake(Responder, chunkedR), [], [])
  }

  function Told(sent: seq<Msg>, m: Option<Msg>): seq<Msg> {
    if m.Some? then sent + [m.value] else sent
  }

  /** A new claim is recorded when the initiator takes a server payload. */
  function Claims(s: HandshakeState, t: HandshakeState, claims: seq<Claim>): seq<Claim> {
    if |t.transcript| == |s.transcript| + 2 && t.master.Some?
    then claims + [Claim(t.master.value, t.transcript[..|t.transcript| - 1])]
    else claims
  }

  function Next(p: Pair, act: Act): Pair {
    match act
    case Begin =>
      var step := AfterStart(p.i);
      p.(i := step.state, sent := Told(p.sent, step.sent))
    case ToInitiator(m) =>
      var step := AfterMsg(p.i, m);
      p.(i := step.state, sent := Told(p.sent, step.sent), claims := Claims(p.i, step.state, p.claims))
    case ToResponder(m) =>
      var step := AfterMsg(p.r, m);
      p.(r := step.state, sent := Told(p.sent, step.sent))
  }

  ghost predicate WasSent(sent: seq<Msg>, x: Symbol) {
    exists k :: 0 <= k < |sent| && x in sent[k].body
  }

  /** What the network can deliver. */
  ghost predicate CanSay(sent: seq<Msg>, m: Msg) {
    forall x :: x in m.body ==>
      (x.MacByte? && !MasterKnown(x.master)) || x.SignatureByte? ==> WasSent(sent, x)
  }

  ghost predicate Possible(p: Pair, act: Act) {
    match act
    case Begin => true
    case ToInitiator(m) => CanSay(p.sent, m)
    case ToResponder(m) => CanSay(p.sent, m)
  }

  function Ran(chunkedI: bool, chunkedR: bool, acts: seq<Act>): Pair {
    if acts == [] then NewPair(chunkedI, chunkedR)
    else Next(Ran(chunkedI, chunkedR, acts[..|acts| - 1]), acts[|acts| - 1])
  }

  ghost predicate AllPossible(chunkedI: bool, chunkedR: bool, acts: seq<Act>) {
    acts == [] ||
    (AllPossible(chunkedI, chunkedR, acts[..|acts| - 1]) && Possible(Ran(chunkedI, chunkedR, acts[..|acts| - 1]), acts[|acts| - 1]))
  }

  // ------------------------------------------------------------ transcripts

  ghost predicate Starts(t: Text, kind: uint8) {
    t != [] && t[0] == Plain(kind)
  }

  /** The k-th part of the initiator's transcript: hellos, its payload, then server payload and Finished in turn. */
  ghost predicate IPart(k: nat, t: Text) {
    if k < 2 then |t| == HELLO_BYTES
    else if k == 2 || k % 2 == 1 then |t| == PAYLOAD_BYTES
    else |t| == FINISHED_BYTES && Starts(t, FINISHED)
  }

  /** The k-th part of the responder's: hellos, then client payload and its own in turn. */
  ghost predicate RPart(k: nat, t: Text) {
    if k < 2 then |t| == HELLO_BYTES
    else |t| == PAYLOAD_BYTES && (k % 2 == 0 ==> Starts(t, CLIENT_PAYLOAD))
  }

  ghost predicate IShape(parts: seq<Text>) {
    forall k :: 0 <= k < |parts| ==> IPart(k, parts[k])
  }

  ghost predicate RShape(parts: seq<Text>) {
    forall k :: 0 <= k < |parts| ==> RPart(k, parts[k])
  }

  lemma {:induction false} PartAt(parts: seq<Text>, k: nat)
    requires k < |parts| && parts[k] != []
    ensures LengthOf(parts[..k]) < |Concat(parts)| && Concat(parts)[LengthOf(parts[..k])] == parts[k][0]
  {
    var n := |parts| - 1;
    ConcatLength(parts[..n]);
    if k < n {
      assert parts[..n][..k] == parts[..k];
      PartAt(parts[..n], k);
    }
  }

  lemma {:induction false} LengthGrows(parts: seq<Text>, k: nat)
    requires k <= |parts| && forall j :: k <= j < |parts| ==> parts[j] != []
    ensures LengthOf(parts[..k]) + |parts| - k <= LengthOf(parts)
    decreases |parts|
  {
    if k == |parts| {
      assert parts[..k] == parts;
    } else {
      assert parts[..|parts| - 1][..k] == parts[..k];
      LengthGrows(parts[..|parts| - 1], k);
    }
  }

  lemma FourParts(parts: seq<Text>)
    requires |parts| >= 4
    ensures LengthOf(parts[..4]) == |parts[0]| + |parts[1]| + |parts[2]| + |parts[3]|
  {
    assert parts[..4][..3] == parts[..3] && parts[..3][..2] == parts[..2] && parts[..2][..1] == parts[..1];
    assert LengthOf(parts[..1]) == |parts[0]| by { assert parts[..1][..0] == []; }
    assert LengthOf(parts[..2]) == LengthOf(parts[..1]) + |parts[1]|;
    assert LengthOf(parts[..3]) == LengthOf(parts[..2]) + |parts[2]|;
  }

  /** The two ends' transcripts agree in bytes only where they agree part by part: in the first Finished's input. */
  lemma SameAtFour(a: seq<Text>, b: seq<Text>)
    requires IShape(a) && RShape(b) && |a| >= 4 && |b| >= 4 && |a| % 2 == 0 && |b| % 2 == 0
    requires Concat(a) == Concat(b)
    ensures a == b && |a| == 4
  {
    ConcatLength(a);
    ConcatLength(b);
    FourParts(a);
    FourParts(b);
    LengthGrows(a, 4);
    LengthGrows(b, 4);
    assert a[..|a|] == a && b[..|b|] == b;
    if |a| > 4 && |b| > 4 {
      PartAt(a, 4);
      PartAt(b, 4);
      assert false;
    }
    assert |a| == 4 && |b| == 4;
    ConcatUnambiguous(a, b);
  }

  /** And in the second's. */
  lemma SameAtFive(a: seq<Text>, b: seq<Text>, f: Text)
    requires IShape(a) && RShape(b) && |a| >= 5 && |b| >= 4 && |a| % 2 == 1 && |b| % 2 == 0 && |f| == FINISHED_BYTES
    requires Concat(a) == Concat(b + [f])
    ensures a == b + [f] && |a| == 5
  {
    var c := b + [f];
    assert c[..4] == b[..4] && c[0] == b[0] && c[1] == b[1] && c[2] == b[2] && c[3] == b[3];
    ConcatLength(a);
    ConcatLength(c);
    FourParts(a);
    FourParts(c);
    PartAt(a, 4);
    PartAt(c, 4);
    assert |b| == 4;
    assert c[..|c| - 1] == b;
    FiveParts(a);
    FiveParts(c);
    LengthGrows(a, 5);
    assert c[..5] == c && a[..|a|] == a;
    assert |a| == 5;
    ConcatUnambiguous(a, c);
  }

  lemma FiveParts(parts: seq<Text>)
    requires |parts| >= 5
    ensures LengthOf(parts[..5]) == LengthOf(parts[..4]) + |parts[4]|
  {
    assert parts[..5][..4] == parts[..4];
  }

  // ------------------------------------------------------------ what is said

  lemma HelloSays(s: HandshakeState, kind: uint8, x: Symbol)
    requires x in LocalHello(s, kind).body
    ensures !x.MacByte? && !x.SignatureByte?
  {
  }

  lemma PayloadSays(s: HandshakeState, kind: uint8, key: Text, x: Symbol)
    requires x in LocalPayload(s, kind, key).body
    ensures !x.MacByte? && (x.SignatureByte? ==> x.signer == s.role && x.signed == KeyText(s.role))
  {
  }

  lemma FinishedSays(master: Master, transcript: seq<Text>, x: Symbol)
    requires x in LocalFinished(master, transcript).body
    ensures !x.SignatureByte? && (x.MacByte? ==> x.master == master && x.input == Concat(transcript))
  {
  }

  /** An honest MAC is one of the initiator's claims, or the responder's when it completed. */
  ghost predicate SymbolOk(x: Symbol, claims: seq<Claim>, r: HandshakeState) {
    && (x.SignatureByte? ==> x.signed == KeyText(x.signer))
    && (x.MacByte? ==> ClaimedBy(x.master, x.input, claims) || AnsweredBy(x.master, x.input, r))
  }

  ghost predicate ClaimedBy(master: Master, input: Text, claims: seq<Claim>) {
    exists k :: 0 <= k < |claims| && claims[k].master == master && Concat(claims[k].transcript) == input
  }

  ghost predicate AnsweredBy(master: Master, input: Text, r: HandshakeState) {
    r.established.Some? && |r.transcript| > 0 && r.established.value.master == master
    && Concat(r.transcript[..|r.transcript| - 1]) == input
  }

  ghost predicate BodyOk(t: Text, claims: seq<Claim>, r: HandshakeState) {
    forall x :: x in t ==> SymbolOk(x, claims, r)
  }

  ghost predicate SentOk(sent: seq<Msg>, claims: seq<Claim>, r: HandshakeState) {
    forall k :: 0 <= k < |sent| ==> BodyOk(sent[k].body, claims, r)
  }

  // ------------------------------------------------------------ each end by itself

  ghost predicate IInv(i: HandshakeState, claims: seq<Claim>) {
    var n := |i.transcript|;
    && i.role.Initiator?
    && (i.established.None? ==> IShape(i.transcript))
    && (!i.started ==> n == 0)
    && (i.started && i.remoteHello.None? ==> n == 1)
    && (i.remoteHello.Some? ==> i.started && n >= 3 && (i.established.None? ==> n % 2 == 1))
    && (i.remoteHello.Some? <==> i.clientSecret.Some?)
    && (i.clientSecret.Some? ==> i.clientSecret.value.Made? && i.clientSecret.value.forKey == i.remoteHello.value.kemKey)
    && (i.master.Some? <==> i.remotePayload.Some?)
    && (i.master.Some? ==> i.clientSecret.Some? && i.master.value.client == i.clientSecret.value && n >= 5)
    && (i.remotePayload.Some? && i.remotePayload.value.identity == IdentityText(Responder) ==>
          i.remoteHello.Some? && i.remoteHello.value.kemKey == KeyText(Responder))
    && (i.established.Some? ==> IDone(i))
    && ClaimsOk(claims, i.transcript)
  }

  ghost predicate IDone(i: HandshakeState) {
    var n := |i.transcript|;
    && i.complete && i.master.Some? && i.remotePayload.Some? && n >= 6 && n % 2 == 0 && IShape(i.transcript[..n - 1])
    && i.established == Some(Established(i.master.value, i.transcript, Some(i.remotePayload.value.identity)))
  }

  /** Every claim was made on a beginning of what the transcript is now. */
  ghost predicate ClaimsOk(claims: seq<Claim>, transcript: seq<Text>) {
    forall k :: 0 <= k < |claims| ==>
      var t := claims[k].transcript;
      4 <= |t| < |transcript| && |t| % 2 == 0 && IShape(t) && t == transcript[..|t|]
  }

  ghost predicate RInv(r: HandshakeState, sent: seq<Msg>) {
    var n := |r.transcript|;
    && r.role.Responder?
    && n % 2 == 0
    && (r.established.None? ==> RShape(r.transcript))
    && (r.remoteHello.None? ==> n == 0)
    && (r.remoteHello.Some? ==> r.started && n >= 2)
    && (r.master.Some? <==> r.remotePayload.Some?)
    && (r.master.Some? ==> r.remoteHello.Some? && n >= 4)
    && (r.master.Some? ==> r.master.value.server.Made? && r.master.value.server.forKey == r.remoteHello.value.kemKey)
    && (r.remotePayload.Some? && r.remotePayload.value.identity == IdentityText(Initiator) ==>
          r.remoteHello.Some? && r.remoteHello.value.kemKey == KeyText(Initiator))
    && (r.established.Some? ==> RDone(r))
    && (r.lastSent.Some? ==> r.lastSent.value in sent)
  }

  ghost predicate RDone(r: HandshakeState) {
    var n := |r.transcript|;
    && r.complete && r.master.Some? && r.remotePayload.Some? && n >= 6
    && RShape(r.transcript[..n - 2]) && |r.transcript[n - 2]| == FINISHED_BYTES
    && r.transcript[n - 1] == LocalFinished(r.master.value, r.transcript[..n - 1]).body
    && r.established == Some(Established(r.master.value, r.transcript, Some(r.remotePayload.value.identity)))
  }

  /** A payload whose signature verifies under the other end's identity is signed on that end's key. */
  lemma SignedByOwner(p: Payload, kind: uint8, m: Msg, who: End, sent: seq<Msg>, claims: seq<Claim>, r: HandshakeState)
    requires DecodePayload(kind, m.body) == Some(p) && PayloadVerifies(p) && p.identity == IdentityText(who)
    requires CanSay(sent, m) && SentOk(sent, claims, r)
    ensures p.staticKey == KeyText(who)
  {
    var x := SignatureByte(who, p.staticKey, 0);
    assert p.signature == SignatureText(who, p.staticKey) by { IdentitiesDiffer(); }
    assert p.signature[0] == x;
    assert m.body[SIGNATURE_AT] == x;
    assert x in m.body;
    assert WasSent(sent, x);
    var k :| 0 <= k < |sent| && x in sent[k].body;
    assert BodyOk(sent[k].body, claims, r);
    assert SymbolOk(x, claims, r);
  }

  lemma IdentitiesDiffer()
    ensures IdentityText(Initiator) != IdentityText(Responder)
  {
    assert IdentityText(Initiator)[0] != IdentityText(Responder)[0];
  }

  /** A MAC that matches under a secret the network cannot know was said by an honest end. */
  lemma MacWasSaid(master: Master, transcript: seq<Text>, m: Msg, sent: seq<Msg>, claims: seq<Claim>, r: HandshakeState)
    requires FinishedMatches(master, transcript, m.body) && !MasterKnown(master)
    requires CanSay(sent, m) && SentOk(sent, claims, r)
    ensures ClaimedBy(master, Concat(transcript), claims) || AnsweredBy(master, Concat(transcript), r)
  {
    var x := MacByte(master, Concat(transcript), 0);
    assert MacText(master, Concat(transcript))[0] == x;
    assert m.body[1] == x;
    assert x in m.body;
    assert WasSent(sent, x);
    var k :| 0 <= k < |sent| && x in sent[k].body;
    assert BodyOk(sent[k].body, claims, r);
    assert SymbolOk(x, claims, r);
  }

  // ------------------------------------------------------------ the initiator's steps

  /** The initiator trusts the responder's key for what is vouched by the responder's identity. */
  ghost predicate Agrees(p: Pair) {
    && (p.i.established.Some? && p.i.established.value.remoteIdentity == Some(IdentityText(Responder)) ==>
          p.r.established.Some? && p.r.established.value.master == p.i.established.value.master
          && p.r.established.value.transcript == p.i.established.value.transcript && |p.i.established.value.transcript| == 6)
    && (p.r.established.Some? && p.r.established.value.remoteIdentity == Some(IdentityText(Initiator)) ==>
          |p.r.transcript| == 6 && Claim(p.r.established.value.master, p.r.transcript[..4]) in p.claims)
  }

  ghost predicate Inv(p: Pair) {
    IInv(p.i, p.claims) && RInv(p.r, p.sent) && SentOk(p.sent, p.claims, p.r) && Agrees(p)
  }

  lemma IServerHello(i: HandshakeState, claims: seq<Claim>, body: Text)
    requires IInv(i, claims) && !i.complete
    ensures var t := OnServerHello(i, body).state;
      && IInv(t, claims) && t.established == i.established && Claims(i, t, claims) == claims
  {
    hide EncodePayload, DecodePayload, EncodeHello, DecodeHello;
    if i.remoteHello.None? && i.started && DecodeHello(SERVER_HELLO, body).Some? {
      var t := OnServerHello(i, body).state;
      HelloLength(SERVER_HELLO, body);
      PayloadLength(Heard(i, body), CLIENT_PAYLOAD, DecodeHello(SERVER_HELLO, body).value.kemKey);
      assert t.transcript[..1] == i.transcript[..1];
    }
  }

  lemma HelloLength(kind: uint8, body: Text)
    requires DecodeHello(kind, body).Some?
    ensures |body| == HELLO_BYTES
  {
  }

  lemma PayloadLength(s: HandshakeState, kind: uint8, key: Text)
    ensures |LocalPayload(s, kind, key).body| == PAYLOAD_BYTES && Starts(LocalPayload(s, kind, key).body, kind)
  {
  }

  lemma FinishedLength(master: Master, transcript: seq<Text>)
    ensures |LocalFinished(master, transcript).body| == FINISHED_BYTES && Starts(LocalFinished(master, transcript).body, FINISHED)
  {
  }

  lemma IServerPayload(i: HandshakeState, claims: seq<Claim>, m: Msg, sent: seq<Msg>, r: HandshakeState)
    requires IInv(i, claims) && !i.complete && CanSay(sent, m) && SentOk(sent, claims, r)
    ensures var t := OnServerPayload(i, m.body).state;
      && IInv(t, Claims(i, t, claims)) && t.established == i.established && claims <= Claims(i, t, claims)
  {
    hide EncodePayload, DecodePayload, Decapsulated, PayloadVerifies, Concat;
    var t := OnServerPayload(i, m.body).state;
    var decoded := DecodePayload(SERVER_PAYLOAD, m.body);
    if i.remoteHello.Some? && (i.remotePayload.None? || i.chunked) && decoded.Some? && PayloadVerifies(decoded.value) {
      if decoded.value.identity == IdentityText(Responder) {
        SignedByOwner(decoded.value, SERVER_PAYLOAD, m, Responder, sent, claims, r);
      }
      if decoded.value.staticKey == i.remoteHello.value.kemKey {
        DecodedLength(SERVER_PAYLOAD, m.body);
        FinishedLength(t.master.value, i.transcript + [m.body]);
        assert t.transcript[..|i.transcript|] == i.transcript;
        assert t.transcript[..|t.transcript| - 1] == i.transcript + [m.body];
        ClaimsGrow(claims, i.transcript, t.transcript);
      }
    }
  }

  lemma DecodedLength(kind: uint8, body: Text)
    requires DecodePayload(kind, body).Some?
    ensures |body| == PAYLOAD_BYTES && Starts(body, kind)
  {
  }

  lemma ClaimsGrow(claims: seq<Claim>, before: seq<Text>, after: seq<Text>)
    requires ClaimsOk(claims, before) && before <= after
    ensures ClaimsOk(claims, after)
  {
    forall k | 0 <= k < |claims|
      ensures claims[k].transcript == after[..|claims[k].transcript|]
    {
      assert before[..|claims[k].transcript|] == after[..|claims[k].transcript|];
    }
  }

  lemma IServerFinished(i: HandshakeState, claims: seq<Claim>, body: Text)
    requires IInv(i, claims) && !i.complete
    ensures var t := OnServerFinished(i, body).state;
      && IInv(t, claims) && Claims(i, t, claims) == claims
      && (t.established.Some? ==> i.master.Some? && FinishedMatches(i.master.value, i.transcript, body))
      && (t.established.Some? ==> t == Completed(Heard(i, body)) && i.established.None?)
  {
    hide FinishedMatches, Concat;
    if i.master.Some? && FinishedMatches(i.master.value, i.transcript, body) {
      var t := OnServerFinished(i, body).state;
      assert t.transcript[..|t.transcript| - 1] == i.transcript;
      ClaimsGrow(claims, i.transcript, t.transcript);
    }
  }

  /** What the initiator says with a step is an honest key, or its new claim. */
  lemma ISays(i: HandshakeState, claims: seq<Claim>, m: Msg, r: HandshakeState)
    requires i.role.Initiator?
    ensures var step := AfterMsg(i, m);
      step.sent.Some? ==> BodyOk(step.sent.value.body, Claims(i, step.state, claims), r)
  {
    hide EncodePayload, DecodePayload, DecodeHello, EncodeHello, Decapsulated, PayloadVerifies, FinishedMatches, Concat, MacText;
    var step := AfterMsg(i, m);
    var after := Claims(i, step.state, claims);
    if step.sent.Some? {
      forall x | x in step.sent.value.body
        ensures SymbolOk(x, after, r)
      {
        if m.kind == SERVER_HELLO {
          PayloadSays(Heard(i, m.body), CLIENT_PAYLOAD, DecodeHello(SERVER_HELLO, m.body).value.kemKey, x);
        } else {
          var t := step.state;
          FinishedSays(t.master.value, i.transcript + [m.body], x);
          assert t.transcript[..|t.transcript| - 1] == i.transcript + [m.body];
          assert after[|claims|] == Claim(t.master.value, i.transcript + [m.body]);
        }
      }
    }
  }

  lemma MoreIsOk(sent: seq<Msg>, claims: seq<Claim>, after: seq<Claim>, r: HandshakeState, more: Option<Msg>)
    requires SentOk(sent, claims, r) && claims <= after && (more.Some? ==> BodyOk(more.value.body, after, r))
    ensures SentOk(Told(sent, more), after, r)
  {
    forall k | 0 <= k < |sent|
      ensures BodyOk(sent[k].body, after, r)
    {
      assert BodyOk(sent[k].body, claims, r);
      forall x | x in sent[k].body
        ensures SymbolOk(x, after, r)
      {
        assert SymbolOk(x, claims, r);
        if x.MacByte? && ClaimedBy(x.master, x.input, claims) {
          var l :| 0 <= l < |claims| && claims[l].master == x.master && Concat(claims[l].transcript) == x.input;
          assert after[l] == claims[l];
        }
      }
    }
  }

  /** The initiator completes under the responder's identity: the responder completed before, on the same transcript and secret. */
  lemma ICompletes(p: Pair, m: Msg)
    requires Inv(p) && !p.i.complete && CanSay(p.sent, m)
    requires p.i.master.Some? && FinishedMatches(p.i.master.value, p.i.transcript, m.body)
    requires p.i.remotePayload.value.identity == IdentityText(Responder)
    ensures p.r.established.Some? && p.r.established.value.master == p.i.master.value
    ensures p.r.established.value.transcript == p.i.transcript + [m.body] && |p.i.transcript| == 5
  {
    var i, r, n := p.i, p.r, |p.i.transcript|;
    var master := i.master.value;
    MacWasSaid(master, i.transcript, m, p.sent, p.claims, r);
    hide FinishedMatches, SentOk, CanSay, Concat, LocalFinished, DecodeFinished, SharedKnown;
    assert i.established.None?;
    NotClaimedYet(p.claims, i.transcript, master);
    assert AnsweredBy(master, Concat(i.transcript), r);
    var b, f := r.transcript[..|r.transcript| - 2], r.transcript[|r.transcript| - 2];
    assert r.transcript[..|r.transcript| - 1] == b + [f];
    SameAtFive(i.transcript, b, f);
    MatchIsTheFinished(master, i.transcript, m.body);
    assert r.transcript == i.transcript + [r.transcript[5]];
  }

  lemma MatchIsTheFinished(master: Master, transcript: seq<Text>, body: Text)
    requires FinishedMatches(master, transcript, body)
    ensures body == LocalFinished(master, transcript).body
  {
    assert body == [body[0]] + body[1..];
  }

  /** A claim on a proper beginning cannot be mistaken for one on the whole. */
  lemma NotClaimedYet(claims: seq<Claim>, transcript: seq<Text>, master: Master)
    requires ClaimsOk(claims, transcript) && IShape(transcript)
    ensures !ClaimedBy(master, Concat(transcript), claims)
  {
    forall k | 0 <= k < |claims|
      ensures Concat(claims[k].transcript) != Concat(transcript)
    {
      var t := claims[k].transcript;
      LengthGrows(transcript, |t|);
      ConcatLength(transcript);
      ConcatLength(t);
    }
  }

  lemma BeginKeeps(p: Pair)
    requires Inv(p)
    ensures Inv(Next(p, Begin))
  {
    var step := AfterStart(p.i);
    if step.sent.Some? {
      forall x | x in step.sent.value.body
        ensures SymbolOk(x, p.claims, p.r)
      {
        HelloSays(p.i, CLIENT_HELLO, x);
      }
      ClaimsGrow(p.claims, p.i.transcript, step.state.transcript);
    }
    assert |p.i.transcript| == 0 || step.sent.None?;
    hide EncodeHello, RDone, Concat;
    MoreIsOk(p.sent, p.claims, p.claims, p.r, step.sent);
    RKeeps(p.r, p.sent, step.sent);
  }

  lemma RKeeps(r: HandshakeState, sent: seq<Msg>, more: Option<Msg>)
    requires RInv(r, sent)
    ensures RInv(r, Told(sent, more))
  {
    hide RDone;
  }

  lemma ToInitiatorKeeps(p: Pair, m: Msg)
    requires Inv(p) && CanSay(p.sent, m)
    ensures Inv(Next(p, ToInitiator(m)))
  {
    var step := AfterMsg(p.i, m);
    if p.i.complete {
      assert Next(p, ToInitiator(m)) == p;
    } else {
      IStepKeeps(p, m);
      hide AfterMsg, IInv, CanSay, SentOk, BodyOk, RInv, Agrees, Claims;
      ISays(p.i, p.claims, m, p.r);
      MoreIsOk(p.sent, p.claims, Claims(p.i, step.state, p.claims), p.r, step.sent);
      RKeeps(p.r, p.sent, step.sent);
    }
  }

  /** The initiator's own records, and agreement, after a message. */
  lemma IStepKeeps(p: Pair, m: Msg)
    requires Inv(p) && !p.i.complete && CanSay(p.sent, m)
    ensures var t := AfterMsg(p.i, m).state;
      && IInv(t, Claims(p.i, t, p.claims)) && p.claims <= Claims(p.i, t, p.claims)
      && Agrees(Next(p, ToInitiator(m))) && p.i.role.Initiator?
  {
    hide OnServerHello, OnServerPayload, OnServerFinished, IShape, RInv, CanSay, SentOk, BodyOk, Concat, FinishedMatches;
    var t := AfterMsg(p.i, m).state;
    IServerHello(p.i, p.claims, m.body);
    IServerPayload(p.i, p.claims, m, p.sent, p.r);
    IServerFinished(p.i, p.claims, m.body);
    assert IInv(t, Claims(p.i, t, p.claims)) && p.claims <= Claims(p.i, t, p.claims);
    if t.established.Some? && t.established.value.remoteIdentity == Some(IdentityText(Responder)) {
      assert p.i.remotePayload.Some? && p.i.remotePayload.value.identity == IdentityText(Responder);
      ICompletes(p, m);
    }
  }

  // ------------------------------------------------------------ the responder's steps

  /** Before completion, what a step leaves behind: its own records in order, its last message sent. */
  ghost predicate RStepOk(r: HandshakeState, t: HandshakeState, sent: seq<Msg>, said: Option<Msg>) {
    RInv(t, Told(sent, said))
  }

  lemma RClientHello(r: HandshakeState, sent: seq<Msg>, body: Text)
    requires RInv(r, sent) && !r.complete
    ensures var step := OnClientHello(r, body);
      RStepOk(r, step.state, sent, step.sent) && step.state.established == r.established
  {
    hide EncodeHello, DecodeHello;
    if DecodeHello(CLIENT_HELLO, body).Some? {
      HelloLength(CLIENT_HELLO, body);
      LocalHelloLength(r, SERVER_HELLO);
    }
  }

  lemma LocalHelloLength(s: HandshakeState, kind: uint8)
    ensures |EncodeHello(kind, Hello(KeyText(s.role), NonceText(s.role)))| == HELLO_BYTES
  {
  }

  lemma RClientPayload(r: HandshakeState, sent: seq<Msg>, m: Msg, claims: seq<Claim>)
    requires RInv(r, sent) && !r.complete && CanSay(sent, m) && SentOk(sent, claims, r)
    ensures var step := OnClientPayload(r, m.body);
      RStepOk(r, step.state, sent, step.sent) && step.state.established == r.established
  {
    hide EncodePayload, PayloadText, DecodePayload, Decapsulated, PayloadVerifies;
    var decoded := DecodePayload(CLIENT_PAYLOAD, m.body);
    if r.remoteHello.Some? && decoded.Some? && PayloadVerifies(decoded.value) {
      if decoded.value.identity == IdentityText(Initiator) {
        SignedByOwner(decoded.value, CLIENT_PAYLOAD, m, Initiator, sent, claims, r);
      }
      DecodedLength(CLIENT_PAYLOAD, m.body);
      PayloadLength(Heard(r.(remotePayload := decoded), m.body), SERVER_PAYLOAD, r.remoteHello.value.kemKey);
    }
  }

  lemma RClientFinished(r: HandshakeState, sent: seq<Msg>, body: Text)
    requires RInv(r, sent) && !r.complete
    ensures var step := OnClientFinished(r, body);
      && RStepOk(r, step.state, sent, step.sent)
      && (step.state.established.Some? ==> r.master.Some? && r.remotePayload.Some? && FinishedMatches(r.master.value, r.transcript, body))
      && (step.state.established.Some? ==> |step.state.transcript| == |r.transcript| + 2)
      && (step.state.established.Some? ==> step.state.transcript[..|r.transcript|] == r.transcript)
      && (step.state.established.Some? ==> step.state.master == r.master && step.state.remotePayload == r.remotePayload)
  {
    hide FinishedMatches, Concat, LocalFinished;
    if r.master.Some? && FinishedMatches(r.master.value, r.transcript, body) {
      var t := OnClientFinished(r, body).state;
      MatchLength(r.master.value, r.transcript, body);
      assert t.transcript[..|t.transcript| - 1] == r.transcript + [body];
      assert t.transcript[..|t.transcript| - 2] == r.transcript;
    }
  }

  lemma MatchLength(master: Master, transcript: seq<Text>, body: Text)
    requires FinishedMatches(master, transcript, body)
    ensures |body| == FINISHED_BYTES
  {
  }

  lemma RSays(r: HandshakeState, sent: seq<Msg>, claims: seq<Claim>, m: Msg)
    requires RInv(r, sent) && SentOk(sent, claims, r) && !r.complete
    ensures var step := AfterMsg(r, m);
      step.sent.Some? ==> BodyOk(step.sent.value.body, claims, step.state)
  {
    hide EncodePayload, DecodePayload, DecodeHello, EncodeHello, Decapsulated, PayloadVerifies, FinishedMatches, Concat, MacText, RShape;
    var step := AfterMsg(r, m);
    var t := if m.kind == CLIENT_HELLO || m.kind == CLIENT_PAYLOAD then r.(answered := Some(m)) else r;
    if step.sent.Some? {
      forall x | x in step.sent.value.body
        ensures SymbolOk(x, claims, step.state)
      {
        if IsRepeat(r, m) {
          var k :| 0 <= k < |sent| && sent[k] == r.lastSent.value;
          assert BodyOk(sent[k].body, claims, r);
          assert SymbolOk(x, claims, r);
        } else if m.kind == CLIENT_HELLO {
          HelloSays(t, SERVER_HELLO, x);
        } else if m.kind == CLIENT_PAYLOAD {
          PayloadSays(Heard(t.(remotePayload := DecodePayload(CLIENT_PAYLOAD, m.body)), m.body), SERVER_PAYLOAD, t.remoteHello.value.kemKey, x);
        } else {
          FinishedSays(r.master.value, r.transcript + [m.body], x);
          assert step.state.transcript[..|step.state.transcript| - 1] == r.transcript + [m.body];
        }
      }
    }
  }

  /** While the responder had not completed, no MAC was its own; so its completing unsays nothing. */
  lemma CompletingKeepsSaid(sent: seq<Msg>, claims: seq<Claim>, r: HandshakeState, t: HandshakeState)
    requires SentOk(sent, claims, r) && (r.established.None? || t == r)
    ensures SentOk(sent, claims, t)
  {
    forall k | 0 <= k < |sent|
      ensures BodyOk(sent[k].body, claims, t)
    {
      assert BodyOk(sent[k].body, claims, r);
      forall x | x in sent[k].body
        ensures SymbolOk(x, claims, t)
      {
        assert SymbolOk(x, claims, r);
      }
    }
  }

  /** The responder completes under the initiator's identity: the initiator vouched for just this transcript and secret. */
  lemma RCompletes(p: Pair, m: Msg)
    requires Inv(p) && !p.r.complete && CanSay(p.sent, m)
    requires p.r.master.Some? && FinishedMatches(p.r.master.value, p.r.transcript, m.body)
    requires p.r.remotePayload.value.identity == IdentityText(Initiator)
    ensures |p.r.transcript| == 4 && Claim(p.r.master.value, p.r.transcript) in p.claims
  {
    var r, master := p.r, p.r.master.value;
    MacWasSaid(master, r.transcript, m, p.sent, p.claims, r);
    hide FinishedMatches, SentOk, CanSay, Concat, SharedKnown;
    assert r.established.None?;
    var k :| 0 <= k < |p.claims| && p.claims[k].master == master && Concat(p.claims[k].transcript) == Concat(r.transcript);
    SameAtFour(p.claims[k].transcript, r.transcript);
    assert p.claims[k] == Claim(master, r.transcript);
  }

  lemma RRepeats(r: HandshakeState, sent: seq<Msg>, m: Msg)
    requires RInv(r, sent)
    ensures RInv(r, Told(sent, r.lastSent))
    ensures RInv(r.(answered := Some(m)), sent)
  {
    hide RDone, RShape;
    assert RDone(r) ==> RDone(r.(answered := Some(m))) by { DoneAnswering(r, m); }
  }

  lemma DoneAnswering(r: HandshakeState, m: Msg)
    ensures RDone(r) ==> RDone(r.(answered := Some(m)))
  {
  }

  lemma ToResponderKeeps(p: Pair, m: Msg)
    requires Inv(p) && CanSay(p.sent, m)
    ensures Inv(Next(p, ToResponder(m)))
  {
    var step := AfterMsg(p.r, m);
    var t := step.state;
    if p.r.complete {
      assert Next(p, ToResponder(m)) == p;
    } else {
      NotYetEstablished(p);
      RStepKeeps(p, m);
      hide AfterMsg, IInv, CanSay, SentOk, BodyOk, RInv, Agrees;
      RSays(p.r, p.sent, p.claims, m);
      CompletingKeepsSaid(p.sent, p.claims, p.r, t);
      MoreIsOk(p.sent, p.claims, p.claims, t, step.sent);
    }
  }

  lemma NotYetEstablished(p: Pair)
    requires Inv(p) && !p.r.complete
    ensures p.r.established.None?
  {
  }

  /** The responder's own records, and agreement, after a message. */
  lemma RStepKeeps(p: Pair, m: Msg)
    requires Inv(p) && !p.r.complete && CanSay(p.sent, m)
    ensures var step := AfterMsg(p.r, m);
      && RInv(step.state, Told(p.sent, step.sent)) && Agrees(Next(p, ToResponder(m)))
  {
    hide OnClientHello, OnClientPayload, OnClientFinished, RShape, CanSay, SentOk, BodyOk, IInv, Concat, FinishedMatches;
    var step := AfterMsg(p.r, m);
    var t := step.state;
    NotYetEstablished(p);
    var asked := p.r.(answered := Some(m));
    RRepeats(p.r, p.sent, m);
    CompletingKeepsSaid(p.sent, p.claims, p.r, asked);
    RClientHello(asked, p.sent, m.body);
    RClientPayload(asked, p.sent, m, p.claims);
    RClientFinished(p.r, p.sent, m.body);
    assert RInv(t, Told(p.sent, step.sent));
    if t.established.Some? && t.established.value.remoteIdentity == Some(IdentityText(Initiator)) {
      assert p.r.remotePayload.value.identity == IdentityText(Initiator);
      RCompletes(p, m);
    }
  }

  // ------------------------------------------------------------ agreement

  lemma {:induction false} RunKeepsInv(chunkedI: bool, chunkedR: bool, acts: seq<Act>)
    requires AllPossible(chunkedI, chunkedR, acts)
    ensures Inv(Ran(chunkedI, chunkedR, acts))
  {
    if acts != [] {
      var front, act := acts[..|acts| - 1], acts[|acts| - 1];
      RunKeepsInv(chunkedI, chunkedR, front);
      hide Inv, AfterMsg, AfterStart, CanSay;
      match act {
        case Begin => BeginKeeps(Ran(chunkedI, chunkedR, front));
        case ToInitiator(m) => ToInitiatorKeeps(Ran(chunkedI, chunkedR, front), m);
        case ToResponder(m) => ToResponderKeeps(Ran(chunkedI, chunkedR, front), m);
      }
    }
  }

  /** Both ends hold the same six-part transcript and secret, and what one sends with the other receives with, at every epoch. */
  ghost predicate Mirrored(a: Established, b: Established) {
    && a.master == b.master && a.transcript == b.transcript && |a.transcript| == 6
    && forall epoch: uint32 ::
         Derived(a, Initiator, epoch).0 == Derived(b, Responder, epoch).1
         && Derived(a, Initiator, epoch).1 == Derived(b, Responder, epoch).0
         && Derived(a, Initiator, epoch).0 != Derived(a, Initiator, epoch).1
  }

  /**
   Agreement against any network: whenever the initiator completes with the responder's
   identity, the responder has completed with it, on mirrored keys.
   */
  lemma InitiatorAgreement(chunkedI: bool, chunkedR: bool, acts: seq<Act>)
    requires AllPossible(chunkedI, chunkedR, acts)
    ensures var p := Ran(chunkedI, chunkedR, acts);
      p.i.established.Some? && p.i.established.value.remoteIdentity == Some(IdentityText(Responder)) ==>
        p.r.established.Some? && Mirrored(p.i.established.value, p.r.established.value)
  {
    RunKeepsInv(chunkedI, chunkedR, acts);
    hide IInv, RInv, SentOk;
  }

  /**
   And the other way: whenever the responder completes with the initiator's identity,
   the initiator has vouched for the same secret and the same four parts.
   */
  lemma ResponderAgreement(chunkedI: bool, chunkedR: bool, acts: seq<Act>)
    requires AllPossible(chunkedI, chunkedR, acts)
    ensures var p := Ran(chunkedI, chunkedR, acts);
      p.r.established.Some? && p.r.established.value.remoteIdentity == Some(IdentityText(Initiator)) ==>
        |p.r.transcript| == 6 && Claim(p.r.established.value.master, p.r.transcript[..4]) in p.claims
  {
    RunKeepsInv(chunkedI, chunkedR, acts);
  }

  // ------------------------------------------------------------ a network that only loses, repeats and reorders

  /** Only what an honest end sent is delivered. */
  ghost predicate Faithful(p: Pair, act: Act) {
    match act
    case Begin => true
    case ToInitiator(m) => exists k :: 0 <= k < |p.sent| && p.sent[k].body == m.body
    case ToResponder(m) => exists k :: 0 <= k < |p.sent| && p.sent[k].body == m.body
  }

  ghost predicate AllFaithful(chunkedI: bool, chunkedR: bool, acts: seq<Act>) {
    acts == [] ||
    (AllFaithful(chunkedI, chunkedR, acts[..|acts| - 1]) && Faithful(Ran(chunkedI, chunkedR, acts[..|acts| - 1]), acts[|acts| - 1]))
  }

  lemma {:induction false} FaithfulIsPossible(chunkedI: bool, chunkedR: bool, acts: seq<Act>)
    requires AllFaithful(chunkedI, chunkedR, acts)
    ensures AllPossible(chunkedI, chunkedR, acts)
  {
    if acts != [] {
      var front, act := acts[..|acts| - 1], acts[|acts| - 1];
      FaithfulIsPossible(chunkedI, chunkedR, front);
      hide Next;
      var p := Ran(chunkedI, chunkedR, front);
      if !act.Begin? {
        var k :| 0 <= k < |p.sent| && p.sent[k].body == act.m.body;
        assert forall x :: x in act.m.body ==> WasSent(p.sent, x);
      }
    }
  }

  /** A payload names its sender. */
  ghost predicate NamesSender(t: Text) {
    && (DecodePayload(SERVER_PAYLOAD, t).Some? ==> DecodePayload(SERVER_PAYLOAD, t).value.identity == IdentityText(Responder))
    && (DecodePayload(CLIENT_PAYLOAD, t).Some? ==> DecodePayload(CLIENT_PAYLOAD, t).value.identity == IdentityText(Initiator))
  }

  ghost predicate Named(p: Pair) {
    && (forall k :: 0 <= k < |p.sent| ==> NamesSender(p.sent[k].body))
    && (p.i.remotePayload.Some? ==> p.i.remotePayload.value.identity == IdentityText(Responder))
    && (p.r.remotePayload.Some? ==> p.r.remotePayload.value.identity == IdentityText(Initiator))
  }

  lemma LocalPayloadNames(s: HandshakeState, key: Text)
    ensures s.role.Initiator? ==> NamesSender(LocalPayload(s, CLIENT_PAYLOAD, key).body)
    ensures s.role.Responder? ==> NamesSender(LocalPayload(s, SERVER_PAYLOAD, key).body)
  {
    var p := Payload(CipherText(s.role, s.encapsulations, key), IdentityText(s.role), KeyText(s.role), SignatureText(s.role, KeyText(s.role)));
    PayloadRoundTrip(CLIENT_PAYLOAD, p);
    PayloadRoundTrip(SERVER_PAYLOAD, p);
  }

  lemma OthersNameNobody(s: HandshakeState, kind: uint8, master: Master, transcript: seq<Text>)
    ensures NamesSender(LocalHello(s, kind).body) && NamesSender(LocalFinished(master, transcript).body)
  {
  }

  /** What a step leaves as the remote payload is what was there or what came. */
  lemma RemoteIs(s: HandshakeState, m: Msg)
    ensures var t := AfterMsg(s, m).state;
      || t.remotePayload == s.remotePayload
      || (t.remotePayload.Some? && t.remotePayload ==
            if s.role.Responder? then DecodePayload(CLIENT_PAYLOAD, m.body) else DecodePayload(SERVER_PAYLOAD, m.body))
  {
    hide EncodePayload, DecodePayload, EncodeHello, DecodeHello, EncodeFinished, Decapsulated, PayloadVerifies, FinishedMatches;
  }

  lemma InitiatorNames(p: Pair, m: Msg)
    requires Inv(p) && Named(p)
    ensures var step := AfterMsg(p.i, m); step.sent.Some? ==> NamesSender(step.sent.value.body)
  {
    hide EncodePayload, DecodePayload, EncodeHello, DecodeHello, EncodeFinished, Decapsulated, PayloadVerifies, FinishedMatches, NamesSender, SentOk, Agrees, RInv, IShape, IDone;
    var step := AfterMsg(p.i, m);
    if step.sent.Some? {
      if m.kind == SERVER_HELLO {
        var hello := DecodeHello(SERVER_HELLO, m.body);
        LocalPayloadNames(Heard(p.i.(remoteHello := hello), m.body), hello.value.kemKey);
      } else {
        OthersNameNobody(p.i, SERVER_HELLO, step.state.master.value, p.i.transcript + [m.body]);
      }
    }
  }

  lemma NextNames(p: Pair, act: Act)
    requires Inv(p) && Named(p) && Faithful(p, act)
    ensures Named(Next(p, act))
  {
    match act {
      case Begin =>
        OthersNameNobody(p.i, CLIENT_HELLO, Master(Foreign(Initiator, []), Foreign(Initiator, [])), []);
        hide NamesSender, EncodeHello;
      case ToInitiator(m) =>
        assert p.i.role.Initiator?;
        hide AfterMsg, NamesSender, DecodePayload, Inv;
        Heeded(p, m);
        InitiatorNames(p, m);
        RemoteIs(p.i, m);
      case ToResponder(m) =>
        assert p.r.role.Responder?;
        hide AfterMsg, NamesSender, DecodePayload, Inv;
        Heeded(p, m);
        ResponderNames(p, m);
        RemoteIs(p.r, m);
    }
  }

  lemma Heeded(p: Pair, m: Msg)
    requires Named(p) && exists k :: 0 <= k < |p.sent| && p.sent[k].body == m.body
    ensures DecodePayload(SERVER_PAYLOAD, m.body).Some? ==> DecodePayload(SERVER_PAYLOAD, m.body).value.identity == IdentityText(Responder)
    ensures DecodePayload(CLIENT_PAYLOAD, m.body).Some? ==> DecodePayload(CLIENT_PAYLOAD, m.body).value.identity == IdentityText(Initiator)
  {
    var k :| 0 <= k < |p.sent| && p.sent[k].body == m.body;
    assert NamesSender(p.sent[k].body);
  }

  lemma ResponderNames(p: Pair, m: Msg)
    requires Inv(p) && Named(p)
    ensures var step := AfterMsg(p.r, m); step.sent.Some? ==> NamesSender(step.sent.value.body)
  {
    hide EncodePayload, DecodePayload, EncodeHello, DecodeHello, EncodeFinished, Decapsulated, PayloadVerifies, FinishedMatches, NamesSender, SentOk, Agrees, IInv, RShape, RDone;
    var t := if m.kind == CLIENT_HELLO || m.kind == CLIENT_PAYLOAD then p.r.(answered := Some(m)) else p.r;
    var step := AfterMsg(p.r, m);
    if step.sent.Some? {
      if !p.r.complete && IsRepeat(p.r, m) {
        var k :| 0 <= k < |p.sent| && p.sent[k] == p.r.lastSent.value;
      } else if m.kind == CLIENT_HELLO {
        OthersNameNobody(t, SERVER_HELLO, Master(Foreign(Initiator, []), Foreign(Initiator, [])), []);
      } else if m.kind == CLIENT_PAYLOAD {
        LocalPayloadNames(Heard(t.(remotePayload := DecodePayload(CLIENT_PAYLOAD, m.body)), m.body), t.remoteHello.value.kemKey);
      } else {
        OthersNameNobody(p.r, SERVER_HELLO, p.r.master.value, p.r.transcript + [m.body]);
      }
    }
  }

  lemma {:induction false} RunNames(chunkedI: bool, chunkedR: bool, acts: seq<Act>)
    requires AllFaithful(chunkedI, chunkedR, acts)
    ensures Named(Ran(chunkedI, chunkedR, acts))
  {
    if acts != [] {
      var front := acts[..|acts| - 1];
      RunNames(chunkedI, chunkedR, front);
      FaithfulIsPossible(chunkedI, chunkedR, front);
      RunKeepsInv(chunkedI, chunkedR, front);
      hide Named, Inv, Faithful, Next;
      NextNames(Ran(chunkedI, chunkedR, front), acts[|acts| - 1]);
    }
  }

  /** On a network that only loses, repeats and reorders: whenever the initiator completes, both have, on mirrored keys. */
  lemma LossyAgreement(chunkedI: bool, chunkedR: bool, acts: seq<Act>)
    requires AllFaithful(chunkedI, chunkedR, acts)
    ensures var p := Ran(chunkedI, chunkedR, acts);
      && (p.i.established.Some? ==> p.r.established.Some? && Mirrored(p.i.established.value, p.r.established.value))
      && (p.r.established.Some? ==> |p.r.transcript| == 6 && Claim(p.r.established.value.master, p.r.transcript[..4]) in p.claims)
  {
    FaithfulIsPossible(chunkedI, chunkedR, acts);
    RunKeepsInv(chunkedI, chunkedR, acts);
    RunNames(chunkedI, chunkedR, acts);
    InitiatorAgreement(chunkedI, chunkedR, acts);
    ResponderAgreement(chunkedI, chunkedR, acts);
    hide Ran, SentOk, IShape, RShape, Mirrored, AllFaithful;
  }
}
