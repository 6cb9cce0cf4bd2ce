/**
 MshAdpHandshake (src/link/MshAdpHandshake.cpp): the two roles of the handshake, and
 the messages they read and write (src/L2/MshMessages.cpp).

 `HandshakeState` and the functions on it say what each message makes of an end; class
 `MshAdpHandshake` is the end as the source writes it, fields advanced by HandleMsh.
 The network layer, the random generator and the identity store always work here.
 */
module Handshake {
  import opened Words
  import opened Symbols

  const CLIENT_HELLO: uint8 := 1
  const SERVER_HELLO: uint8 := 2
  const CLIENT_PAYLOAD: uint8 := 3
  const SERVER_PAYLOAD: uint8 := 4
  const FINISHED: uint8 := 5
  const MSH_VERSION: uint8 := 1

  /** A message as it is handed to the wire: its type, and its body. */
  datatype Msg = Msg(kind: uint8, body: Text)

  datatype Hello = Hello(kemKey: Text, nonce: Text)
  datatype Payload = Payload(cipher: Text, identity: Text, staticKey: Text, signature: Text)

  // ------------------------------------------------------------ messages

  function EncodeHello(kind: uint8, hello: Hello): Text {
    [Plain(kind), Plain(MSH_VERSION)] + hello.kemKey + hello.nonce
  }

  function DecodeHello(kind: uint8, t: Text): Option<Hello> {
    if |t| != 2 + KEM_KEY_BYTES + NONCE_BYTES || t[0] != Plain(kind) || t[1] != Plain(MSH_VERSION) then None
    else Some(Hello(t[2..2 + KEM_KEY_BYTES], t[2 + KEM_KEY_BYTES..]))
  }

  const IDENTITY_AT: nat := 1 + KEM_CIPHER_BYTES
  const STATIC_AT: nat := IDENTITY_AT + IDENTITY_BYTES
  const SIGNATURE_AT: nat := STATIC_AT + KEM_KEY_BYTES
  const PAYLOAD_BYTES: nat := SIGNATURE_AT + SIGNATURE_BYTES
  const HELLO_BYTES: nat := 2 + KEM_KEY_BYTES + NONCE_BYTES
  const FINISHED_BYTES: nat := 1 + MAC_BYTES

  function EncodePayload(kind: uint8, p: Payload): Text {
    [Plain(kind)] + p.cipher + p.identity + p.staticKey + p.signature
  }

  function DecodePayload(kind: uint8, t: Text): Option<Payload> {
    if |t| != PAYLOAD_BYTES || t[0] != Plain(kind) then None
    else Some(Payload(t[1..IDENTITY_AT], t[IDENTITY_AT..STATIC_AT], t[STATIC_AT..SIGNATURE_AT], t[SIGNATURE_AT..]))
  }

  function EncodeFinished(mac: Text): Text {
    [Plain(FINISHED)] + mac
  }

  function DecodeFinished(t: Text): Option<Text> {
    if |t| != FINISHED_BYTES || t[0] != Plain(FINISHED) then None else Some(t[1..])
  }

  lemma HelloRoundTrip(kind: uint8, h: Hello)
    requires |h.kemKey| == KEM_KEY_BYTES && |h.nonce| == NONCE_BYTES
    ensures DecodeHello(kind, EncodeHello(kind, h)) == Some(h)
  {
    var t := EncodeHello(kind, h);
    assert t[2..2 + KEM_KEY_BYTES] == h.kemKey && t[2 + KEM_KEY_BYTES..] == h.nonce;
  }

  lemma PayloadRoundTrip(kind: uint8, p: Payload)
    requires |p.cipher| == KEM_CIPHER_BYTES && |p.identity| == IDENTITY_BYTES
    requires |p.staticKey| == KEM_KEY_BYTES && |p.signature| == SIGNATURE_BYTES
    ensures DecodePayload(kind, EncodePayload(kind, p)) == Some(p)
  {
    var t := EncodePayload(kind, p);
    assert t[1..IDENTITY_AT] == p.cipher && t[IDENTITY_AT..STATIC_AT] == p.identity;
    assert t[STATIC_AT..SIGNATURE_AT] == p.staticKey && t[SIGNATURE_AT..] == p.signature;
  }

  lemma FinishedRoundTrip(mac: Text)
    requires |mac| == MAC_BYTES
    ensures DecodeFinished(EncodeFinished(mac)) == Some(mac)
  {
    assert EncodeFinished(mac)[1..] == mac;
  }

  // ------------------------------------------------------------ one end

  /** What completion hands over; the transcript hash stands for its (injective) input. */
  datatype Established = Established(master: Master, transcript: seq<Text>, remoteIdentity: Option<Text>)

  datatype HandshakeState = HandshakeState(
    role: End, chunked: bool, started: bool, complete: bool,
    remoteHello: Option<Hello>, remotePayload: Option<Payload>, transcript: seq<Text>,
    clientSecret: Option<Shared>, master: Option<Master>, encapsulations: nat,
    lastSent: Option<Msg>, answered: Option<Msg>, established: Option<Established>)

  /** What a call sends, and whether it returned an error. */
  datatype Step = Step(state: HandshakeState, sent: Option<Msg>, ok: bool)

  function NewHandshake(role: End, chunked: bool): HandshakeState {
    HandshakeState(role, chunked, false, false, None, None, [], None, None, 0, None, None, None)
  }

  /** Fail: reported, and over. */
  function Failed(s: HandshakeState): Step {
    Step(s.(complete := true), None, false)
  }

  function Refused(s: HandshakeState): Step {
    Step(s, None, false)
  }

  /** The message is appended to the transcript and sent; over a carrier it is kept for resending. */
  function Sends(s: HandshakeState, m: Msg): Step {
    Step(s.(transcript := s.transcript + [m.body], lastSent := if s.chunked then s.lastSent else Some(m)), Some(m), true)
  }

  function Heard(s: HandshakeState, body: Text): HandshakeState {
    s.(transcript := s.transcript + [body])
  }

  function LocalHello(s: HandshakeState, kind: uint8): Msg {
    Msg(kind, EncodeHello(kind, Hello(KeyText(s.role), NonceText(s.role))))
  }

  /** BuildLocalPayload: encapsulate to the remote key, sign one's own. */
  function PayloadText(kind: uint8, role: End, round: nat, remoteKey: Text): Text {
    EncodePayload(kind, Payload(CipherText(role, round, remoteKey), IdentityText(role), KeyText(role), SignatureText(role, KeyText(role))))
  }

  function LocalPayload(s: HandshakeState, kind: uint8, remoteKey: Text): Msg {
    Msg(kind, PayloadText(kind, s.role, s.encapsulations, remoteKey))
  }

  function LocalFinished(master: Master, transcript: seq<Text>): Msg {
    Msg(FINISHED, EncodeFinished(MacText(master, Concat(transcript))))
  }

  predicate FinishedMatches(master: Master, transcript: seq<Text>, body: Text) {
    DecodeFinished(body) == Some(MacText(master, Concat(transcript)))
  }

  predicate PayloadVerifies(p: Payload) {
    Verifies(p.identity, p.staticKey, p.signature)
  }

  function Completed(s: HandshakeState): HandshakeState {
    if s.complete || s.master.None? || |s.transcript| < 6 then s
    else
      s.(complete := true,
         established := Some(Established(s.master.value, s.transcript,
           if s.remotePayload.Some? then Some(s.remotePayload.value.identity) else None)))
  }

  function AfterStart(s: HandshakeState): Step {
    if s.role.Responder? || s.started then Refused(s)
    else Sends(s.(started := true), LocalHello(s, CLIENT_HELLO))
  }

  function OnClientHello(s: HandshakeState, body: Text): Step {
    if s.started then Refused(s)
    else
      match DecodeHello(CLIENT_HELLO, body)
      case None => Failed(s.(started := true))
      case Some(hello) =>
        var t := Heard(s.(started := true, remoteHello := Some(hello)), body);
        Sends(t, LocalHello(t, SERVER_HELLO))
  }

  /** A client payload that passed every check: answer it, and the master secret is there. */
  function ClientPayloadTaken(s: HandshakeState, body: Text, p: Payload): Step
    requires s.remoteHello.Some?
  {
    var t := Heard(s.(remotePayload := Some(p)), body);
    var key := s.remoteHello.value.kemKey;
    var sends := Sends(t.(encapsulations := t.encapsulations + 1), LocalPayload(t, SERVER_PAYLOAD, key));
    var master := Master(Decapsulated(s.role, p.cipher), Made(s.role, s.encapsulations, key));
    sends.(state := sends.state.(master := Some(master)))
  }

  function OnClientPayload(s: HandshakeState, body: Text): Step {
    if s.remoteHello.None? then Refused(s)
    else
      match DecodePayload(CLIENT_PAYLOAD, body)
      case None => Failed(s)
      case Some(p) =>
        if !PayloadVerifies(p) || p.staticKey != s.remoteHello.value.kemKey then Failed(s) else ClientPayloadTaken(s, body, p)
  }

  function OnClientFinished(s: HandshakeState, body: Text): Step {
    if s.master.None? then Refused(s)
    else if !FinishedMatches(s.master.value, s.transcript, body) then Failed(s)
    else
      var t := Heard(s, body);
      var sends := Sends(t, LocalFinished(s.master.value, t.transcript));
      sends.(state := Completed(sends.state))
  }

  function OnServerHello(s: HandshakeState, body: Text): Step {
    if s.remoteHello.Some? && !s.chunked then Step(s, None, true)
    else if !s.started || s.remoteHello.Some? then Refused(s)
    else
      match DecodeHello(SERVER_HELLO, body)
      case None => Failed(s)
      case Some(hello) =>
        var t := Heard(s.(remoteHello := Some(hello)), body);
        Sends(t.(clientSecret := Some(Made(s.role, s.encapsulations, hello.kemKey)), encapsulations := t.encapsulations + 1),
              LocalPayload(t, CLIENT_PAYLOAD, hello.kemKey))
  }

  /** A server payload that passed every check: the master secret is there, and Finished goes out. */
  function ServerPayloadTaken(s: HandshakeState, body: Text, p: Payload): Step
    requires s.clientSecret.Some?
  {
    var master := Master(s.clientSecret.value, Decapsulated(s.role, p.cipher));
    var t := Heard(s.(remotePayload := Some(p), master := Some(master)), body);
    Sends(t, LocalFinished(master, t.transcript))
  }

  function OnServerPayload(s: HandshakeState, body: Text): Step {
    if s.remotePayload.Some? && !s.chunked then Step(s, None, true)
    else if s.remoteHello.None? || s.clientSecret.None? then Refused(s)
    else
      match DecodePayload(SERVER_PAYLOAD, body)
      case None => Failed(s)
      case Some(p) =>
        if !PayloadVerifies(p) || p.staticKey != s.remoteHello.value.kemKey then Failed(s) else ServerPayloadTaken(s, body, p)
  }

  function OnServerFinished(s: HandshakeState, body: Text): Step {
    if s.master.None? then Refused(s)
    else if !FinishedMatches(s.master.value, s.transcript, body) then Failed(s)
    else Step(Completed(Heard(s, body)), None, true)
  }

  /** The responder, over a carrier, answers a repeat of what it last answered by sending its reply again. */
  predicate IsRepeat(s: HandshakeState, m: Msg) {
    !s.chunked && s.answered == Some(m)
  }

  function AfterMsg(s: HandshakeState, m: Msg): Step {
    if s.complete then Refused(s)
    else if s.role.Responder? then
      if IsRepeat(s, m) then AfterResend(s)
      else
        var t := if m.kind == CLIENT_HELLO || m.kind == CLIENT_PAYLOAD then s.(answered := Some(m)) else s;
        if m.kind == CLIENT_HELLO then OnClientHello(t, m.body)
        else if m.kind == CLIENT_PAYLOAD then OnClientPayload(t, m.body)
        else if m.kind == FINISHED then OnClientFinished(t, m.body)
        else Refused(t)
    else if m.kind == SERVER_HELLO then OnServerHello(s, m.body)
    else if m.kind == SERVER_PAYLOAD then OnServerPayload(s, m.body)
    else if m.kind == FINISHED then OnServerFinished(s, m.body)
    else Refused(s)
  }

  /** Resend, over a carrier: the last message once more. */
  function AfterResend(s: HandshakeState): Step {
    Step(s, s.lastSent, s.lastSent.Some?)
  }

  // ------------------------------------------------------------ keys

  datatype SessionKey = SessionKey(master: Master, transcript: Text, client: bool, epoch: uint32)

  /** SessionKeys::Derive: what this end sends and receives with. */
  function Derived(e: Established, role: End, epoch: uint32): (SessionKey, SessionKey) {
    var hash := Concat(e.transcript);
    (SessionKey(e.master, hash, role.Initiator?, epoch), SessionKey(e.master, hash, !role.Initiator?, epoch))
  }

  // ------------------------------------------------------------ the end itself

  class MshAdpHandshake {
    const role: End
    const chunkedWire: bool
    var complete: bool
    var started: bool
    var remoteHello: Option<Hello>
    var remotePayload: Option<Payload>
    var transcript: seq<Text>
    var clientSecret: Option<Shared>
    var masterIkm: Option<Master>
    var encapsulations: nat
    var lastSent: Option<Msg>
    var answered: Option<Msg>
    var established: Option<Established>
    /** The message the last call put on the wire. */
    var sent: Option<Msg>

    ghost function State(): HandshakeState
      reads this
    {
      HandshakeState(role, chunkedWire, started, complete, remoteHello, remotePayload, transcript, clientSecret,
                     masterIkm, encapsulations, lastSent, answered, established)
    }

    constructor (role: End, chunkedWire: bool)
      ensures State() == NewHandshake(role, chunkedWire) && sent == None
    {
      this.role, this.chunkedWire := role, chunkedWire;
      complete, started, remoteHello, remotePayload, transcript := false, false, None, None, [];
      clientSecret, masterIkm, encapsulations := None, None, 0;
      lastSent, answered, established, sent := None, None, None, None;
    }

    method AppendPart(t: Text)
      modifies this`transcript
      ensures transcript == old(transcript) + [t]
    {
      transcript := transcript + [t];
    }

    method SendMessage(kind: uint8, body: Text)
      modifies this`lastSent, this`sent
      ensures sent == Some(Msg(kind, body))
      ensures lastSent == if chunkedWire then old(lastSent) else Some(Msg(kind, body))
    {
      if !chunkedWire {
        lastSent := Some(Msg(kind, body));
      }
      sent := Some(Msg(kind, body));
    }

    method Fail() returns (ok: bool)
      modifies this`complete
      ensures complete && !ok
    {
      complete := true;
      return false;
    }

    method Start() returns (ok: bool)
      modifies this
      ensures Step(State(), sent, ok) == AfterStart(old(State()))
    {
      sent := None;
      if role != Initiator || started {
        return false;
      }
      started := true;
      var hello := EncodeHello(CLIENT_HELLO, Hello(KeyText(role), NonceText(role)));
      AppendPart(hello);
      SendMessage(CLIENT_HELLO, hello);
      return true;
    }

    method Resend() returns (ok: bool)
      modifies this`sent
      ensures Step(State(), sent, ok) == AfterResend(old(State()))
    {
      sent := lastSent;
      return lastSent.Some?;
    }

    method HandleMsh(m: Msg) returns (ok: bool)
      modifies this
      ensures Step(State(), sent, ok) == AfterMsg(old(State()), m)
    {
      sent := None;
      if complete {
        return false;
      }
      if role == Responder {
        if !chunkedWire && answered == Some(m) {
          ok := Resend();
          return;
        }
        if m.kind == CLIENT_HELLO || m.kind == CLIENT_PAYLOAD {
          answered := Some(m);
        }
        if m.kind == CLIENT_HELLO {
          ok := TakeClientHello(m.body);
        } else if m.kind == CLIENT_PAYLOAD {
          ok := TakeClientPayload(m.body);
        } else if m.kind == FINISHED {
          ok := TakeClientFinished(m.body);
        } else {
          ok := false;
        }
        return;
      }
      if m.kind == SERVER_HELLO {
        ok := TakeServerHello(m.body);
      } else if m.kind == SERVER_PAYLOAD {
        ok := TakeServerPayload(m.body);
      } else if m.kind == FINISHED {
        ok := TakeServerFinished(m.body);
      } else {
        ok := false;
      }
    }

    method TakeClientHello(body: Text) returns (ok: bool)
      requires sent == None
      modifies this
      ensures Step(State(), sent, ok) == OnClientHello(old(State()), body)
    {
      hide PayloadText, DecodePayload, EncodeHello, DecodeHello, EncodeFinished, Decapsulated, PayloadVerifies, FinishedMatches;
      if started {
        return false;
      }
      started := true;
      var parsed := DecodeHello(CLIENT_HELLO, body);
      if parsed.None? {
        ok := Fail();
        return;
      }
      remoteHello := parsed;
      AppendPart(body);
      var hello := EncodeHello(SERVER_HELLO, Hello(KeyText(role), NonceText(role)));
      AppendPart(hello);
      SendMessage(SERVER_HELLO, hello);
      return true;
    }

    /** BuildLocalPayload and its encoding. */
    method BuildPayload(kind: uint8, remoteKey: Text) returns (body: Text, secret: Shared)
      modifies this`encapsulations
      ensures body == PayloadText(kind, role, old(encapsulations), remoteKey)
      ensures secret == Made(role, old(encapsulations), remoteKey) && encapsulations == old(encapsulations) + 1
    {
      var cipher := CipherText(role, encapsulations, remoteKey);
      secret := Made(role, encapsulations, remoteKey);
      encapsulations := encapsulations + 1;
      body := EncodePayload(kind, Payload(cipher, IdentityText(role), KeyText(role), SignatureText(role, KeyText(role))));
    }

    method TakeClientPayload(body: Text) returns (ok: bool)
      requires sent == None
      modifies this
      ensures Step(State(), sent, ok) == OnClientPayload(old(State()), body)
    {
      hide PayloadText, DecodePayload, EncodeHello, DecodeHello, EncodeFinished, Decapsulated, PayloadVerifies, FinishedMatches;
      if remoteHello.None? {
        return false;
      }
      var parsed := DecodePayload(CLIENT_PAYLOAD, body);
      if parsed.None? {
        ok := Fail();
        return;
      }
      if !PayloadVerifies(parsed.value) {
        ok := Fail();
        return;
      }
      if parsed.value.staticKey != remoteHello.value.kemKey {
        ok := Fail();
        return;
      }
      ok := AnswerClientPayload(body, parsed.value);
    }

    method AnswerClientPayload(body: Text, p: Payload) returns (ok: bool)
      requires remoteHello.Some?
      modifies this
      ensures Step(State(), sent, ok) == ClientPayloadTaken(old(State()), body, p)
    {
      hide PayloadText, Decapsulated;
      remotePayload := Some(p);
      AppendPart(body);
      var clientShared := Decapsulated(role, p.cipher);
      var payload, serverShared := BuildPayload(SERVER_PAYLOAD, remoteHello.value.kemKey);
      AppendPart(payload);
      SendMessage(SERVER_PAYLOAD, payload);
      masterIkm := Some(Master(clientShared, serverShared));
      return true;
    }

    method TakeClientFinished(body: Text) returns (ok: bool)
      requires sent == None
      modifies this
      ensures Step(State(), sent, ok) == OnClientFinished(old(State()), body)
    {
      hide PayloadText, DecodePayload, EncodeHello, DecodeHello, EncodeFinished, Decapsulated, PayloadVerifies, FinishedMatches;
      if masterIkm.None? {
        return false;
      }
      if !FinishedMatches(masterIkm.value, transcript, body) {
        ok := Fail();
        return;
      }
      AppendPart(body);
      var finished := LocalFinished(masterIkm.value, transcript);
      AppendPart(finished.body);
      SendMessage(FINISHED, finished.body);
      MaybeComplete();
      return true;
    }

    method TakeServerHello(body: Text) returns (ok: bool)
      requires sent == None
      modifies this
      ensures Step(State(), sent, ok) == OnServerHello(old(State()), body)
    {
      hide PayloadText, DecodePayload, EncodeHello, DecodeHello, EncodeFinished, Decapsulated, PayloadVerifies, FinishedMatches;
      if remoteHello.Some? && !chunkedWire {
        return true;
      }
      if !started || remoteHello.Some? {
        return false;
      }
      var parsed := DecodeHello(SERVER_HELLO, body);
      if parsed.None? {
        ok := Fail();
        return;
      }
      remoteHello := parsed;
      AppendPart(body);
      var payload, clientShared := BuildPayload(CLIENT_PAYLOAD, remoteHello.value.kemKey);
      clientSecret := Some(clientShared);
      AppendPart(payload);
      SendMessage(CLIENT_PAYLOAD, payload);
      return true;
    }

    method TakeServerPayload(body: Text) returns (ok: bool)
      requires sent == None
      modifies this
      ensures Step(State(), sent, ok) == OnServerPayload(old(State()), body)
    {
      hide PayloadText, DecodePayload, EncodeHello, DecodeHello, EncodeFinished, Decapsulated, PayloadVerifies, FinishedMatches;
      if remotePayload.Some? && !chunkedWire {
        return true;
      }
      if remoteHello.None? || clientSecret.None? {
        return false;
      }
      var parsed := DecodePayload(SERVER_PAYLOAD, body);
      if parsed.None? {
        ok := Fail();
        return;
      }
      if !PayloadVerifies(parsed.value) {
        ok := Fail();
        return;
      }
      if parsed.value.staticKey != remoteHello.value.kemKey {
        ok := Fail();
        return;
      }
      ok := AnswerServerPayload(body, parsed.value);
    }

    method AnswerServerPayload(body: Text, p: Payload) returns (ok: bool)
      requires clientSecret.Some?
      modifies this
      ensures Step(State(), sent, ok) == ServerPayloadTaken(old(State()), body, p)
    {
      hide EncodePayload, Decapsulated, EncodeFinished;
      remotePayload := Some(p);
      AppendPart(body);
      masterIkm := Some(Master(clientSecret.value, Decapsulated(role, p.cipher)));
      var finished := LocalFinished(masterIkm.value, transcript);
      AppendPart(finished.body);
      SendMessage(FINISHED, finished.body);
      return true;
    }

    method TakeServerFinished(body: Text) returns (ok: bool)
      requires sent == None
      modifies this
      ensures Step(State(), sent, ok) == OnServerFinished(old(State()), body)
    {
      hide PayloadText, DecodePayload, EncodeHello, DecodeHello, EncodeFinished, Decapsulated, PayloadVerifies, FinishedMatches;
      if masterIkm.None? {
        return false;
      }
      if !FinishedMatches(masterIkm.value, transcript, body) {
        ok := Fail();
        return;
      }
      AppendPart(body);
      MaybeComplete();
      return true;
    }

    method MaybeComplete()
      modifies this`complete, this`established
      ensures State() == Completed(old(State()))
    {
      if complete || masterIkm.None? || |transcript| < 6 {
        return;
      }
      established := Some(Established(masterIkm.value, transcript,
        if remotePayload.Some? then Some(remotePayload.value.identity) else None));
      complete := true;
    }
  }
}
