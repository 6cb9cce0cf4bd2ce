/**
 What each message of the handshake must be, by its bytes, and what becomes of an end that gets another
 (src/link/MshAdpHandshake.cpp:161-402; src/L2/MshMessages.cpp). An end that fails is over: it says nothing more and
 establishes nothing.
 */
module HandshakeEnds {
  import opened Words
  import opened Symbols
  import opened Handshake

  /** A hello: its type, version 1, a key, a nonce. */
  predicate IsHello(kind: uint8, t: Text) {
    |t| == 1218 && t[0] == Plain(kind) && t[1] == Plain(1)
  }

  /** A payload from whoever owns `key`: its type, a ciphertext, an identity, that same key, and the identity's signature of it. */
  predicate IsPayload(kind: uint8, t: Text, key: Text) {
    && |t| == 7534 && t[0] == Plain(kind)
    && t[3041..4225] == key && Verifies(t[1089..3041], t[3041..4225], t[4225..])
  }

  predicate IsFinished(t: Text, master: Master, transcript: seq<Text>) {
    t == [Plain(5)] + MacText(master, Concat(transcript))
  }

  lemma HelloTaken(kind: uint8, t: Text)
    ensures DecodeHello(kind, t).Some? <==> IsHello(kind, t)
    ensures IsHello(kind, t) ==> DecodeHello(kind, t) == Some(Hello(t[2..1186], t[1186..]))
  {
  }

  lemma PayloadTaken(kind: uint8, t: Text, key: Text)
    ensures var p := DecodePayload(kind, t);
      && (p.Some? && PayloadVerifies(p.value) && p.value.staticKey == key <==> IsPayload(kind, t, key))
      && (p.Some? ==> |t| == 7534 && p == Some(Payload(t[1..1089], t[1089..3041], t[3041..4225], t[4225..])))
  {
    hide Verifies;
  }

  lemma FinishedTaken(t: Text, master: Master, transcript: seq<Text>)
    ensures FinishedMatches(master, transcript, t) <==> IsFinished(t, master, transcript)
  {
    hide Concat;
    if |t| == 33 && t[0] == Plain(5) { assert t == [Plain(5)] + t[1..]; }
    var mac := MacText(master, Concat(transcript));
    assert ([Plain(5)] + mac)[1..] == mac && |mac| == 32;
  }

  /** Over: nothing is sent, nothing was established, and the call fails. */
  predicate Ended(s: HandshakeState, step: Step) {
    step.state.complete && !step.ok && step.sent.None? && step.state.established == s.established
  }

  /** A message out of its turn is refused, with nothing sent and nothing changed, but that a responder then takes it for the hello or payload it last answered. */
  predicate Untouched(s: HandshakeState, m: Msg, step: Step) {
    step == Step(if s.role.Responder? && (m.kind == 1 || m.kind == 3) then s.(answered := Some(m)) else s, None, false)
  }

  /** Both words join the transcript: what came, and what goes out for it. */
  predicate Answered(s: HandshakeState, m: Msg, step: Step, kind: uint8) {
    step.ok && step.sent.Some? && step.sent.value.kind == kind && step.state.transcript == s.transcript + [m.body, step.sent.value.body]
  }

  // ------------------------------------------------------------ after the end

  /** Once complete, whether it succeeded or failed, an end refuses everything and stays as it is. */
  lemma OverForGood(s: HandshakeState, m: Msg)
    requires s.complete
    ensures AfterMsg(s, m) == Step(s, None, false)
  {
  }

  // ------------------------------------------------------------ the responder

  /** A client hello, when it has had none: answered by a server hello, or the end. */
  lemma ClientHelloComes(s: HandshakeState, m: Msg)
    requires s.role.Responder? && !s.complete && (s.chunked || s.answered != Some(m)) && m.kind == 1
    ensures var step := AfterMsg(s, m);
      if s.started then Untouched(s, m, step)
      else if IsHello(1, m.body) then
        && Answered(s, m, step, 2) && step.state.remoteHello == Some(Hello(m.body[2..1186], m.body[1186..])) && !step.state.complete
        && step.sent.value.body == EncodeHello(2, Hello(KeyText(Responder), NonceText(Responder)))
      else Ended(s, step)
  {
    hide EncodeHello, DecodeHello;
    HelloTaken(1, m.body);
  }

  /** A client payload, once there was a hello: under the hello's own key it is answered by a payload, and the master secret is the client's secret and its own; else the end. */
  lemma ClientPayloadComes(s: HandshakeState, m: Msg)
    requires s.role.Responder? && !s.complete && (s.chunked || s.answered != Some(m)) && m.kind == 3
    ensures var step := AfterMsg(s, m);
      if s.remoteHello.None? then Untouched(s, m, step)
      else if IsPayload(3, m.body, s.remoteHello.value.kemKey) then
        && Answered(s, m, step, 4) && !step.state.complete && step.state.encapsulations == s.encapsulations + 1
        && step.state.remotePayload == Some(Payload(m.body[1..1089], m.body[1089..3041], m.body[3041..4225], m.body[4225..]))
        && step.state.master == Some(Master(Decapsulated(Responder, m.body[1..1089]), Made(Responder, s.encapsulations, s.remoteHello.value.kemKey)))
      else Ended(s, step)
  {
    hide PayloadText, DecodePayload, PayloadVerifies, IsPayload, Decapsulated;
    if s.remoteHello.Some? { PayloadTaken(3, m.body, s.remoteHello.value.kemKey); }
  }

  /** The client's Finished, once there is a master secret: over the transcript so far it is answered by one over one part more, and six parts complete it; else the end. */
  lemma ClientFinishedComes(s: HandshakeState, m: Msg)
    requires s.role.Responder? && !s.complete && (s.chunked || s.answered != Some(m)) && m.kind == 5
    ensures var step := AfterMsg(s, m);
      if s.master.None? then Untouched(s, m, step)
      else if IsFinished(m.body, s.master.value, s.transcript) then
        && Answered(s, m, step, 5) && IsFinished(step.sent.value.body, s.master.value, s.transcript + [m.body])
        && (step.state.complete <==> |s.transcript| >= 4)
        && (step.state.complete ==> Establishes(s, step.state))
      else Ended(s, step)
  {
    hide Concat, MacText, FinishedMatches, IsFinished;
    if s.master.Some? {
      FinishedTaken(m.body, s.master.value, s.transcript);
      var transcript := s.transcript + [m.body];
      FinishedSent(s.master.value, transcript);
      assert transcript + [LocalFinished(s.master.value, transcript).body] == s.transcript + [m.body, LocalFinished(s.master.value, transcript).body];
    }
  }

  lemma FinishedSent(master: Master, transcript: seq<Text>)
    ensures IsFinished(LocalFinished(master, transcript).body, master, transcript)
  {
  }

  /** What completion hands over: the master secret, every part, and who the other end showed itself to be. */
  predicate Establishes(s: HandshakeState, t: HandshakeState) {
    && t.established.Some? && s.master.Some?
    && t.established.value.master == s.master.value && t.established.value.transcript == t.transcript
    && t.established.value.remoteIdentity == if s.remotePayload.None? then None else Some(s.remotePayload.value.identity)
  }

  // ------------------------------------------------------------ the initiator

  lemma ServerHelloComes(s: HandshakeState, m: Msg)
    requires s.role.Initiator? && !s.complete && m.kind == 2
    ensures var step := AfterMsg(s, m);
      if s.remoteHello.Some? then step == Step(s, None, !s.chunked)
      else if !s.started then Untouched(s, m, step)
      else if IsHello(2, m.body) then
        && Answered(s, m, step, 3) && step.state.remoteHello == Some(Hello(m.body[2..1186], m.body[1186..])) && !step.state.complete
        && step.state.clientSecret == Some(Made(Initiator, s.encapsulations, m.body[2..1186])) && step.state.encapsulations == s.encapsulations + 1
      else Ended(s, step)
  {
    hide PayloadText, DecodeHello;
    HelloTaken(2, m.body);
  }

  lemma ServerPayloadComes(s: HandshakeState, m: Msg)
    requires s.role.Initiator? && !s.complete && m.kind == 4
    ensures var step := AfterMsg(s, m);
      if s.remotePayload.Some? && !s.chunked then step == Step(s, None, true)
      else if s.remoteHello.None? || s.clientSecret.None? then Untouched(s, m, step)
      else if IsPayload(4, m.body, s.remoteHello.value.kemKey) then
        && Answered(s, m, step, 5) && !step.state.complete
        && step.state.master == Some(Master(s.clientSecret.value, Decapsulated(Initiator, m.body[1..1089])))
        && step.state.remotePayload == Some(Payload(m.body[1..1089], m.body[1089..3041], m.body[3041..4225], m.body[4225..]))
        && IsFinished(step.sent.value.body, step.state.master.value, s.transcript + [m.body])
      else Ended(s, step)
  {
    hide DecodePayload, PayloadVerifies, IsPayload, Decapsulated, IsFinished, MacText, Concat;
    if s.remoteHello.Some? && s.clientSecret.Some? {
      PayloadTaken(4, m.body, s.remoteHello.value.kemKey);
      if |m.body| == 7534 { FinishedSent(Master(s.clientSecret.value, Decapsulated(Initiator, m.body[1..1089])), s.transcript + [m.body]); }
    }
  }

  lemma ServerFinishedComes(s: HandshakeState, m: Msg)
    requires s.role.Initiator? && !s.complete && m.kind == 5
    ensures var step := AfterMsg(s, m);
      if s.master.None? then Untouched(s, m, step)
      else if IsFinished(m.body, s.master.value, s.transcript) then
        && step.ok && step.sent.None? && step.state.transcript == s.transcript + [m.body]
        && (step.state.complete <==> |s.transcript| >= 5)
        && (step.state.complete ==> Establishes(s, step.state))
      else Ended(s, step)
  {
    hide Concat, MacText, FinishedMatches, IsFinished;
    if s.master.Some? { FinishedTaken(m.body, s.master.value, s.transcript); }
  }

  /** Any other message is refused: an end hears the other's messages only. */
  lemma NotForThisEnd(s: HandshakeState, m: Msg)
    requires !s.complete && (s.chunked || s.answered != Some(m))
    requires if s.role.Responder? then m.kind !in {1, 3, 5} else m.kind !in {2, 4, 5}
    ensures Untouched(s, m, AfterMsg(s, m))
  {
  }

  // ------------------------------------------------------------ an end that failed, for good

  function After(s: HandshakeState, msgs: seq<Msg>): HandshakeState {
    if msgs == [] then s else AfterMsg(After(s, msgs[..|msgs| - 1]), msgs[|msgs| - 1]).state
  }

  /** After its first bad message an end never establishes anything, whatever it then hears. */
  lemma {:induction false} FailedForGood(s: HandshakeState, bad: Msg, msgs: seq<Msg>)
    requires Ended(s, AfterMsg(s, bad)) && s.established.None?
    ensures After(AfterMsg(s, bad).state, msgs) == AfterMsg(s, bad).state
    ensures After(AfterMsg(s, bad).state, msgs).established.None?
  {
    hide AfterMsg;
    if msgs != [] {
      FailedForGood(s, bad, msgs[..|msgs| - 1]);
      OverForGood(After(AfterMsg(s, bad).state, msgs[..|msgs| - 1]), msgs[|msgs| - 1]);
    }
  }
}
