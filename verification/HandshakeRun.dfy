/**
 The handshake does complete: with every message delivered once and in order, both
 ends establish, each under the other's identity.
 */
module HandshakeRun {
  import opened Words
  import opened Symbols
  import opened Handshake
  import opened HandshakeAgreement

  function HelloOf(e: End): Text {
    EncodeHello(if e.Initiator? then CLIENT_HELLO else SERVER_HELLO, Hello(KeyText(e), NonceText(e)))
  }

  function PayloadFor(e: End, other: End): Payload {
    Payload(CipherText(e, 0, KeyText(other)), IdentityText(e), KeyText(e), SignatureText(e, KeyText(e)))
  }

  function PayloadOf(e: End, other: End): Text {
    EncodePayload(if e.Initiator? then CLIENT_PAYLOAD else SERVER_PAYLOAD, PayloadFor(e, other))
  }

  const MASTER := Master(Made(Initiator, 0, KeyText(Responder)), Made(Responder, 0, KeyText(Initiator)))

  function FourTexts(): seq<Text> {
    [HelloOf(Initiator), HelloOf(Responder), PayloadOf(Initiator, Responder), PayloadOf(Responder, Initiator)]
  }

  lemma HelloReads(e: End)
    ensures DecodeHello(if e.Initiator? then CLIENT_HELLO else SERVER_HELLO, HelloOf(e)) == Some(Hello(KeyText(e), NonceText(e)))
  {
    HelloRoundTrip(if e.Initiator? then CLIENT_HELLO else SERVER_HELLO, Hello(KeyText(e), NonceText(e)));
  }

  lemma PayloadReads(e: End, other: End)
    requires e != other
    ensures DecodePayload(if e.Initiator? then CLIENT_PAYLOAD else SERVER_PAYLOAD, PayloadOf(e, other)) == Some(PayloadFor(e, other))
    ensures PayloadVerifies(PayloadFor(e, other))
    ensures Decapsulated(other, PayloadFor(e, other).cipher) == Made(e, 0, KeyText(other))
  {
    PayloadRoundTrip(if e.Initiator? then CLIENT_PAYLOAD else SERVER_PAYLOAD, PayloadFor(e, other));
    DecapsulatedMade(e, 0, other);
    IdentitiesDiffer();
  }

  lemma MacReads(transcript: seq<Text>)
    ensures FinishedMatches(MASTER, transcript, LocalFinished(MASTER, transcript).body)
  {
    FinishedRoundTrip(MacText(MASTER, Concat(transcript)));
  }

  /** The responder's side, message by message. */
  lemma ResponderRuns(chunked: bool)
    ensures var r0 := NewHandshake(Responder, chunked);
      var s1 := AfterMsg(r0, Msg(CLIENT_HELLO, HelloOf(Initiator)));
      var s2 := AfterMsg(s1.state, Msg(CLIENT_PAYLOAD, PayloadOf(Initiator, Responder)));
      var s3 := AfterMsg(s2.state, LocalFinished(MASTER, FourTexts()));
      && s1.sent == Some(Msg(SERVER_HELLO, HelloOf(Responder)))
      && s2.sent == Some(Msg(SERVER_PAYLOAD, PayloadOf(Responder, Initiator)))
      && s3.sent == Some(LocalFinished(MASTER, FourTexts() + [LocalFinished(MASTER, FourTexts()).body]))
      && s3.state.established.Some? && s3.state.established.value.remoteIdentity == Some(IdentityText(Initiator))
  {
    HelloReads(Initiator);
    PayloadReads(Initiator, Responder);
    MacReads(FourTexts());
    hide EncodeHello, DecodeHello, EncodePayload, DecodePayload, PayloadVerifies, FinishedMatches, LocalFinished, Decapsulated, KeyText, NonceText, CipherText, IdentityText, SignatureText;
    var s1 := AfterMsg(NewHandshake(Responder, chunked), Msg(CLIENT_HELLO, HelloOf(Initiator)));
    assert s1.state.transcript == [HelloOf(Initiator), HelloOf(Responder)];
    var s2 := AfterMsg(s1.state, Msg(CLIENT_PAYLOAD, PayloadOf(Initiator, Responder)));
    assert s2.state.transcript == FourTexts();
  }

  /** The initiator's side. */
  lemma InitiatorRuns(chunked: bool)
    ensures var s0 := AfterStart(NewHandshake(Initiator, chunked));
      var s1 := AfterMsg(s0.state, Msg(SERVER_HELLO, HelloOf(Responder)));
      var s2 := AfterMsg(s1.state, Msg(SERVER_PAYLOAD, PayloadOf(Responder, Initiator)));
      var s3 := AfterMsg(s2.state, LocalFinished(MASTER, FourTexts() + [LocalFinished(MASTER, FourTexts()).body]));
      && s0.sent == Some(Msg(CLIENT_HELLO, HelloOf(Initiator)))
      && s1.sent == Some(Msg(CLIENT_PAYLOAD, PayloadOf(Initiator, Responder)))
      && s2.sent == Some(LocalFinished(MASTER, FourTexts()))
      && s3.state.established.Some? && s3.state.established.value.remoteIdentity == Some(IdentityText(Responder))
  {
    HelloReads(Responder);
    PayloadReads(Responder, Initiator);
    MacReads(FourTexts() + [LocalFinished(MASTER, FourTexts()).body]);
    FinishedKind(FourTexts() + [LocalFinished(MASTER, FourTexts()).body]);
    FinishedKind(FourTexts());
    hide EncodeHello, DecodeHello, EncodePayload, DecodePayload, PayloadVerifies, FinishedMatches, LocalFinished, Decapsulated, KeyText, NonceText, CipherText, IdentityText, SignatureText;
    var s0 := AfterStart(NewHandshake(Initiator, chunked));
    assert s0.state.transcript == [HelloOf(Initiator)];
    var s1 := AfterMsg(s0.state, Msg(SERVER_HELLO, HelloOf(Responder)));
    assert s1.state.transcript == FourTexts()[..3];
    var s2 := AfterMsg(s1.state, Msg(SERVER_PAYLOAD, PayloadOf(Responder, Initiator)));
    assert FourTexts()[..3] + [PayloadOf(Responder, Initiator)] == FourTexts();
    assert s2.state.transcript == FourTexts() + [LocalFinished(MASTER, FourTexts()).body];
  }

  lemma FinishedKind(transcript: seq<Text>)
    ensures LocalFinished(MASTER, transcript).kind == FINISHED
  {
  }

  /** One more delivery of something sent. */
  lemma Deliver(chunkedI: bool, chunkedR: bool, acts: seq<Act>, act: Act)
    requires AllFaithful(chunkedI, chunkedR, acts) && Faithful(Ran(chunkedI, chunkedR, acts), act)
    ensures AllFaithful(chunkedI, chunkedR, acts + [act])
    ensures Ran(chunkedI, chunkedR, acts + [act]) == Next(Ran(chunkedI, chunkedR, acts), act)
  {
    assert (acts + [act])[..|acts|] == acts;
  }

  /** One more delivery of the k-th message said. */
  lemma DeliverSaid(chunkedI: bool, chunkedR: bool, acts: seq<Act>, said: seq<Msg>, n: nat, act: Act)
    requires AllFaithful(chunkedI, chunkedR, acts) && n < |said| && Ran(chunkedI, chunkedR, acts).sent == said[..n + 1]
    requires act == ToInitiator(said[n]) || act == ToResponder(said[n])
    ensures AllFaithful(chunkedI, chunkedR, acts + [act])
    ensures Ran(chunkedI, chunkedR, acts + [act]) == Next(Ran(chunkedI, chunkedR, acts), act)
  {
    hide Ran, AllFaithful;
    assert said[..n + 1][n].body == act.m.body;
    Deliver(chunkedI, chunkedR, acts, act);
  }

  /** It answers with the next message said. */
  lemma Said(p: Pair, said: seq<Msg>, n: nat, act: Act)
    requires n < |said| && p.sent == said[..n] && !act.Begin?
    requires (if act.ToResponder? then AfterMsg(p.r, act.m) else AfterMsg(p.i, act.m)).sent == Some(said[n])
    ensures Next(p, act).sent == said[..n + 1]
  {
    hide AfterMsg;
  }

  /** Whose state a delivery moves. */
  lemma Moves(p: Pair, m: Msg)
    ensures Next(p, ToResponder(m)).r == AfterMsg(p.r, m).state && Next(p, ToResponder(m)).i == p.i
    ensures Next(p, ToInitiator(m)).i == AfterMsg(p.i, m).state && Next(p, ToInitiator(m)).r == p.r
  {
    hide AfterMsg;
  }

  /** A delivery of the last message said, and the answer to it. */
  lemma Exchange(chunkedI: bool, chunkedR: bool, acts: seq<Act>, said: seq<Msg>, n: nat, act: Act)
    requires AllFaithful(chunkedI, chunkedR, acts) && n + 1 < |said| && Ran(chunkedI, chunkedR, acts).sent == said[..n + 1]
    requires act == ToInitiator(said[n]) || act == ToResponder(said[n])
    requires var p := Ran(chunkedI, chunkedR, acts);
      (if act.ToResponder? then AfterMsg(p.r, act.m) else AfterMsg(p.i, act.m)).sent == Some(said[n + 1])
    ensures AllFaithful(chunkedI, chunkedR, acts + [act])
    ensures var p, q := Ran(chunkedI, chunkedR, acts), Ran(chunkedI, chunkedR, acts + [act]);
      && q.sent == said[..n + 2]
      && q.r == (if act.ToResponder? then AfterMsg(p.r, act.m).state else p.r)
      && q.i == (if act.ToInitiator? then AfterMsg(p.i, act.m).state else p.i)
  {
    hide Ran, AllFaithful, AfterMsg, Next;
    DeliverSaid(chunkedI, chunkedR, acts, said, n, act);
    Said(Ran(chunkedI, chunkedR, acts), said, n + 1, act);
    Moves(Ran(chunkedI, chunkedR, acts), act.m);
  }

  lemma Opening(chunkedI: bool, chunkedR: bool)
    ensures AllFaithful(chunkedI, chunkedR, [Begin])
    ensures var p := Ran(chunkedI, chunkedR, [Begin]);
      && p.i == AfterStart(NewHandshake(Initiator, chunkedI)).state && p.r == NewHandshake(Responder, chunkedR)
      && p.sent == [Msg(CLIENT_HELLO, HelloOf(Initiator))]
  {
    InitiatorRuns(chunkedI);
    assert [Begin][..0] == [];
    assert Ran(chunkedI, chunkedR, []) == NewPair(chunkedI, chunkedR);
  }

  /** Some run on a lossy network establishes both ends, each under the other's identity. */
  lemma BothCanComplete(chunkedI: bool, chunkedR: bool) returns (acts: seq<Act>)
    ensures AllFaithful(chunkedI, chunkedR, acts)
    ensures var p := Ran(chunkedI, chunkedR, acts);
      && p.i.established.Some? && p.i.established.value.remoteIdentity == Some(IdentityText(Responder))
      && p.r.established.Some? && p.r.established.value.remoteIdentity == Some(IdentityText(Initiator))
  {
    InitiatorRuns(chunkedI);
    ResponderRuns(chunkedR);
    Opening(chunkedI, chunkedR);
    hide AfterMsg, AfterStart, HelloOf, PayloadOf, LocalFinished, IdentityText, AllFaithful, Ran, FourTexts, NewHandshake, Next;
    var f1 := LocalFinished(MASTER, FourTexts());
    var f2 := LocalFinished(MASTER, FourTexts() + [f1.body]);
    var said := [Msg(CLIENT_HELLO, HelloOf(Initiator)), Msg(SERVER_HELLO, HelloOf(Responder)),
                 Msg(CLIENT_PAYLOAD, PayloadOf(Initiator, Responder)), Msg(SERVER_PAYLOAD, PayloadOf(Responder, Initiator)), f1, f2];
    acts := [Begin];
    assert said[..1] == [said[0]];
    Exchange(chunkedI, chunkedR, acts, said, 0, ToResponder(said[0]));
    acts := acts + [ToResponder(said[0])];
    Exchange(chunkedI, chunkedR, acts, said, 1, ToInitiator(said[1]));
    acts := acts + [ToInitiator(said[1])];
    Exchange(chunkedI, chunkedR, acts, said, 2, ToResponder(said[2]));
    acts := acts + [ToResponder(said[2])];
    Exchange(chunkedI, chunkedR, acts, said, 3, ToInitiator(said[3]));
    acts := acts + [ToInitiator(said[3])];
    Exchange(chunkedI, chunkedR, acts, said, 4, ToResponder(said[4]));
    acts := acts + [ToResponder(said[4])];
    DeliverSaid(chunkedI, chunkedR, acts, said, 5, ToInitiator(said[5]));
    Moves(Ran(chunkedI, chunkedR, acts), said[5]);
    acts := acts + [ToInitiator(said[5])];
  }
}
