/**
 Over a carrier nothing below resends a lost handshake message (include/amp/link/MshAdpHandshake.h:44-52): the initiator
 sends its last one again, the responder answers the repeat by sending its reply again, and the initiator passes over a
 reply it already has (src/link/MshAdpHandshake.cpp:114-159, 190-369). So a lost reply does not stall the handshake.
 */
module HandshakeRepeats {
  import opened Words
  import opened Symbols
  import opened Handshake
  import opened HandshakeRun

  // ------------------------------------------------------------ one repeat

  /** A hello or payload the responder has just answered, again: the same reply goes out again, and nothing else happens. */
  lemma RepeatAnswered(r: HandshakeState, m: Msg)
    requires r.role.Responder? && !r.chunked && !r.complete && (m.kind == CLIENT_HELLO || m.kind == CLIENT_PAYLOAD)
    requires AfterMsg(r, m).sent.Some? && !AfterMsg(r, m).state.complete
    ensures var once := AfterMsg(r, m);
      AfterMsg(once.state, m) == Step(once.state, once.sent, true)
  {
    hide PayloadText, EncodeHello, DecodeHello, DecodePayload, PayloadVerifies, Decapsulated, FinishedMatches, LocalFinished;
  }

  /** Any number of times. */
  lemma {:induction false} RepeatsAnswered(r: HandshakeState, m: Msg, n: nat)
    requires r.role.Responder? && !r.chunked && !r.complete && (m.kind == CLIENT_HELLO || m.kind == CLIENT_PAYLOAD)
    requires AfterMsg(r, m).sent.Some? && !AfterMsg(r, m).state.complete
    ensures var once := AfterMsg(r, m);
      Heard(once.state, m, n).state == once.state && (n > 0 ==> Heard(once.state, m, n) == Step(once.state, once.sent, true))
  {
    hide AfterMsg;
    if n > 0 {
      RepeatsAnswered(r, m, n - 1);
      RepeatAnswered(r, m);
    }
  }

  /** The same message `n` times, and the last call's answer. */
  function Heard(s: HandshakeState, m: Msg, n: nat): Step {
    if n == 0 then Step(s, None, true) else AfterMsg(Heard(s, m, n - 1).state, m)
  }

  /** Over UDP the association resends, and a repeat is refused. */
  lemma RepeatOverUdp(r: HandshakeState, m: Msg)
    requires r.role.Responder? && r.chunked && !r.complete && r.started && m.kind == CLIENT_HELLO
    ensures AfterMsg(r, m) == Step(r.(answered := Some(m)), None, false)
  {
  }

  /** The initiator takes a reply it already has for what it is: no error, no answer, no change. */
  lemma RepeatPassedOver(i: HandshakeState, m: Msg)
    requires i.role.Initiator? && !i.chunked && !i.complete
    requires (m.kind == SERVER_HELLO && i.remoteHello.Some?) || (m.kind == SERVER_PAYLOAD && i.remotePayload.Some?)
    ensures AfterMsg(i, m) == Step(i, None, true)
  {
  }

  // ------------------------------------------------------------ transmissions, each of which arrives once or never

  datatype Flight = Flight(from: End, m: Msg)
  datatype Air = Air(i: HandshakeState, r: HandshakeState, out: seq<Flight>)

  /** `Arrives(k)`: the k-th transmission reaches the other end. */
  datatype Event = Begins | InitiatorResends | Arrives(k: nat)

  function Out(from: End, sent: Option<Msg>): seq<Flight> {
    if sent.Some? then [Flight(from, sent.value)] else []
  }

  function After(a: Air, e: Event): Air {
    match e
    case Begins => var step := AfterStart(a.i); a.(i := step.state, out := a.out + Out(Initiator, step.sent))
    case InitiatorResends => a.(out := a.out + Out(Initiator, AfterResend(a.i).sent))
    case Arrives(k) =>
      if k >= |a.out| then a
      else if a.out[k].from.Initiator? then
        var step := AfterMsg(a.r, a.out[k].m);
        a.(r := step.state, out := a.out + Out(Responder, step.sent))
      else
        var step := AfterMsg(a.i, a.out[k].m);
        a.(i := step.state, out := a.out + Out(Initiator, step.sent))
  }

  function Flown(events: seq<Event>): Air {
    if events == [] then Air(NewHandshake(Initiator, false), NewHandshake(Responder, false), [])
    else After(Flown(events[..|events| - 1]), events[|events| - 1])
  }

  /** No transmission arrives twice, and the k-th is lost. */
  predicate OnceAtMost(events: seq<Event>, lost: nat) {
    && (forall i, j :: 0 <= i < j < |events| && events[i].Arrives? ==> events[i] != events[j])
    && Arrives(lost) !in events
  }

  lemma Fly(events: seq<Event>, e: Event)
    ensures Flown(events + [e]) == After(Flown(events), e)
  {
    assert (events + [e])[..|events|] == events;
  }

  lemma ToResponderArrives(a: Air, k: nat, m: Msg)
    requires k < |a.out| && a.out[k] == Flight(Initiator, m)
    ensures var step, b := AfterMsg(a.r, m), After(a, Arrives(k));
      b.r == step.state && b.i == a.i && b.out == a.out + Out(Responder, step.sent)
  {
    hide AfterMsg;
  }

  lemma ToInitiatorArrives(a: Air, k: nat, m: Msg)
    requires k < |a.out| && a.out[k] == Flight(Responder, m)
    ensures var step, b := AfterMsg(a.i, m), After(a, Arrives(k));
      b.i == step.state && b.r == a.r && b.out == a.out + Out(Initiator, step.sent)
  {
    hide AfterMsg;
  }

  lemma AgainFromInitiator(a: Air, m: Msg)
    requires a.i.lastSent == Some(m)
    ensures var b := After(a, InitiatorResends); b.i == a.i && b.r == a.r && b.out == a.out + [Flight(Initiator, m)]
  {
  }

  /** The messages of a handshake, in the order they are first said. */
  function Said(n: nat): Msg
    requires n < 6
  {
    var f1 := LocalFinished(MASTER, FourTexts());
    if n == 0 then Msg(CLIENT_HELLO, HelloOf(Initiator))
    else if n == 1 then Msg(SERVER_HELLO, HelloOf(Responder))
    else if n == 2 then Msg(CLIENT_PAYLOAD, PayloadOf(Initiator, Responder))
    else if n == 3 then Msg(SERVER_PAYLOAD, PayloadOf(Responder, Initiator))
    else if n == 4 then f1
    else LocalFinished(MASTER, FourTexts() + [f1.body])
  }

  /** What each end is like after it heard the first `n` messages meant for it. */
  function IAt(n: nat): HandshakeState
    requires n <= 3
  {
    if n == 0 then AfterStart(NewHandshake(Initiator, false)).state else AfterMsg(IAt(n - 1), Said(2 * n - 1)).state
  }

  function RAt(n: nat): HandshakeState
    requires n <= 3
  {
    if n == 0 then NewHandshake(Responder, false) else AfterMsg(RAt(n - 1), Said(2 * n - 2)).state
  }

  /** Each message heard draws the next; what was said last can be said again; and the responder is still at it until Finished. */
  lemma Dialogue()
    ensures AfterStart(NewHandshake(Initiator, false)).sent == Some(Said(0))
    ensures forall n :: 0 <= n < 3 ==> AfterMsg(RAt(n), Said(2 * n)).sent == Some(Said(2 * n + 1))
    ensures forall n :: 0 <= n < 2 ==> AfterMsg(IAt(n), Said(2 * n + 1)).sent == Some(Said(2 * n + 2))
    ensures IAt(3).established.Some? && IAt(3).established.value.remoteIdentity == Some(IdentityText(Responder))
    ensures RAt(3).established.Some? && RAt(3).established.value.remoteIdentity == Some(IdentityText(Initiator))
  {
    InitiatorRuns(false);
    ResponderRuns(false);
    hide AfterMsg, AfterStart, HelloOf, PayloadOf, LocalFinished, IdentityText, NewHandshake, FourTexts;
    assert RAt(1) == AfterMsg(RAt(0), Said(0)).state && RAt(2) == AfterMsg(RAt(1), Said(2)).state && RAt(3) == AfterMsg(RAt(2), Said(4)).state;
    assert IAt(1) == AfterMsg(IAt(0), Said(1)).state && IAt(2) == AfterMsg(IAt(1), Said(3)).state && IAt(3) == AfterMsg(IAt(2), Said(5)).state;
  }

  /** What an initiator over a carrier said last, it can say again. */
  lemma SaysAgain(i: HandshakeState, m: Msg)
    requires i.role.Initiator? && !i.chunked && AfterMsg(i, m).sent.Some?
    ensures AfterMsg(i, m).state.lastSent == AfterMsg(i, m).sent
  {
    hide PayloadText, EncodeHello, DecodeHello, DecodePayload, PayloadVerifies, Decapsulated, FinishedMatches, LocalFinished;
  }

  lemma SaysHelloAgain()
    ensures IAt(0).lastSent == AfterStart(NewHandshake(Initiator, false)).sent
  {
    hide EncodeHello;
  }

  lemma {:induction false} Roles(n: nat)
    requires n <= 3
    ensures IAt(n).role.Initiator? && !IAt(n).chunked && RAt(n).role.Responder? && !RAt(n).chunked
  {
    hide AfterMsg, Said;
    if n > 0 {
      Roles(n - 1);
      RolesStay(IAt(n - 1), Said(2 * n - 1));
      RolesStay(RAt(n - 1), Said(2 * n - 2));
    } else {
      StartKeepsRole();
    }
  }

  lemma StartKeepsRole()
    ensures var i := AfterStart(NewHandshake(Initiator, false)).state; i.role.Initiator? && !i.chunked
  {
    hide EncodeHello;
  }

  lemma RolesStay(s: HandshakeState, m: Msg)
    ensures AfterMsg(s, m).state.role == s.role && AfterMsg(s, m).state.chunked == s.chunked
    ensures s.complete ==> AfterMsg(s, m).sent == None
  {
    hide PayloadText, EncodeHello, DecodeHello, DecodePayload, PayloadVerifies, Decapsulated, FinishedMatches, LocalFinished;
  }

  /** Until its Finished the responder is not done: it still answers. */
  lemma StillAnswers()
    ensures forall n :: 0 <= n < 3 ==> !RAt(n).complete
  {
    Dialogue();
    RolesStay(RAt(0), Said(0));
    RolesStay(RAt(1), Said(2));
    RolesStay(RAt(2), Said(4));
    hide AfterMsg, Said, RAt, IAt;
    assert AfterMsg(RAt(0), Said(2 * 0)).sent == Some(Said(2 * 0 + 1));
    assert AfterMsg(RAt(1), Said(2 * 1)).sent == Some(Said(2 * 1 + 1));
    assert AfterMsg(RAt(2), Said(2 * 2)).sent == Some(Said(2 * 2 + 1));
  }

  // ------------------------------------------------------------ a lost reply

  /** A stretch of the dialogue without loss: from the state where message `n` is the k-th transmission, to where the next is the last one. */
  lemma OneOn(events: seq<Event>, n: nat, k: nat)
    requires n < 5
    requires var a := Flown(events);
      && k < |a.out| && a.i == IAt(n / 2) && a.r == RAt((n + 1) / 2)
      && a.out[k] == Flight(if n % 2 == 0 then Initiator else Responder, Said(n))
    ensures var a, b := Flown(events), Flown(events + [Arrives(k)]);
      && b.i == IAt((n + 1) / 2) && b.r == RAt((n + 2) / 2)
      && b.out == a.out + [Flight(if n % 2 == 0 then Responder else Initiator, Said(n + 1))]
  {
    Dialogue();
    hide AfterMsg, Said, After, Flown;
    Fly(events, Arrives(k));
    var a := Flown(events);
    if n % 2 == 0 {
      ToResponderArrives(a, k, Said(n));
      assert n == 2 * (n / 2);
      assert AfterMsg(RAt(n / 2), Said(2 * (n / 2))).sent == Some(Said(2 * (n / 2) + 1));
    } else {
      ToInitiatorArrives(a, k, Said(n));
      assert n == 2 * (n / 2) + 1;
      assert AfterMsg(IAt(n / 2), Said(2 * (n / 2) + 1)).sent == Some(Said(2 * (n / 2) + 2));
    }
  }

  /** The request again, and the reply again: reply `n` went out as the last transmission, and goes out once more. */
  lemma AskedAgain(events: seq<Event>, n: nat)
    requires n == 1 || n == 3
    requires var a := Flown(events);
      a.i == IAt(n / 2) && a.r == RAt((n + 1) / 2)
    ensures var a, b := Flown(events), Flown(events + [InitiatorResends] + [Arrives(|Flown(events).out|)]);
      && b.i == a.i && b.r == a.r
      && b.out == a.out + [Flight(Initiator, Said(n - 1))] + [Flight(Responder, Said(n))]
  {
    Dialogue();
    Roles(0);
    Roles(n / 2);
    StillAnswers();
    SaysHelloAgain();
    SaysAgain(IAt(0), Said(1));
    RepeatAnswered(RAt(n / 2), Said(n - 1));
    hide AfterMsg, After, Flown, AfterStart;
    var a := Flown(events);
    assert AfterMsg(RAt(n / 2), Said(2 * (n / 2))).sent == Some(Said(2 * (n / 2) + 1));
    assert AfterMsg(IAt(0), Said(2 * 0 + 1)).sent == Some(Said(2 * 0 + 2));
    Fly(events, InitiatorResends);
    AgainFromInitiator(a, Said(n - 1));
    var b := Flown(events + [InitiatorResends]);
    Fly(events + [InitiatorResends], Arrives(|a.out|));
    ToResponderArrives(b, |a.out|, Said(n - 1));
  }

  /** From reply `n` as the k-th transmission, everything else arriving once: both ends establish. */
  lemma {:induction false} Onwards(events: seq<Event>, n: nat, k: nat) returns (all: seq<Event>)
    requires n <= 5
    requires var a := Flown(events);
      && k + 1 == |a.out| && a.i == IAt(n / 2) && a.r == RAt((n + 1) / 2)
      && a.out[k] == Flight(if n % 2 == 0 then Initiator else Responder, Said(n))
    ensures |events| <= |all| && all[..|events|] == events
    ensures forall i :: |events| <= i < |all| ==> all[i] == Arrives(k + i - |events|)
    ensures Flown(all).i == IAt(3) && Flown(all).r == RAt(3)
    decreases 5 - n
  {
    hide AfterMsg, Said, After, Flown, IAt, RAt;
    if n < 5 {
      OneOn(events, n, k);
      all := Onwards(events + [Arrives(k)], n + 1, k + 1);
      assert all[|events|] == (events + [Arrives(k)])[|events|];
      assert all[..|events|] == (events + [Arrives(k)])[..|events|];
    } else {
      LastArrives(events, k);
      all := events + [Arrives(k)];
    }
  }

  lemma LastArrives(events: seq<Event>, k: nat)
    requires var a := Flown(events);
      k < |a.out| && a.i == IAt(2) && a.r == RAt(3) && a.out[k] == Flight(Responder, Said(5))
    ensures Flown(events + [Arrives(k)]).i == IAt(3) && Flown(events + [Arrives(k)]).r == RAt(3)
  {
    hide AfterMsg, Said, After, Flown;
    Fly(events, Arrives(k));
    ToInitiatorArrives(Flown(events), k, Said(5));
    assert IAt(3) == AfterMsg(IAt(2), Said(5)).state;
  }

  lemma TheStart()
    ensures Flown([Begins]) == Air(IAt(0), RAt(0), [Flight(Initiator, Said(0))])
  {
    Dialogue();
    hide AfterMsg, Said;
    assert Flown([Begins][..0]) == Air(NewHandshake(Initiator, false), NewHandshake(Responder, false), []);
    assert [] + [Flight(Initiator, Said(0))] == [Flight(Initiator, Said(0))];
  }

  /**
   Either reply of the responder before its Finished may be lost: its first transmission never arrives, no transmission
   arrives twice, the initiator sends its request once more, and both ends establish, each under the other's identity.
   */
  lemma LostReplyRecovered(n: nat) returns (events: seq<Event>)
    requires n == 1 || n == 3
    ensures OnceAtMost(events, n) && n < |Flown(events).out| && Flown(events).out[n] == Flight(Responder, Said(n))
    ensures var a := Flown(events);
      && a.i.established.Some? && a.i.established.value.remoteIdentity == Some(IdentityText(Responder))
      && a.r.established.Some? && a.r.established.value.remoteIdentity == Some(IdentityText(Initiator))
  {
    Dialogue();
    TheStart();
    hide AfterMsg, Said, After, Flown, IAt, RAt;
    var before := [Begins];
    OneOn(before, 0, 0);
    before := before + [Arrives(0)];
    if n == 3 {
      OneOn(before, 1, 1);
      before := before + [Arrives(1)];
      OneOn(before, 2, 2);
      before := before + [Arrives(2)];
    }
    AskedAgain(before, n);
    var asked := before + [InitiatorResends] + [Arrives(n + 1)];
    assert Flown(before).out[n] == Flight(Responder, Said(n)) && |Flown(before).out| == n + 1;
    events := Onwards(asked, n, n + 2);
    StillThere(asked, events, n);
    forall i, j | 0 <= i < j < |events| && events[i].Arrives?
      ensures events[i] != events[j]
    {
      if i < |asked| { assert events[i] == asked[i]; }
      if j < |asked| { assert events[j] == asked[j]; }
    }
    forall i | 0 <= i < |events|
      ensures events[i] != Arrives(n)
    {
      if i < |asked| { assert events[i] == asked[i]; }
    }
  }

  /** What went out stays on record. */
  lemma {:induction false} StillThere(events: seq<Event>, more: seq<Event>, n: nat)
    requires |events| <= |more| && more[..|events|] == events && n < |Flown(events).out|
    ensures n < |Flown(more).out| && Flown(more).out[n] == Flown(events).out[n]
    decreases |more|
  {
    if |events| < |more| {
      var front := more[..|more| - 1];
      assert front[..|events|] == events;
      StillThere(events, front, n);
      OutGrows(Flown(front), more[|more| - 1]);
      hide After;
    } else {
      assert more == events;
    }
  }

  lemma OutGrows(a: Air, e: Event)
    ensures a.out <= After(a, e).out
  {
    hide AfterMsg, AfterStart;
  }
}
