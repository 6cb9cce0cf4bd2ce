/**
 Coordinated rekey (src/link/PeerLink.cpp:690-772) between two ends whose control messages
 are lost, duplicated, reordered and cross each other.

 SendData seals a control message and sends it at once when the window has room, under the
 epoch of that moment; else the message waits, or is refused when the queue is full. On a
 direct link whatever goes out later, a message that waited or a resend of the association,
 is sealed then, under the sender's epoch then.
 */
module Rekey {
  import opened Words
  import opened Session
  import opened SendQueue

  datatype Control = Request(target: uint32) | Ack(target: uint32)

  /** A sealed control packet: under which of its sender's epochs, and what it says. */
  datatype Packet = Packet(epoch: uint32, msg: Control)

  datatype End = End(session: SessionState, pending: bool, queued: set<Control>, out: set<Packet>)
  datatype System = System(x: End, y: End)

  /** `outcome`: what becomes of the message the end gives its mux, if it gives it one. */
  datatype Action =
    | AskRekey(outcome: Outcome)
    | Transmit(msg: Control)
    | Receive(packet: Packet, nowMs: int, outcome: Outcome)

  function FreshEnd(secret: Secret, initiator: bool): End {
    End(Established(secret, initiator), false, {}, {})
  }

  /** A control message is given to the mux. */
  function Given(e: End, msg: Control, outcome: Outcome): End {
    if outcome == Full then e
    else e.(queued := e.queued + {msg}, out := if outcome == Passed then e.out + {Packet(e.session.epoch, msg)} else e.out)
  }

  /** RequestSessionRekey: one request at a time, for the next epoch. */
  function AfterAsk(e: End, outcome: Outcome): End {
    if e.pending || outcome == Full then e
    else Given(e.(pending := true), Request(Add32(e.session.epoch, 1)), outcome)
  }

  /** HandleSessionControl: a message for any but the next epoch is ignored; a request is acked, then applied, come of the ack what may. */
  function AfterControl(e: End, msg: Control, nowMs: int, outcome: Outcome): End {
    if msg.target != Add32(e.session.epoch, 1) then e
    else
      match msg
      case Request(t) =>
        var acked := Given(e, Ack(t), outcome);
        acked.(session := AfterApply(e.session, t, nowMs).0)
      case Ack(t) => e.(session := AfterApply(e.session, t, nowMs).0, pending := false)
  }

  /** The link's side of it: fields that RequestSessionRekey and HandleSessionControl update. */
  class RekeyingLink {
    const session: AmpSession
    /** Connected, with a mux, and the capability channel open. */
    var connected: bool
    var controlOpen: bool
    var rekeyPending: bool
    /** The control messages given to the mux, and the packets they were sealed in so far. */
    var queued: set<Control>
    var out: set<Packet>

    ghost function State(): End
      reads this, session
    {
      End(session.State(), rekeyPending, queued, out)
    }

    constructor (session: AmpSession)
      ensures this.session == session && !connected && !controlOpen && !rekeyPending && queued == {} && out == {}
    {
      this.session := session;
      connected, controlOpen, rekeyPending, queued, out := false, false, false, {}, {};
    }

    /** SendData on the capability channel; `outcome` is the mux's answer. */
    method SendControl(msg: Control, outcome: Outcome)
      modifies this`queued, this`out
      ensures State() == Given(old(State()), msg, outcome)
    {
      if outcome == Full {
        return;
      }
      queued := queued + {msg};
      if outcome == Passed {
        out := out + {Packet(session.epoch, msg)};
      }
    }

    method RequestSessionRekey(outcome: Outcome) returns (ok: bool)
      modifies this`rekeyPending, this`queued, this`out
      ensures ok == (connected && controlOpen && !old(rekeyPending) && outcome != Full)
      ensures State() == if connected && controlOpen then AfterAsk(old(State()), outcome) else old(State())
    {
      if !connected {
        return false;
      }
      if rekeyPending {
        return false;
      }
      rekeyPending := true;
      var target := Add32(session.epoch, 1);
      if !controlOpen {
        rekeyPending := false;
        return false;
      }
      SendControl(Request(target), outcome);
      if outcome == Full {
        rekeyPending := false;
        return false;
      }
      return true;
    }

    /** An ack goes to the mux before the new keys are in use. */
    method HandleSessionControl(msg: Control, nowMs: int, outcome: Outcome)
      modifies this`rekeyPending, this`queued, this`out, session
      ensures State() == if connected then AfterControl(old(State()), msg, nowMs, outcome) else old(State())
    {
      if !connected {
        return;
      }
      var expected := Add32(session.epoch, 1);
      if msg.target != expected {
        return;
      }
      match msg {
        case Request(target) =>
          SendControl(Ack(target), outcome);
          var applied := session.ApplyRekey(target, nowMs);
        case Ack(target) =>
          var applied := session.ApplyRekey(target, nowMs);
          if applied {
            rekeyPending := false;
          }
      }
    }
  }

  predicate Opens(e: End, packet: Packet, nowMs: int) {
    packet.epoch == e.session.epoch || (Add32(packet.epoch, 1) == e.session.epoch && HasGrace(e.session, nowMs))
  }

  function Act(e: End, act: Action): End {
    match act
    case AskRekey(outcome) => AfterAsk(e, outcome)
    case Transmit(msg) => e.(out := e.out + {Packet(e.session.epoch, msg)})
    case Receive(packet, nowMs, outcome) => if Opens(e, packet, nowMs) then AfterControl(e, packet.msg, nowMs, outcome) else e
  }

  predicate Possible(e: End, peer: End, act: Action) {
    match act
    case AskRekey(_) => true
    case Transmit(msg) => msg in e.queued
    case Receive(packet, _, _) => packet in peer.out
  }

  ghost predicate Next(s: System, t: System) {
    exists act: Action ::
      || (Possible(s.x, s.y, act) && t == System(Act(s.x, act), s.y))
      || (Possible(s.y, s.x, act) && t == System(s.x, Act(s.y, act)))
  }

  /** Epochs are 32-bit: a run uses fewer than all of them. */
  predicate EpochsLast(s: System) {
    s.x.session.epoch < U32 - 1 && s.y.session.epoch < U32 - 1
  }

  ghost predicate Path(path: seq<System>) {
    && |path| > 0
    && (forall i :: 0 <= i < |path| ==> EpochsLast(path[i]))
    && forall i :: 0 <= i < |path| - 1 ==> Next(path[i], path[i + 1])
  }

  ghost predicate Run(run: seq<System>) {
    Path(run) && exists secret :: run[0] == System(FreshEnd(secret, true), FreshEnd(secret, false))
  }

  // ------------------------------------------------------------ the invariant

  /** A message for epoch t was made at t - 1; what is queued or was sealed says no more, and was sealed at t - 1 or later. */
  predicate MessagesOk(e: End) {
    && (forall m :: m in e.queued ==> m.target <= e.session.epoch + 1)
    && (forall p :: p in e.out ==> p.msg in e.queued && p.epoch <= e.session.epoch && p.msg.target <= p.epoch + 1)
  }

  predicate Inv(s: System) {
    && Peers(s.x.session, s.y.session)
    && MessagesOk(s.x) && MessagesOk(s.y)
    && s.x.session.epoch <= s.y.session.epoch + 1
    && s.y.session.epoch <= s.x.session.epoch + 1
  }

  lemma ActKeeps(e: End, peer: End, act: Action)
    requires Possible(e, peer, act) && Peers(e.session, peer.session) && MessagesOk(e) && MessagesOk(peer)
    requires e.session.epoch < U32 - 1 && peer.session.epoch < U32 - 1
    requires e.session.epoch <= peer.session.epoch + 1 && peer.session.epoch <= e.session.epoch + 1
    ensures var t := Act(e, act);
      && Peers(t.session, peer.session) && MessagesOk(t)
      && t.session.epoch <= peer.session.epoch + 1 && peer.session.epoch <= t.session.epoch + 1
      && e.session.epoch <= t.session.epoch <= e.session.epoch + 1
  {
    var t := Act(e, act);
    match act
    case AskRekey(_) =>
    case Transmit(msg) =>
    case Receive(packet, nowMs, _) =>
      if t.session.epoch != e.session.epoch { assert packet.msg in peer.queued; }
  }

  lemma StepKeeps(s: System, t: System)
    requires Inv(s) && EpochsLast(s) && Next(s, t)
    ensures Inv(t) && s.x.session.epoch <= t.x.session.epoch && s.y.session.epoch <= t.y.session.epoch
  {
    hide Act, Possible, MessagesOk, Peers;
    var act: Action :|
      || (Possible(s.x, s.y, act) && t == System(Act(s.x, act), s.y))
      || (Possible(s.y, s.x, act) && t == System(s.x, Act(s.y, act)));
    if Possible(s.x, s.y, act) && t == System(Act(s.x, act), s.y) {
      ActKeeps(s.x, s.y, act);
      PeersBothWays(t.x.session, t.y.session);
    } else {
      PeersBothWays(s.x.session, s.y.session);
      ActKeeps(s.y, s.x, act);
      PeersBothWays(t.y.session, t.x.session);
    }
  }

  lemma PeersBothWays(a: SessionState, b: SessionState)
    ensures Peers(a, b) <==> Peers(b, a)
  {
  }

  lemma {:induction false} RunKeeps(run: seq<System>)
    requires Run(run)
    ensures Inv(run[|run| - 1])
  {
    if |run| > 1 {
      var front := run[..|run| - 1];
      assert forall i :: 0 <= i < |front| - 1 ==> Next(front[i], front[i + 1]);
      RunKeeps(front);
      StepKeeps(front[|front| - 1], run[|run| - 1]);
    }
  }

  // ------------------------------------------------------------ the theorems

  /** Whatever is lost, repeated or crosses, the two epochs never differ by more than 1. */
  lemma EpochsStayTogether(run: seq<System>)
    requires Run(run)
    ensures var s := run[|run| - 1];
      s.x.session.epoch <= s.y.session.epoch + 1 && s.y.session.epoch <= s.x.session.epoch + 1
  {
    RunKeeps(run);
  }

  /** In every state of every run a packet either end seals opens at the other iff the epochs agree, or the opener is one ahead and in its grace window. */
  lemma PacketsOpenAcrossRekeys(
    run: seq<System>, space: Space, number: uint32, header: Bytes, plaintext: Bytes, nowMs: int)
    requires Run(run)
    ensures var a, b := run[|run| - 1].x.session, run[|run| - 1].y.session;
      && (OpenPacket(b, space, number, header, SealPacket(a, space, number, header, plaintext), nowMs) ==
          if a.epoch == b.epoch || (a.epoch + 1 == b.epoch && HasGrace(b, nowMs)) then Some(plaintext) else None)
      && (OpenPacket(a, space, number, header, SealPacket(b, space, number, header, plaintext), nowMs) ==
          if a.epoch == b.epoch || (b.epoch + 1 == a.epoch && HasGrace(a, nowMs)) then Some(plaintext) else None)
  {
    hide OpenPacket, SealPacket, HasGrace, Peers;
    RunKeeps(run);
    assert EpochsLast(run[|run| - 1]);
    var a, b := run[|run| - 1].x.session, run[|run| - 1].y.session;
    PeersBothWays(a, b);
    OpensWhere(a, b, space, number, header, plaintext, nowMs);
    OpensWhere(b, a, space, number, header, plaintext, nowMs);
  }

  /** The grace key is always the receive key of the epoch before. */
  lemma GraceKeyIsPrevious(run: seq<System>)
    requires Run(run) && run[|run| - 1].x.session.previousRecv.Some?
    ensures var s := run[|run| - 1].x.session; s.previousRecv.value == RecvKey(s.secret, s.initiator, Sub32(s.epoch, 1))
  {
    RunKeeps(run);
  }

  // ------------------------------------------------------------ when a rekey is left half done

  /** A packet that brings the end behind over: sealed before its sender moved, for the epoch it moved to. */
  predicate Bridging(p: Packet, behind: End) {
    p.epoch == behind.session.epoch && p.msg.target == Add32(behind.session.epoch, 1)
  }

  /** The bridging packets sealed so far; each may be on its way, or lost. */
  function Bridges(ahead: End, behind: End): set<Packet> {
    set p | p in ahead.out && Bridging(p, behind)
  }

  /** End x is one epoch behind. */
  predicate Split(s: System) {
    s.x.session.epoch + 1 == s.y.session.epoch
  }

  /** A step in which no bridging packet reaches the end behind. */
  ghost predicate NextUnbridged(s: System, t: System) {
    exists act: Action ::
      || (Possible(s.x, s.y, act) && t == System(Act(s.x, act), s.y) && !(act.Receive? && Bridging(act.packet, s.x)))
      || (Possible(s.y, s.x, act) && t == System(s.x, Act(s.y, act)))
  }

  /** The end behind moves exactly when a bridging packet reaches it, and then the ends are level. */
  lemma OnlyABridgeFinishes(s: System, act: Action)
    requires Inv(s) && EpochsLast(s) && Split(s) && Possible(s.x, s.y, act)
    ensures var epoch := Act(s.x, act).session.epoch;
      && (epoch != s.x.session.epoch <==> act.Receive? && Bridging(act.packet, s.x))
      && (epoch != s.x.session.epoch ==> epoch == s.y.session.epoch)
  {
    hide Peers;
    if act.Receive? { assert act.packet in s.y.out; }
  }

  /** Once ahead, an end seals no bridging packet any more, and does not move. */
  lemma AheadStays(s: System, act: Action)
    requires Inv(s) && EpochsLast(s) && Split(s) && Possible(s.y, s.x, act)
    ensures Act(s.y, act).session.epoch == s.y.session.epoch && Bridges(Act(s.y, act), s.x) == Bridges(s.y, s.x)
  {
    hide HasGrace, Peers;
    if act.Receive? { assert act.packet in s.x.out; }
  }

  lemma UnbridgedStays(s: System, t: System)
    requires Inv(s) && EpochsLast(s) && Split(s) && NextUnbridged(s, t)
    ensures Inv(t) && t.x.session.epoch == s.x.session.epoch && t.y.session.epoch == s.y.session.epoch
    ensures Bridges(t.y, t.x) == Bridges(s.y, s.x)
  {
    hide Act, Possible, Inv, EpochsLast, Bridging;
    var act: Action :|
      || (Possible(s.x, s.y, act) && t == System(Act(s.x, act), s.y) && !(act.Receive? && Bridging(act.packet, s.x)))
      || (Possible(s.y, s.x, act) && t == System(s.x, Act(s.y, act)));
    assert Next(s, t);
    StepKeeps(s, t);
    if Possible(s.y, s.x, act) && t == System(s.x, Act(s.y, act)) {
      AheadStays(s, act);
    } else {
      OnlyABridgeFinishes(s, act);
      SameEpochSameBridges(s.y, s.x, t.x);
    }
  }

  lemma SameEpochSameBridges(ahead: End, a: End, b: End)
    requires a.session.epoch == b.session.epoch
    ensures Bridges(ahead, a) == Bridges(ahead, b)
  {
  }

  ghost predicate UnbridgedPath(path: seq<System>) {
    && |path| > 0
    && (forall i :: 0 <= i < |path| ==> EpochsLast(path[i]))
    && forall i :: 0 <= i < |path| - 1 ==> NextUnbridged(path[i], path[i + 1])
  }

  /**
   A rekey is never finished once the packets sealed before the answerer moved are lost: whatever else the ends do, resend
   or receive, the set of bridging packets does not grow (a resent answer is sealed under keys its reader does not have
   yet) and the ends stay one epoch apart.
   */
  lemma {:induction false} LostAnswerSplitsForGood(path: seq<System>)
    requires UnbridgedPath(path) && Inv(path[0]) && Split(path[0])
    ensures var s := path[|path| - 1];
      && Inv(s) && Bridges(s.y, s.x) == Bridges(path[0].y, path[0].x)
      && s.x.session.epoch == path[0].x.session.epoch && s.y.session.epoch == path[0].y.session.epoch
  {
    if |path| > 1 {
      var front := path[..|path| - 1];
      assert forall i :: 0 <= i < |front| - 1 ==> NextUnbridged(front[i], front[i + 1]);
      LostAnswerSplitsForGood(front);
      UnbridgedStays(front[|front| - 1], path[|path| - 1]);
    }
  }

  /**
   And it does happen, however the answerer's mux takes the answer: sent at once, it is the one bridging packet there
   will ever be, and may be lost; made to wait, or refused, there is none at all.
   */
  lemma SplitIsReachable(secret: Secret, outcome: Outcome) returns (run: seq<System>)
    ensures Run(run)
    ensures var s := run[|run| - 1];
      && Split(s) && Bridges(s.y, s.x) == (if outcome == Passed then {Packet(1, Ack(2))} else {})
      && (outcome != Full ==> Packet(2, Ack(2)) in s.y.out)
  {
    var a, b := FreshEnd(secret, true), FreshEnd(secret, false);
    var a1 := Act(a, AskRekey(Passed));
    var b1 := Act(b, Receive(Packet(1, Request(2)), 0, outcome));
    run := [System(a, b), System(a1, b), System(a1, b1)];
    assert Possible(a, b, AskRekey(Passed));
    assert Next(run[0], run[1]);
    assert Possible(b, a1, Receive(Packet(1, Request(2)), 0, outcome));
    assert Next(run[1], run[2]);
    if outcome != Full {
      var b2 := Act(b1, Transmit(Ack(2)));
      assert Possible(b1, a1, Transmit(Ack(2)));
      assert Next(System(a1, b1), System(a1, b2));
      run := run + [System(a1, b2)];
    }
    assert run[0] == System(FreshEnd(secret, true), FreshEnd(secret, false));
  }

  /** As long as a bridging packet is on its way, its arrival brings the ends level. */
  lemma BridgeFinishes(s: System, nowMs: int, outcome: Outcome) returns (t: System)
    requires Inv(s) && EpochsLast(s) && Split(s) && Bridges(s.y, s.x) != {}
    ensures Next(s, t) && t.x.session.epoch == t.y.session.epoch == s.y.session.epoch
  {
    var p :| p in Bridges(s.y, s.x);
    var act := Receive(p, nowMs, outcome);
    t := System(Act(s.x, act), s.y);
    assert Possible(s.x, s.y, act);
    OnlyABridgeFinishes(s, act);
  }

  // ------------------------------------------------------------ one rekey after another

  /** A request is outstanding from the moment it is given to the mux until an ack for the next epoch is accepted, and then no longer. */
  lemma PendingWhen(e: End, act: Action)
    ensures var accepted := act.Receive? && Opens(e, act.packet, act.nowMs) && act.packet.msg == Ack(Add32(e.session.epoch, 1));
      && Act(e, act).pending == ((e.pending || (act.AskRekey? && act.outcome != Full)) && !accepted)
      && (accepted ==> Act(e, act).session.epoch == Add32(e.session.epoch, 1))
      && (accepted ==> Act(Act(e, act), AskRekey(Waiting)).queued == e.queued + {Request(Add32(e.session.epoch, 2))})
  {
    hide HasGrace, RecvKey;
  }

  /** While one is outstanding, asking again does nothing. */
  lemma OneRequestAtATime(e: End, outcome: Outcome)
    requires e.pending
    ensures Act(e, AskRekey(outcome)) == e
  {
  }

  /** `Opens` is what the session does with a packet its peer sealed at that epoch. */
  lemma OpensAsSealed(a: SessionState, e: End, msg: Control, space: Space, number: uint32, header: Bytes, plaintext: Bytes, nowMs: int)
    requires Peers(a, e.session) && 1 <= a.epoch < U32 - 1 && 1 <= e.session.epoch < U32 - 1
    ensures Opens(e, Packet(a.epoch, msg), nowMs) <==>
            OpenPacket(e.session, space, number, header, SealPacket(a, space, number, header, plaintext), nowMs) == Some(plaintext)
  {
    OpensWhere(a, e.session, space, number, header, plaintext, nowMs);
    hide OpenPacket, SealPacket, HasGrace;
  }

  /** Level, with no request outstanding. */
  predicate AtRest(s: System, epoch: nat) {
    s.x.session.epoch == s.y.session.epoch == epoch && !s.x.pending && !s.y.pending
  }

  /** From there a request, its answer and the ack lead to the next epoch, and the ends are at rest again. */
  lemma OneRekey(s: System, epoch: nat) returns (asked: System, answered: System, t: System)
    requires Inv(s) && AtRest(s, epoch) && 1 <= epoch < U32 - 2
    ensures EpochsLast(asked) && EpochsLast(answered) && EpochsLast(t)
    ensures Next(s, asked) && Next(asked, answered) && Next(answered, t) && Inv(t) && AtRest(t, epoch + 1)
  {
    var request, ack := Packet(epoch, Request(epoch + 1)), Packet(epoch, Ack(epoch + 1));
    asked := System(Act(s.x, AskRekey(Passed)), s.y);
    assert Possible(s.x, s.y, AskRekey(Passed));
    var serve := Receive(request, 0, Passed);
    answered := System(asked.x, Act(asked.y, serve));
    assert Possible(asked.y, asked.x, serve);
    var hear := Receive(ack, 0, Passed);
    t := System(Act(answered.x, hear), answered.y);
    assert Possible(answered.x, answered.y, hear);
    hide Peers, HasGrace, RecvKey, MessagesOk;
    StepKeeps(s, asked);
    StepKeeps(asked, answered);
    StepKeeps(answered, t);
  }

  /** So one end can ask for as many rekeys as there are epochs, one after another, and each is finished. */
  lemma {:induction false} ManyRekeys(secret: Secret, n: nat) returns (run: seq<System>)
    requires n < U32 - 2
    ensures Run(run) && AtRest(run[|run| - 1], n + 1)
  {
    if n == 0 {
      run := [System(FreshEnd(secret, true), FreshEnd(secret, false))];
    } else {
      hide AtRest, EpochsLast, Inv;
      run := ManyRekeys(secret, n - 1);
      RunKeeps(run);
      assert EpochsLast(run[|run| - 1]);
      var asked, answered, t := OneRekey(run[|run| - 1], n);
      run := OneMore(run, asked);
      run := OneMore(run, answered);
      run := OneMore(run, t);
    }
  }

  lemma OneMore(run: seq<System>, t: System) returns (longer: seq<System>)
    requires Run(run) && Next(run[|run| - 1], t) && EpochsLast(t)
    ensures Run(longer) && longer[|longer| - 1] == t
  {
    longer := run + [t];
    forall i | 0 <= i < |longer| - 1
      ensures Next(longer[i], longer[i + 1])
    {
      if i < |run| - 1 { assert Next(run[i], run[i + 1]); }
    }
    var secret :| run[0] == System(FreshEnd(secret, true), FreshEnd(secret, false));
    assert longer[0] == System(FreshEnd(secret, true), FreshEnd(secret, false));
  }

  // ------------------------------------------------------------ requests that cross

  /** Both ends wait for an answer, and all there is to say was said for this epoch or an earlier one. */
  ghost predicate Crossed(s: System) {
    && s.x.session.epoch == s.y.session.epoch && s.x.pending && s.y.pending
    && (forall m :: m in s.x.queued || m in s.y.queued ==> m.target <= s.x.session.epoch)
    && (forall p :: p in s.x.out || p in s.y.out ==> p.msg.target <= s.x.session.epoch)
  }

  lemma CrossedActs(e: End, peer: End, act: Action)
    requires Possible(e, peer, act) && e.pending && e.session.epoch < U32 - 1
    requires forall m :: m in e.queued ==> m.target <= e.session.epoch
    requires forall p :: p in peer.out ==> p.msg.target <= e.session.epoch
    ensures var t := Act(e, act);
      && t.session == e.session && t.pending && t.queued == e.queued
      && forall p :: p in t.out ==> p in e.out || p.msg in e.queued
  {
  }

  /**
   Two requests that cross are both answered and both applied, and neither answer finishes its request: each is for an
   epoch its reader has reached. Both ends wait for good, and since an end asks again only after that, the link is never
   rekeyed again.
   */
  lemma {:induction false} CrossedStayPending(path: seq<System>)
    requires Path(path) && Crossed(path[0])
    ensures var s := path[|path| - 1];
      Crossed(s) && s.x.session == path[0].x.session && s.y.session == path[0].y.session
  {
    if |path| > 1 {
      var front, t := path[..|path| - 1], path[|path| - 1];
      assert forall i :: 0 <= i < |front| - 1 ==> Next(front[i], front[i + 1]);
      CrossedStayPending(front);
      var s := front[|front| - 1];
      assert EpochsLast(s) && Next(s, t);
      hide Act, Possible;
      var act: Action :|
        || (Possible(s.x, s.y, act) && t == System(Act(s.x, act), s.y))
        || (Possible(s.y, s.x, act) && t == System(s.x, Act(s.y, act)));
      if Possible(s.x, s.y, act) && t == System(Act(s.x, act), s.y) {
        CrossedActs(s.x, s.y, act);
      } else {
        CrossedActs(s.y, s.x, act);
      }
    }
  }

  /** And two ends that ask at the same time get there, with nothing lost. */
  lemma CrossingHappens(secret: Secret) returns (run: seq<System>)
    ensures Run(run) && Crossed(run[|run| - 1]) && run[|run| - 1].x.session.epoch == 2
  {
    var a, b := FreshEnd(secret, true), FreshEnd(secret, false);
    var ask, hear := AskRekey(Passed), Receive(Packet(1, Request(2)), 0, Passed);
    var a1, b1 := Act(a, ask), Act(b, ask);
    var a2, b2 := Act(a1, hear), Act(b1, hear);
    run := [System(a, b)];
    assert Run(run);
    assert Possible(a, b, ask);
    run := OneMore(run, System(a1, b));
    assert Possible(b, a1, ask);
    run := OneMore(run, System(a1, b1));
    assert Possible(a1, b1, hear);
    run := OneMore(run, System(a2, b1));
    assert Possible(b1, a2, hear);
    run := OneMore(run, System(a2, b2));
  }
}
