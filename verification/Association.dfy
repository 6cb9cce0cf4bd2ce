/**
 The association as the source writes it: class `Connection`, its fields updated in place,
 each method proved against what it makes of the whole state `Conn`.
 */
module Association {
  import opened Words
  import opened Replay
  import opened Adp

  datatype Path = Path(peer: nat, lastAuthRxMs: int, maxStamp: uint32, haveStamp: bool)
  datatype Counts = Counts(reliableSent: nat, retransmits: nat, reliableLost: nat)

  datatype Conn = Conn(
    keys: Keys, timer: Timer, closed: bool, txBe: uint32, txRel: uint32, outstanding: seq<Outgoing>, counts: Counts,
    rxBe: Window, rx: Rx, bestEffort: seq<Message>, path: Path, wire: seq<Datagram>)

  /** The constructor: before it authenticates, an association may be held to fewer resends. */
  function NewConn(p: Params, key: nat, peer: nat): Conn {
    var maxRtx :=
      if p.reduceRtxUntilAuthenticated then
        Min(p.maxRtx, if p.dialerBackoff then PRE_AUTH_DIAL_MAX_RTX else PRE_AUTH_MAX_RTX)
      else p.maxRtx;
    Conn(Keys(!p.reduceRtxUntilAuthenticated, maxRtx, key, None, false), Timer(0, -1, -1), false, 0, 0, [],
         Counts(0, 0, 0), NewWindow(p.replayWindow, true),
         Rx(NewWindow(Max(p.replayWindow, p.reliableWindow), false), 1, map[], false, []), [],
         Path(peer, 0, 0, false), [])
  }

  // ------------------------------------------------------------ what each operation makes of it

  function AfterSend(c: Conn, reliable: bool, payload: Bytes, nowMs: int, p: Params): (Conn, SendResult)
    requires c.timer.backoff >= 0
  {
    var k := c.keys;
    if c.closed then (c, ErrClosed)
    else if |payload| > (if k.sealing then MAX_SEALED_PAYLOAD else MAX_PAYLOAD) then (c, ErrPayloadTooLarge)
    else if !reliable then
      if c.txBe == LAST_SEQ then (c, ErrSeqWrap)
      else
        var kind := if k.sealing then DataBestEffort else PlainBestEffort;
        (c.(txBe := c.txBe + 1, wire := c.wire + [Emit(k, kind, c.txBe + 1, payload, nowMs, k.binder)]), Ok)
    else AfterSendReliable(c, payload, nowMs, p)
  }

  function AfterSendReliable(c: Conn, payload: Bytes, nowMs: int, p: Params): (Conn, SendResult)
    requires c.timer.backoff >= 0
  {
    var k := c.keys;
    if |c.outstanding| >= p.reliableWindow then (c, ErrWindowFull)
    else if c.txRel == LAST_SEQ then (c, ErrSeqWrap)
    else
      var o := ReliableOutgoing(k, c.timer, p, c.txRel + 1, payload, nowMs);
      (c.(txRel := c.txRel + 1, outstanding := c.outstanding + [o],
          counts := c.counts.(reliableSent := c.counts.reliableSent + 1),
          wire := c.wire + [Emit(k, o.kind, o.seqNo, payload, nowMs, k.binder)]), Ok)
  }

  function AfterTick(c: Conn, nowMs: int, p: Params): Conn {
    if c.closed then c
    else
      var after := ResentAll(c.outstanding, nowMs, c.keys, c.timer, p);
      var resends := ResendDatagrams(c.outstanding, nowMs, c.keys);
      var lost := LostAtFront(after, nowMs, c.keys);
      LostFits(after, nowMs, c.keys);
      c.(outstanding := after[lost..],
         timer := c.timer.(backoff := BackedOff(c.outstanding, nowMs, c.keys, c.timer.backoff)),
         counts := c.counts.(retransmits := c.counts.retransmits + |resends|,
                             reliableLost := c.counts.reliableLost + lost),
         wire := c.wire + resends)
  }

  function AfterUpgrade(c: Conn, key: nat, p: Params): Conn {
    c.(keys := c.keys.(preUpgrade := if c.keys.preUpgrade.None? then Some(c.keys.binder) else c.keys.preUpgrade,
                       binder := key, maxRtx := p.maxRtx, authenticated := true))
  }

  /** Close, and every keepalive and probe: a control packet, numbered 0. */
  function AfterControlSent(c: Conn, close: bool, payload: Bytes, nowMs: int): Conn {
    if c.closed then c
    else c.(closed := close, wire := c.wire + [Emit(c.keys, if close then Close else Keepalive, 0, payload, nowMs, c.keys.binder)])
  }

  function AckOf(c: Conn, seqNo: uint32, nowMs: int, key: nat): Datagram {
    Emit(c.keys, Ack, seqNo, [], nowMs, key)
  }

  /** A datagram under the pre-upgrade key: only settles the handshake's own packets. */
  function AfterPreUpgradeKey(c: Conn, d: Datagram, nowMs: int, p: Params): Conn
    requires c.keys.preUpgrade.Some?
  {
    if !AcceptSkew(d.stamp, nowMs, p.skewMs) then c
    else if d.kind.Ack? then c.(outstanding := Without(c.outstanding, d.seqNo, true))
    else if d.kind.PlainReliable? && Judge(c.rx.window, d.seqNo) == IsDuplicate then
      c.(wire := c.wire + [AckOf(c, d.seqNo, nowMs, c.keys.preUpgrade.value)])
    else c
  }

  predicate NewerStamp(path: Path, stamp: uint32) {
    !path.haveStamp || AsInt32(Sub32(stamp, path.maxStamp)) > 0
  }

  /** Where the packet leaves liveness and the path: only a fresh one moves them. */
  function AfterHeard(path: Path, d: Datagram, isFresh: bool, from: nat, nowMs: int): Path {
    var stamped := if !IsSealed(d.kind) && NewerStamp(path, d.stamp) then path.(maxStamp := d.stamp, haveStamp := true) else path;
    if isFresh then stamped.(lastAuthRxMs := nowMs, peer := from) else stamped
  }

  function AfterAckReceived(c: Conn, seqNo: uint32, nowMs: int): Conn {
    c.(timer := AckSampled(c.outstanding, seqNo, nowMs, c.timer), outstanding := Without(c.outstanding, seqNo, false))
  }

  function AfterAuthenticated(c: Conn, d: Datagram, from: nat, nowMs: int, p: Params): Conn {
    if !IsSealed(d.kind) && !AcceptSkew(d.stamp, nowMs, p.skewMs) then c
    else if c.keys.sealing && d.kind.PlainBestEffort? then c
    else if c.keys.sealing && d.kind.PlainReliable? then
      if Judge(c.rx.window, d.seqNo) == IsDuplicate then c.(wire := c.wire + [AckOf(c, d.seqNo, nowMs, c.keys.binder)]) else c
    else Dispatched(c, d, from, nowMs, p)
  }

  /** A packet let through: taken in by its kind. */
  function Dispatched(c: Conn, d: Datagram, from: nat, nowMs: int, p: Params): Conn {
    if d.kind.DataBestEffort? || d.kind.PlainBestEffort? then AfterBestEffort(c, d, from, nowMs)
    else if IsReliable(d.kind) then AfterReliable(c, d, from, nowMs, p)
    else
      var heard := c.(path := AfterHeard(c.path, d, NewerStamp(c.path, d.stamp), from, nowMs));
      if d.kind.Ack? then AfterAckReceived(heard, d.seqNo, nowMs)
      else if d.kind.Close? && (c.keys.authenticated || p.dialerBackoff) then heard.(closed := true)
      else heard
  }

  function AfterBestEffort(c: Conn, d: Datagram, from: nat, nowMs: int): Conn {
    var (w, isFresh) := AfterAccept(c.rxBe, d.seqNo);
    c.(rxBe := w, path := AfterHeard(c.path, d, isFresh, from, nowMs),
       bestEffort :=
         if isFresh && c.rx.handler then c.bestEffort + [Message(d.seqNo, IsSealed(d.kind), d.payload)] else c.bestEffort)
  }

  function AfterReliable(c: Conn, d: Datagram, from: nat, nowMs: int, p: Params): Conn {
    var (rx, isFresh, ack) := Arrived(c.rx, Message(d.seqNo, IsSealed(d.kind), d.payload), p.reliableWindow);
    c.(rx := rx, path := AfterHeard(c.path, d, isFresh, from, nowMs),
       wire := if ack then c.wire + [AckOf(c, d.seqNo, nowMs, c.keys.binder)] else c.wire)
  }

  /** `opens`: the session could open it, if it was sealed (keys may have moved on: then it is as good as lost). */
  function AfterDatagram(c: Conn, d: Datagram, opens: bool, from: nat, nowMs: int, p: Params): Conn {
    if IsSealed(d.kind) then
      if c.keys.sealing && d.auth.Aead? && opens then AfterAuthenticated(c, d, from, nowMs, p) else c
    else if d.auth == Mac(c.keys.binder) then AfterAuthenticated(c, d, from, nowMs, p)
    else if c.keys.preUpgrade.Some? && d.auth == Mac(c.keys.preUpgrade.value) then AfterPreUpgradeKey(c, d, nowMs, p)
    else c
  }

  lemma IntervalIgnoresBackoff(k: Keys, a: Timer, b: Timer, p: Params, doublings: nat)
    requires a.srttMs == b.srttMs && a.rttvarMs == b.rttvarMs
    ensures RetransmitIntervalMs(k, a, p, doublings) == RetransmitIntervalMs(k, b, p, doublings)
  {
  }

  lemma ResentOneMore(q: seq<Outgoing>, i: nat, nowMs: int, k: Keys, a: Timer, b: Timer, p: Params)
    requires i < |q| && a.srttMs == b.srttMs && a.rttvarMs == b.rttvarMs
    ensures ResentAll(q[..i + 1], nowMs, k, b, p) == ResentAll(q[..i], nowMs, k, b, p) + [Resent(q[i], nowMs, k, a, p)]
  {
    assert q[..i + 1][..i] == q[..i];
    IntervalIgnoresBackoff(k, a, b, p, q[i].baseBackoff + q[i].attempts + 1);
  }

  // ------------------------------------------------------------ the association itself

  class Connection {
    const params: Params
    const rxBe: ReplayWindow
    const rxRel: ReplayWindow
    var authenticated: bool
    var maxRtx: int
    var binderKey: nat
    var preUpgradeKey: Option<nat>
    var sealing: bool
    var closed: bool
    var txSeqBe: uint32
    var txSeqRel: uint32
    var outstanding: seq<Outgoing>
    var rtoBackoff: nat
    var srttMs: int
    var rttvarMs: int
    var stats: Counts
    var rxRelNextDeliver: uint32
    var rxRelHold: map<uint32, Message>
    var onMessage: bool
    /** What OnMessage was given: reliable messages, and the others. */
    var reliableMessages: seq<Message>
    var bestEffortMessages: seq<Message>
    var path: Path
    /** Every datagram handed to the socket. */
    var wire: seq<Datagram>

    ghost predicate Valid()
      reads this
    {
      rxBe != rxRel
    }

    ghost function KeyState(): Keys
      reads this`authenticated, this`maxRtx, this`binderKey, this`preUpgradeKey, this`sealing
    {
      Keys(authenticated, maxRtx, binderKey, preUpgradeKey, sealing)
    }

    ghost function TimerState(): Timer
      reads this`rtoBackoff, this`srttMs, this`rttvarMs
    {
      Timer(rtoBackoff, srttMs, rttvarMs)
    }

    ghost function RxState(): Rx
      reads this`rxRelNextDeliver, this`rxRelHold, this`onMessage, this`reliableMessages, rxRel
    {
      Rx(rxRel.State(), rxRelNextDeliver, rxRelHold, onMessage, reliableMessages)
    }

    ghost function State(): Conn
      reads this, rxBe, rxRel
    {
      Conn(KeyState(), TimerState(), closed, txSeqBe, txSeqRel, outstanding, stats, rxBe.State(), RxState(),
           bestEffortMessages, path, wire)
    }

    constructor (params: Params, key: nat, peer: nat)
      ensures Valid() && fresh(rxBe) && fresh(rxRel) && this.params == params
      ensures State() == NewConn(params, key, peer)
    {
      this.params := params;
      rxBe := new ReplayWindow(params.replayWindow, true);
      rxRel := new ReplayWindow(Max(params.replayWindow, params.reliableWindow), false);
      maxRtx := if params.reduceRtxUntilAuthenticated
                then Min(params.maxRtx, if params.dialerBackoff then PRE_AUTH_DIAL_MAX_RTX else PRE_AUTH_MAX_RTX)
                else params.maxRtx;
      authenticated, binderKey, preUpgradeKey, sealing := !params.reduceRtxUntilAuthenticated, key, None, false;
      closed, txSeqBe, txSeqRel, outstanding := false, 0, 0, [];
      rtoBackoff, srttMs, rttvarMs, stats := 0, -1, -1, Counts(0, 0, 0);
      rxRelNextDeliver, rxRelHold, onMessage, reliableMessages, bestEffortMessages := 1, map[], false, [], [];
      path, wire := Path(peer, 0, 0, false), [];
    }

    method OnMessage()
      modifies this`onMessage
      ensures onMessage
    {
      onMessage := true;
    }

    method UpgradeBinder(key: nat)
      modifies this`preUpgradeKey, this`binderKey, this`maxRtx, this`authenticated
      ensures State() == AfterUpgrade(old(State()), key, params)
    {
      if preUpgradeKey.None? {
        preUpgradeKey := Some(binderKey);
      }
      binderKey := key;
      maxRtx := params.maxRtx;
      authenticated := true;
    }

    method SetProtection()
      modifies this`sealing
      ensures State() == old(State()).(keys := old(KeyState()).(sealing := true))
    {
      sealing := true;
    }

    method SendPacket(kind: PacketType, seqNo: uint32, payload: Bytes, nowMs: int, key: nat)
      modifies this`wire
      ensures wire == old(wire) + [Emit(KeyState(), kind, seqNo, payload, nowMs, key)]
    {
      var d := if IsSealed(kind) then Datagram(kind, seqNo, 0, payload, Aead)
               else Datagram(kind, seqNo, TruncTs(nowMs), payload, Mac(key));
      wire := wire + [d];
    }

    method CloseNow(nowMs: int)
      modifies this`closed, this`wire
      ensures State() == AfterControlSent(old(State()), true, [], nowMs)
    {
      if closed {
        return;
      }
      SendPacket(Close, 0, [], nowMs, binderKey);
      closed := true;
    }

    method SendKeepalivePacket(payload: Bytes, nowMs: int) returns (ok: bool)
      modifies this`wire
      ensures ok == !closed && State() == AfterControlSent(old(State()), false, payload, nowMs)
    {
      if closed {
        return false;
      }
      SendPacket(Keepalive, 0, payload, nowMs, binderKey);
      return true;
    }

    method RetransmitInterval(doublings: nat) returns (ms: int)
      ensures ms == RetransmitIntervalMs(KeyState(), TimerState(), params, doublings)
    {
      if authenticated {
        var d := Min(doublings, MAX_BACKOFF);
        return Min(ShiftLeft(RtoMs(Timer(rtoBackoff, srttMs, rttvarMs), params), d), Max(MAX_RTO_MS, params.rtxIntervalMs));
      }
      if !params.dialerBackoff {
        return params.rtxIntervalMs;
      }
      return ShiftLeft(params.rtxIntervalMs, Min(doublings, 16));
    }

    method Send(reliable: bool, payload: Bytes, nowMs: int) returns (r: SendResult)
      modifies this`txSeqBe, this`txSeqRel, this`outstanding, this`stats, this`wire
      ensures (State(), r) == AfterSend(old(State()), reliable, payload, nowMs, params)
    {
      hide RetransmitIntervalMs, Emit;
      if closed {
        return ErrClosed;
      }
      if |payload| > (if sealing then MAX_SEALED_PAYLOAD else MAX_PAYLOAD) {
        return ErrPayloadTooLarge;
      }
      if !reliable {
        if txSeqBe == LAST_SEQ {
          return ErrSeqWrap;
        }
        txSeqBe := txSeqBe + 1;
        SendPacket(if sealing then DataBestEffort else PlainBestEffort, txSeqBe, payload, nowMs, binderKey);
        return Ok;
      }
      r := SendReliable(payload, nowMs);
    }

    /** The packet as it is kept until acked. */
    method NewOutstanding(seqNo: uint32, payload: Bytes, nowMs: int) returns (o: Outgoing)
      ensures o == ReliableOutgoing(KeyState(), TimerState(), params, seqNo, payload, nowMs)
    {
      hide RetransmitIntervalMs;
      var base := if authenticated then rtoBackoff else 0;
      var wait := RetransmitInterval(base);
      o := Outgoing(if sealing then DataReliable else PlainReliable, preUpgradeKey.None?, seqNo, payload, nowMs + wait, 0, base, nowMs);
    }

    /** Send, from the point where the packet is known to be reliable. */
    method SendReliable(payload: Bytes, nowMs: int) returns (r: SendResult)
      modifies this`txSeqRel, this`outstanding, this`stats, this`wire
      ensures (State(), r) == AfterSendReliable(old(State()), payload, nowMs, params)
    {
      hide RetransmitIntervalMs, Emit, ReliableOutgoing, RxState, TimerState;
      if |outstanding| >= params.reliableWindow {
        return ErrWindowFull;
      }
      if txSeqRel == LAST_SEQ {
        return ErrSeqWrap;
      }
      TransmitReliable(payload, nowMs);
      return Ok;
    }

    method TransmitReliable(payload: Bytes, nowMs: int)
      requires txSeqRel != LAST_SEQ
      modifies this`txSeqRel, this`outstanding, this`stats, this`wire
      ensures txSeqRel == old(txSeqRel) + 1
      ensures stats == old(stats).(reliableSent := old(stats).reliableSent + 1)
      ensures var o := ReliableOutgoing(KeyState(), TimerState(), params, txSeqRel, payload, nowMs);
        && outstanding == old(outstanding) + [o]
        && wire == old(wire) + [Emit(KeyState(), o.kind, o.seqNo, payload, nowMs, binderKey)]
    {
      txSeqRel := txSeqRel + 1;
      var o := NewOutstanding(txSeqRel, payload, nowMs);
      outstanding := outstanding + [o];
      stats := stats.(reliableSent := stats.reliableSent + 1);
      SendPacket(o.kind, o.seqNo, payload, nowMs, binderKey);
    }

    method NoteRttSample(rttMs: int)
      modifies this`rtoBackoff, this`srttMs, this`rttvarMs
      ensures TimerState() == RttSampled(old(TimerState()), rttMs)
    {
      var sample := if rttMs < 0 then 0 else rttMs;
      rtoBackoff := 0;
      if srttMs < 0 {
        srttMs, rttvarMs := sample, sample / 2;
      } else {
        var error := if sample > srttMs then sample - srttMs else srttMs - sample;
        rttvarMs := rttvarMs + TruncDiv(error - rttvarMs, 4);
        srttMs := srttMs + TruncDiv(sample - srttMs, 8);
      }
    }

    method Tick(nowMs: int)
      modifies this`outstanding, this`rtoBackoff, this`stats, this`wire
      ensures State() == AfterTick(old(State()), nowMs, params)
    {
      hide RxState, ResentAll, ResendDatagrams, BackedOff, LostAtFront;
      if closed {
        return;
      }
      ResendDue(nowMs);
      DropFailed(nowMs);
    }

    /** One resend: the packet as it is kept from now on. */
    method Resend(due: Outgoing, nowMs: int) returns (o: Outgoing)
      requires nowMs >= due.nextRtxMs && due.attempts < maxRtx
      modifies this`rtoBackoff, this`stats, this`wire
      ensures o == Resent(due, nowMs, KeyState(), old(TimerState()), params)
      ensures rtoBackoff == if authenticated then Max(old(rtoBackoff), Min(due.baseBackoff + due.attempts + 1, MAX_BACKOFF)) else old(rtoBackoff)
      ensures wire == old(wire) + [Emit(KeyState(), due.kind, due.seqNo, due.payload, nowMs, ResendKey(due, KeyState()))]
      ensures stats == old(stats).(retransmits := old(stats).retransmits + 1)
    {
      hide RetransmitIntervalMs, Emit;
      ghost var k, t := KeyState(), TimerState();
      o := due.(attempts := due.attempts + 1);
      var doublings := o.baseBackoff + o.attempts;
      if authenticated {
        rtoBackoff := Max(rtoBackoff, Min(doublings, MAX_BACKOFF));
      }
      var wait := RetransmitInterval(doublings);
      IntervalIgnoresBackoff(k, TimerState(), t, params, doublings);
      o := o.(nextRtxMs := nowMs + wait);
      stats := stats.(retransmits := stats.retransmits + 1);
      var key := if o.beforeUpgrade && preUpgradeKey.Some? && !IsSealed(o.kind) then preUpgradeKey.value else binderKey;
      SendPacket(o.kind, o.seqNo, o.payload, nowMs, key);
    }

    /** Tick's first loop: resend what is due and has resends left. */
    method ResendDue(nowMs: int)
      modifies this`outstanding, this`rtoBackoff, this`stats, this`wire
      ensures outstanding == ResentAll(old(outstanding), nowMs, KeyState(), old(TimerState()), params)
      ensures rtoBackoff == BackedOff(old(outstanding), nowMs, KeyState(), old(rtoBackoff))
      ensures wire == old(wire) + ResendDatagrams(old(outstanding), nowMs, KeyState())
      ensures stats == old(stats).(retransmits := old(stats).retransmits + |ResendDatagrams(old(outstanding), nowMs, KeyState())|)
    {
      hide RetransmitIntervalMs, Emit;
      ghost var k, t := KeyState(), TimerState();
      var frames, looked: seq<Outgoing> := outstanding, [];
      var i := 0;
      while i < |frames|
        invariant 0 <= i <= |frames|
        invariant looked == ResentAll(frames[..i], nowMs, k, t, params)
        invariant rtoBackoff == BackedOff(frames[..i], nowMs, k, t.backoff)
        invariant wire == old(wire) + ResendDatagrams(frames[..i], nowMs, k)
        invariant stats == old(stats).(retransmits := old(stats).retransmits + |ResendDatagrams(frames[..i], nowMs, k)|)
      {
        var o := frames[i];
        ResentOneMore(frames, i, nowMs, k, TimerState(), t, params);
        assert frames[..i + 1][..i] == frames[..i];
        if nowMs >= o.nextRtxMs && o.attempts < maxRtx {
          o := Resend(o, nowMs);
        }
        looked := looked + [o];
        i := i + 1;
      }
      assert frames[..i] == frames;
      outstanding := looked;
    }

    /** Tick's second loop: give up on packets at the front that used every resend. */
    method DropFailed(nowMs: int)
      modifies this`outstanding, this`stats
      ensures LostAtFront(old(outstanding), nowMs, KeyState()) <= |old(outstanding)|
      ensures outstanding == old(outstanding)[LostAtFront(old(outstanding), nowMs, KeyState())..]
      ensures stats == old(stats).(reliableLost := old(stats).reliableLost + LostAtFront(old(outstanding), nowMs, KeyState()))
    {
      ghost var k := KeyState();
      ghost var dropped := 0;
      while outstanding != [] && outstanding[0].attempts >= maxRtx && nowMs >= outstanding[0].nextRtxMs
        invariant dropped <= |old(outstanding)| && outstanding == old(outstanding)[dropped..]
        invariant LostAtFront(old(outstanding), nowMs, k) == dropped + LostAtFront(outstanding, nowMs, k)
        invariant stats == old(stats).(reliableLost := old(stats).reliableLost + dropped)
        decreases |outstanding|
      {
        stats := stats.(reliableLost := stats.reliableLost + 1);
        outstanding := outstanding[1..];
        dropped := dropped + 1;
      }
    }

    method EraseOutstanding(seqNo: uint32, onlyBeforeUpgrade: bool)
      modifies this`outstanding
      ensures outstanding == Without(old(outstanding), seqNo, onlyBeforeUpgrade)
    {
      var frames, kept: seq<Outgoing> := outstanding, [];
      var i := 0;
      while i < |frames|
        invariant 0 <= i <= |frames|
        invariant kept == Without(frames[..i], seqNo, onlyBeforeUpgrade)
      {
        assert frames[..i + 1][..i] == frames[..i];
        var o := frames[i];
        if !(o.seqNo == seqNo && (o.beforeUpgrade || !onlyBeforeUpgrade)) {
          kept := kept + [o];
        }
        i := i + 1;
      }
      assert frames[..i] == frames;
      outstanding := kept;
    }

    method DeliverReliableInOrder()
      modifies this`rxRelHold, this`rxRelNextDeliver, this`reliableMessages
      ensures RxState() == Drain(old(RxState()))
    {
      if !onMessage {
        return;
      }
      ghost var goal := Released(rxRelNextDeliver, rxRelHold);
      ghost var was := reliableMessages;
      assert was + goal.0 == reliableMessages + goal.0;
      while rxRelNextDeliver in rxRelHold
        invariant was + goal.0 == reliableMessages + Released(rxRelNextDeliver, rxRelHold).0
        invariant goal.1 == Released(rxRelNextDeliver, rxRelHold).1 && goal.2 == Released(rxRelNextDeliver, rxRelHold).2
        decreases rxRelHold.Keys
      {
        var m := rxRelHold[rxRelNextDeliver];
        ghost var rest := Released(Add32(rxRelNextDeliver, 1), rxRelHold - {rxRelNextDeliver}).0;
        assert reliableMessages + ([m] + rest) == (reliableMessages + [m]) + rest;
        rxRelHold := rxRelHold - {rxRelNextDeliver};
        rxRelNextDeliver := Add32(rxRelNextDeliver, 1);
        reliableMessages := reliableMessages + [m];
      }
      assert reliableMessages + [] == reliableMessages;
    }

    /** The reliable cases of HandleAuthenticated: judge, keep, and release what follows on. */
    method ReliableArrived(m: Message) returns (isFresh: bool, ack: bool)
      requires Valid()
      modifies this`rxRelHold, this`rxRelNextDeliver, this`reliableMessages, rxRel
      ensures (RxState(), isFresh, ack) == Arrived(old(RxState()), m, params.reliableWindow)
    {
      isFresh, ack := false, false;
      var verdict := rxRel.Classify(m.seqNo);
      if verdict == IsDuplicate {
        ack := true;
      } else if verdict == IsFresh {
        var room := !onMessage || |rxRelHold| < params.reliableWindow || m.seqNo == rxRelNextDeliver;
        if room {
          isFresh := rxRel.Accept(m.seqNo);
          ack := isFresh;
          if isFresh && onMessage {
            rxRelHold := rxRelHold[m.seqNo := m];
            DeliverReliableInOrder();
          }
        }
      }
    }

    method Heard(d: Datagram, isFresh: bool, from: nat, nowMs: int)
      modifies this`path
      ensures path == AfterHeard(old(path), d, isFresh, from, nowMs)
    {
      if !IsSealed(d.kind) && (!path.haveStamp || AsInt32(Sub32(d.stamp, path.maxStamp)) > 0) {
        path := path.(maxStamp := d.stamp, haveStamp := true);
      }
      if isFresh {
        path := path.(lastAuthRxMs := nowMs, peer := from);
      }
    }

    method AckReceived(seqNo: uint32, nowMs: int)
      modifies this`outstanding, this`rtoBackoff, this`srttMs, this`rttvarMs
      ensures State() == AfterAckReceived(old(State()), seqNo, nowMs)
    {
      hide RxState, KeyState, Without, RttSampled;
      ghost var t := TimerState();
      var i := 0;
      while i < |outstanding|
        invariant 0 <= i <= |outstanding| && outstanding == old(outstanding) && TimerState() == t
        invariant AckSampled(outstanding, seqNo, nowMs, t) == AckSampled(outstanding[i..], seqNo, nowMs, t)
      {
        var o := outstanding[i];
        if o.seqNo == seqNo && o.attempts == 0 {
          NoteRttSample(nowMs - o.firstSentMs);
          break;
        }
        assert outstanding[i..][1..] == outstanding[i + 1..];
        i := i + 1;
      }
      EraseOutstanding(seqNo, false);
    }

    method HandleDatagram(d: Datagram, opens: bool, from: nat, nowMs: int)
      requires Valid()
      modifies this, rxBe, rxRel
      ensures Valid()
      ensures State() == AfterDatagram(old(State()), d, opens, from, nowMs, params)
    {
      if IsSealed(d.kind) {
        if sealing && d.auth.Aead? && opens {
          HandleAuthenticated(d, from, nowMs);
        }
        return;
      }
      if d.auth != Mac(binderKey) {
        if preUpgradeKey.Some? && d.auth == Mac(preUpgradeKey.value) {
          HandlePreUpgradeKeyPacket(d, nowMs);
        }
        return;
      }
      HandleAuthenticated(d, from, nowMs);
    }

    method HandlePreUpgradeKeyPacket(d: Datagram, nowMs: int)
      requires preUpgradeKey.Some?
      modifies this`outstanding, this`wire
      ensures State() == AfterPreUpgradeKey(old(State()), d, nowMs, params)
    {
      if !AcceptSkew(d.stamp, nowMs, params.skewMs) {
        return;
      }
      if d.kind.Ack? {
        EraseOutstanding(d.seqNo, true);
        return;
      }
      var verdict := rxRel.Classify(d.seqNo);
      if d.kind.PlainReliable? && verdict == IsDuplicate {
        SendPacket(Ack, d.seqNo, [], nowMs, preUpgradeKey.value);
      }
    }

    method RefusePlainAfterKeys(d: Datagram, nowMs: int) returns (refused: bool)
      modifies this`wire
      ensures refused <==> sealing && (d.kind.PlainBestEffort? || d.kind.PlainReliable?)
      ensures State() == if refused && d.kind.PlainReliable? && Judge(old(rxRel.State()), d.seqNo) == IsDuplicate
        then old(State()).(wire := old(wire) + [AckOf(old(State()), d.seqNo, nowMs, binderKey)]) else old(State())
    {
      if !sealing || IsSealed(d.kind) {
        return false;
      }
      if d.kind.PlainBestEffort? {
        return true;
      }
      if d.kind.PlainReliable? {
        var verdict := rxRel.Classify(d.seqNo);
        if verdict == IsDuplicate {
          SendPacket(Ack, d.seqNo, [], nowMs, binderKey);
        }
        return true;
      }
      return false;
    }

    method HandleAuthenticated(d: Datagram, from: nat, nowMs: int)
      requires Valid()
      modifies this, rxBe, rxRel
      ensures Valid()
      ensures State() == AfterAuthenticated(old(State()), d, from, nowMs, params)
    {
      hide AcceptSkew, Dispatched, Emit, Judge;
      if !IsSealed(d.kind) && !AcceptSkew(d.stamp, nowMs, params.skewMs) {
        return;
      }
      var refused := RefusePlainAfterKeys(d, nowMs);
      if refused {
        return;
      }
      Dispatch(d, from, nowMs);
    }

    /** HandleAuthenticated past its checks. */
    method Dispatch(d: Datagram, from: nat, nowMs: int)
      requires Valid()
      modifies this, rxBe, rxRel
      ensures Valid()
      ensures State() == Dispatched(old(State()), d, from, nowMs, params)
    {
      hide AfterBestEffort, AfterReliable, AfterHeard, AfterAckReceived;
      if d.kind.DataBestEffort? || d.kind.PlainBestEffort? {
        BestEffortData(d, from, nowMs);
      } else if IsReliable(d.kind) {
        ReliableData(d, from, nowMs);
      } else {
        Heard(d, NewerStamp(path, d.stamp), from, nowMs);
        if d.kind.Ack? {
          AckReceived(d.seqNo, nowMs);
        } else if d.kind.Close? && (authenticated || params.dialerBackoff) {
          closed := true;
        }
      }
    }

    method BestEffortData(d: Datagram, from: nat, nowMs: int)
      requires Valid()
      modifies this`path, this`bestEffortMessages, rxBe
      ensures State() == AfterBestEffort(old(State()), d, from, nowMs)
    {
      hide AfterAccept, AfterHeard;
      var isFresh := rxBe.Accept(d.seqNo);
      Heard(d, isFresh, from, nowMs);
      if isFresh && onMessage {
        bestEffortMessages := bestEffortMessages + [Message(d.seqNo, IsSealed(d.kind), d.payload)];
      }
    }

    method ReliableData(d: Datagram, from: nat, nowMs: int)
      requires Valid()
      modifies this`path, this`rxRelHold, this`rxRelNextDeliver, this`reliableMessages, this`wire, rxRel
      ensures State() == AfterReliable(old(State()), d, from, nowMs, params)
    {
      hide Arrived, AfterHeard, Emit;
      var isFresh, ack := ReliableArrived(Message(d.seqNo, IsSealed(d.kind), d.payload));
      Heard(d, isFresh, from, nowMs);
      if ack {
        SendPacket(Ack, d.seqNo, [], nowMs, binderKey);
      }
    }
  }
}
