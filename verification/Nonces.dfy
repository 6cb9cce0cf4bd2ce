/**
 One plaintext per nonce: the rule of include/amp/L1/PacketProtection.h:33-34, kept by
 an association through resends and rekeys (src/L1/Connection.cpp:234-251, 324-371,
 408-413) and by a carrier link's packet numbers (src/link/PeerLink.cpp:343-362).
 */
module Nonces {
  import opened Words
  import opened Replay
  import opened Adp
  import opened Association
  import opened AdpProtocol
  import AdpSafety
  import S = Session

  const WIRE_VERSION: nat := 2

  predicate IsBestEffort(t: PacketType) {
    t.DataBestEffort? || t.PlainBestEffort?
  }

  /** Only data packets are sealed, and a sealed packet has no time stamp. */
  ghost predicate ShapeOk(wire: seq<Datagram>) {
    forall i :: 0 <= i < |wire| && wire[i].auth.Aead? ==> IsSealed(wire[i].kind) && wire[i].stamp == 0
  }

  /** Best-effort numbers rise with every packet. */
  ghost predicate BestEffortOk(wire: seq<Datagram>, txBe: nat) {
    && (forall i :: 0 <= i < |wire| && IsBestEffort(wire[i].kind) ==> 1 <= wire[i].seqNo <= txBe)
    && (forall i, j :: 0 <= i < j < |wire| && IsBestEffort(wire[i].kind) && IsBestEffort(wire[j].kind) ==>
          wire[i].seqNo < wire[j].seqNo)
  }

  ghost predicate NumbersOk(s: Side) {
    ShapeOk(s.c.wire) && BestEffortOk(s.c.wire, s.c.txBe)
  }

  /** No best-effort packet, and shaped right. */
  ghost predicate Quiet(d: Datagram) {
    !IsBestEffort(d.kind) && (d.auth.Aead? ==> IsSealed(d.kind) && d.stamp == 0)
  }

  lemma QuietKeepsNumbers(wire: seq<Datagram>, extra: seq<Datagram>, txBe: nat)
    requires ShapeOk(wire) && BestEffortOk(wire, txBe)
    requires forall i :: 0 <= i < |extra| ==> Quiet(extra[i])
    ensures ShapeOk(wire + extra) && BestEffortOk(wire + extra, txBe)
  {
  }

  lemma {:induction false} ResendsAreQuiet(q: seq<Outgoing>, nowMs: int, k: Keys)
    requires forall i :: 0 <= i < |q| ==> IsReliable(q[i].kind)
    ensures forall i :: 0 <= i < |ResendDatagrams(q, nowMs, k)| ==> Quiet(ResendDatagrams(q, nowMs, k)[i])
  {
    if q != [] {
      var o, front := q[|q| - 1], ResendDatagrams(q[..|q| - 1], nowMs, k);
      ResendsAreQuiet(q[..|q| - 1], nowMs, k);
      assert Quiet(Emit(k, o.kind, o.seqNo, o.payload, nowMs, ResendKey(o, k)));
      hide Emit, Quiet;
      assert forall i :: 0 <= i < |front| ==> ResendDatagrams(q, nowMs, k)[i] == front[i];
    }
  }

  lemma ActKeepsNumbers(me: Side, peer: Side, act: Action, p: Params)
    requires SenderOk(me, p) && NumbersOk(me) && Possible(peer, act)
    ensures NumbersOk(Act(me, act, p))
  {
    match act {
      case Send(reliable, payload, nowMs) =>
        hide RetransmitIntervalMs;
        var (c, r) := AfterSend(me.c, reliable, payload, nowMs, p);
        if r.Ok? && reliable {
          QuietKeepsNumbers(me.c.wire, [c.wire[|c.wire| - 1]], me.c.txBe);
        }
      case Tick(nowMs) =>
        AllReliable(me.c.outstanding, me.sent, me.c.wire, p);
        ResendsAreQuiet(me.c.outstanding, nowMs, me.c.keys);
        QuietKeepsNumbers(me.c.wire, ResendDatagrams(me.c.outstanding, nowMs, me.c.keys), me.c.txBe);
        hide SenderOk, BestEffortOk, ShapeOk;
      case Upgrade(key) =>
      case Protect =>
      case Control(close, payload, nowMs) =>
        if !me.c.closed {
          QuietKeepsNumbers(me.c.wire, [Emit(me.c.keys, if close then Close else Keepalive, 0, payload, nowMs, me.c.keys.binder)], me.c.txBe);
        }
        hide SenderOk, BestEffortOk, ShapeOk;
      case Deliver(d, opens, from, nowMs) =>
        DatagramEffect(me.c, d, opens, from, nowMs, p);
        DatagramLeavesBestEffort(me.c, d, opens, from, nowMs, p);
        var t := AfterDatagram(me.c, d, opens, from, nowMs, p);
        if t.wire != me.c.wire {
          var key :| t.wire == me.c.wire + [AckOf(me.c, d.seqNo, nowMs, key)];
          QuietKeepsNumbers(me.c.wire, [AckOf(me.c, d.seqNo, nowMs, key)], me.c.txBe);
        }
        hide SenderOk, BestEffortOk, ShapeOk, AfterDatagram, Emit;
    }
  }

  lemma DatagramLeavesBestEffort(c: Conn, d: Datagram, opens: bool, from: nat, nowMs: int, p: Params)
    ensures AfterDatagram(c, d, opens, from, nowMs, p).txBe == c.txBe
  {
    hide Arrived, AckSampled, AcceptSkew, AfterHeard, Judge, AfterAccept, Emit, Without;
  }

  lemma {:induction false} RunKeepsNumbers(run: seq<System>, p: Both)
    requires Run(run, p)
    ensures NumbersOk(run[|run| - 1].x) && NumbersOk(run[|run| - 1].y)
  {
    if |run| == 1 {
      var key, px, py :| run[0] == System(FreshSide(p.x, key, py), FreshSide(p.y, key, px));
    } else {
      var front := run[..|run| - 1];
      assert forall i :: 0 <= i < |front| - 1 ==> Next(front[i], front[i + 1], p);
      RunKeepsNumbers(front, p);
      AdpSafety.RunKeepsInv(front, p);
      StepKeepsNumbers(front[|front| - 1], run[|run| - 1], p);
    }
  }

  lemma StepKeepsNumbers(s: System, t: System, p: Both)
    requires Inv(s, p) && NumbersOk(s.x) && NumbersOk(s.y) && Next(s, t, p)
    ensures NumbersOk(t.x) && NumbersOk(t.y)
  {
    hide Act, NumbersOk, SenderOk, ReceiverOk;
    var act: Action :|
      || (Possible(s.y, act) && t == System(Act(s.x, act, p.x), s.y))
      || (Possible(s.x, act) && t == System(s.x, Act(s.y, act, p.y)));
    if Possible(s.y, act) && t == System(Act(s.x, act, p.x), s.y) {
      ActKeepsNumbers(s.x, s.y, act, p.x);
    } else {
      ActKeepsNumbers(s.y, s.x, act, p.y);
    }
  }

  // ------------------------------------------------------------ a direct link

  function SpaceOf(t: PacketType): S.Space {
    if t.DataReliable? then S.Reliable else S.BestEffort
  }

  function TypeByte(t: PacketType): uint8 {
    match t
    case DataBestEffort => 0
    case DataReliable => 1
    case Ack => 2
    case Close => 3
    case Keepalive => 4
    case PlainBestEffort => 5
    case PlainReliable => 6
  }

  /** EncodeSealedHeader: version and type, association id, packet number. */
  function SealedHeader(t: PacketType, assoc: Bytes, number: uint32): Bytes {
    [WIRE_VERSION * 16 + TypeByte(t)] + assoc + LeOf32(number)
  }

  /** SealDatagram, by a session that stands at `epoch` when the packet goes out. */
  function SealedAt(secret: S.Secret, initiator: bool, assoc: Bytes, epoch: uint32, d: Datagram): S.Sealed {
    S.Sealed(S.SendKey(secret, initiator, epoch),
             S.Nonce(S.OutDirection(initiator), SpaceOf(d.kind), epoch, d.seqNo),
             SealedHeader(d.kind, assoc, d.seqNo), d.payload)
  }

  /** Two sealed packets of one end with the same space and number are one packet. */
  lemma SameNumberSamePacket(run: seq<System>, p: Both, i: nat, j: nat)
    requires Run(run, p) && i < |run[|run| - 1].x.c.wire| && j < |run[|run| - 1].x.c.wire|
    requires var w := run[|run| - 1].x.c.wire;
      w[i].auth.Aead? && w[j].auth.Aead? && SpaceOf(w[i].kind) == SpaceOf(w[j].kind) && w[i].seqNo == w[j].seqNo
    ensures run[|run| - 1].x.c.wire[i] == run[|run| - 1].x.c.wire[j]
  {
    RunKeepsNumbers(run, p);
    AdpSafety.RunKeepsInv(run, p);
    var x := run[|run| - 1].x;
    var w := x.c.wire;
    assert DatagramsOk(w, x.sent);
    assert w[i] in w && w[j] in w;
  }

  /**
   Whatever epochs the session passes through, and whenever: two packets an end seals
   under the same key and nonce are the same packet, header and plaintext.
   */
  lemma OnePlaintextPerNonce(
    run: seq<System>, p: Both, secret: S.Secret, initiator: bool, assoc: Bytes, i: nat, epochI: uint32, j: nat, epochJ: uint32)
    requires Run(run, p) && i < |run[|run| - 1].x.c.wire| && j < |run[|run| - 1].x.c.wire|
    requires run[|run| - 1].x.c.wire[i].auth.Aead? && run[|run| - 1].x.c.wire[j].auth.Aead?
    ensures var w := run[|run| - 1].x.c.wire;
      var a := SealedAt(secret, initiator, assoc, epochI, w[i]);
      var b := SealedAt(secret, initiator, assoc, epochJ, w[j]);
      a.nonce == b.nonce ==> a == b
  {
    var w := run[|run| - 1].x.c.wire;
    var a := SealedAt(secret, initiator, assoc, epochI, w[i]);
    var b := SealedAt(secret, initiator, assoc, epochJ, w[j]);
    var way := S.OutDirection(initiator);
    if a.nonce == b.nonce {
      S.NonceInjective(way, SpaceOf(w[i].kind), epochI, w[i].seqNo, way, SpaceOf(w[j].kind), epochJ, w[j].seqNo);
      SameNumberSamePacket(run, p, i, j);
    }
  }

  // ------------------------------------------------------------ a carrier-backed link

  /** A frame sealed under a carrier packet number. */
  datatype CarrierPacket = CarrierPacket(reliable: bool, number: uint32, epoch: uint32, frame: Bytes)

  datatype Counters = Counters(rel: uint32, be: uint32)

  function AfterSeal(c: Counters, reliable: bool): Option<Counters> {
    if reliable then (if c.rel == LAST_SEQ then None else Some(c.(rel := c.rel + 1)))
    else if c.be == LAST_SEQ then None
    else Some(c.(be := c.be + 1))
  }

  /** Carrier packets' clear header: kind, number. */
  function CarrierHeader(reliable: bool, number: uint32): Bytes {
    [if reliable then 5 else 1] + LeOf32(number)
  }

  function CarrierSpace(reliable: bool): S.Space {
    if reliable then S.CarrierReliable else S.CarrierBestEffort
  }

  function CarrierSealed(secret: S.Secret, initiator: bool, q: CarrierPacket): S.Sealed {
    S.Sealed(S.SendKey(secret, initiator, q.epoch),
             S.Nonce(S.OutDirection(initiator), CarrierSpace(q.reliable), q.epoch, q.number),
             CarrierHeader(q.reliable, q.number), q.frame)
  }

  class CarrierSealer {
    const secret: S.Secret
    const initiator: bool
    var epoch: uint32
    var txRel: uint32
    var txBe: uint32
    /** Every packet sealed so far. */
    ghost var packets: seq<CarrierPacket>

    /** Numbers rise within each space, from 1 to the counter. */
    ghost predicate Valid()
      reads this
    {
      && (forall i :: 0 <= i < |packets| ==> 1 <= packets[i].number <= if packets[i].reliable then txRel else txBe)
      && (forall i, j :: 0 <= i < j < |packets| && packets[i].reliable == packets[j].reliable ==>
            packets[i].number < packets[j].number)
    }

    constructor (secret: S.Secret, initiator: bool)
      ensures Valid() && packets == [] && txRel == 0 && txBe == 0 && this.secret == secret && this.initiator == initiator
    {
      this.secret, this.initiator, epoch, txRel, txBe, packets := secret, initiator, 1, 0, 0, [];
    }

    method Rekeyed(target: uint32)
      requires Valid()
      modifies this`epoch
      ensures Valid() && epoch == target
    {
      epoch := target;
    }

    /** Counts, then seals; a counter that ran out refuses. */
    method SealCarrierFrame(reliable: bool, frame: Bytes) returns (out: Option<S.Sealed>)
      requires Valid()
      modifies this`txRel, this`txBe, this`packets
      ensures Valid()
      ensures match AfterSeal(old(Counters(txRel, txBe)), reliable)
        case None => out == None && packets == old(packets) && Counters(txRel, txBe) == old(Counters(txRel, txBe))
        case Some(c) =>
          var q := CarrierPacket(reliable, if reliable then c.rel else c.be, epoch, frame);
          Counters(txRel, txBe) == c && packets == old(packets) + [q] && out == Some(CarrierSealed(secret, initiator, q))
    {
      if (if reliable then txRel else txBe) == LAST_SEQ {
        return None;
      }
      if reliable {
        txRel := txRel + 1;
      } else {
        txBe := txBe + 1;
      }
      var number := if reliable then txRel else txBe;
      var nonce := S.PacketNonce(S.OutDirection(initiator), CarrierSpace(reliable), epoch, number);
      packets := packets + [CarrierPacket(reliable, number, epoch, frame)];
      out := Some(S.Sealed(S.SendKey(secret, initiator, epoch), nonce[..], CarrierHeader(reliable, number), frame));
    }

    /** No two packets a carrier-backed link seals share a nonce, through any rekeys. */
    lemma CarrierNoncesDistinct(i: nat, j: nat)
      requires Valid() && i < j < |packets|
      ensures CarrierSealed(secret, initiator, packets[i]).nonce != CarrierSealed(secret, initiator, packets[j]).nonce
    {
      var a, b := packets[i], packets[j];
      var way := S.OutDirection(initiator);
      if S.Nonce(way, CarrierSpace(a.reliable), a.epoch, a.number) == S.Nonce(way, CarrierSpace(b.reliable), b.epoch, b.number) {
        S.NonceInjective(way, CarrierSpace(a.reliable), a.epoch, a.number, way, CarrierSpace(b.reliable), b.epoch, b.number);
        assert false;
      }
    }
  }

  /** Nor does one ever share a nonce with a direct link's packet. */
  lemma CarrierNeverMeetsDirect(secret: S.Secret, initiator: bool, assoc: Bytes, epoch: uint32, d: Datagram, q: CarrierPacket)
    ensures SealedAt(secret, initiator, assoc, epoch, d).nonce != CarrierSealed(secret, initiator, q).nonce
  {
    var way := S.OutDirection(initiator);
    if S.Nonce(way, SpaceOf(d.kind), epoch, d.seqNo) == S.Nonce(way, CarrierSpace(q.reliable), q.epoch, q.number) {
      S.NonceInjective(way, SpaceOf(d.kind), epoch, d.seqNo, way, CarrierSpace(q.reliable), q.epoch, q.number);
      assert false;
    }
  }

  // ------------------------------------------------------------ the clear headers, byte by byte

  /** A sealed packet: version 2 and its type in a byte, the association, the number; a carrier packet: 5 or 1, the number. */
  lemma HeadersAre(t: PacketType, assoc: Bytes, number: uint32, reliable: bool)
    ensures SealedHeader(t, assoc, number) == [32 + (match t case DataBestEffort => 0 case DataReliable => 1 case Ack => 2 case Close => 3
                                                             case Keepalive => 4 case PlainBestEffort => 5 case PlainReliable => 6)] + assoc + LeOf32(number)
    ensures CarrierHeader(reliable, number) == (if reliable then [5] else [1]) + LeOf32(number)
  {
    hide LeOf32;
  }

  /** So a header tells what it heads. */
  lemma HeadersInjective(t: PacketType, assoc: Bytes, number: uint32, t': PacketType, assoc': Bytes, number': uint32)
    requires |assoc| == |assoc'| && SealedHeader(t, assoc, number) == SealedHeader(t', assoc', number')
    ensures t == t' && assoc == assoc' && number == number'
  {
    hide LeOf32;
    HeadersAre(t, assoc, number, true);
    HeadersAre(t', assoc', number', true);
    var a, b, n := SealedHeader(t, assoc, number), SealedHeader(t', assoc', number'), 1 + |assoc|;
    assert a[0] == b[0] && a[1..n] == assoc && b[1..n] == assoc';
    assert a[n..] == LeOf32(number) + [] && b[n..] == LeOf32(number') + [];
    RoundTrip32(number, []);
    RoundTrip32(number', []);
  }

  /** Each kind of carrier packet is numbered by one more than its last, up to 2^32 - 1 and no further; the other kind's number stays. */
  lemma NumberedInTurn(c: Counters, reliable: bool)
    ensures AfterSeal(c, reliable) ==
      if (if reliable then c.rel else c.be) == 0xFFFF_FFFF then None
      else Some(Counters(if reliable then c.rel + 1 else c.rel, if reliable then c.be else c.be + 1))
  {
  }
}
