/**
 One ADP association (src/L1/Connection.cpp): its reliable mode, its keys and its timers.

 `Conn` is what an association remembers, in parts; the functions on it say what each
 operation makes of it. The cryptography is ideal: a datagram verifies under the key it was
 made with and no other, and whether a sealed one opens (keys may have moved on) is told
 to `HandleDatagram` by its caller.
 */
module Adp {
  import opened Words
  import opened Replay

  const RTO_GRANULARITY_MS := 10
  const MAX_RTO_MS := 2000
  const PRE_AUTH_MAX_RTX := 2
  const PRE_AUTH_DIAL_MAX_RTX := 6
  const MAX_PAYLOAD := 1199
  const MAX_SEALED_PAYLOAD := 1203
  const MAX_BACKOFF := 8
  const LAST_SEQ: uint32 := 0xffff_ffff

  datatype PacketType = DataBestEffort | DataReliable | Ack | Close | Keepalive | PlainBestEffort | PlainReliable

  predicate IsSealed(t: PacketType) {
    t.DataBestEffort? || t.DataReliable?
  }

  predicate IsReliable(t: PacketType) {
    t.DataReliable? || t.PlainReliable?
  }

  /** What authenticates a datagram: an HMAC under a key, or the session's AEAD. */
  datatype Auth = Mac(key: nat) | Aead
  datatype Datagram = Datagram(kind: PacketType, seqNo: uint32, stamp: uint32, payload: Bytes, auth: Auth)
  datatype Message = Message(seqNo: uint32, isSealed: bool, payload: Bytes)

  datatype Params = Params(
    reliableWindow: nat, replayWindow: nat, rtxIntervalMs: int, maxRtx: int, skewMs: int,
    dialerBackoff: bool, reduceRtxUntilAuthenticated: bool)

  datatype Keys = Keys(authenticated: bool, maxRtx: int, binder: nat, preUpgrade: Option<nat>, sealing: bool)
  datatype Timer = Timer(backoff: int, srttMs: int, rttvarMs: int)
  datatype Outgoing = Outgoing(
    kind: PacketType, beforeUpgrade: bool, seqNo: uint32, payload: Bytes,
    nextRtxMs: int, attempts: nat, baseBackoff: nat, firstSentMs: int)

  /** The reliable receiving side: what was seen, what waits, and what OnMessage was given. */
  datatype Rx = Rx(window: Window, next: uint32, hold: map<uint32, Message>, handler: bool, messages: seq<Message>)

  // ------------------------------------------------------------ timers

  /** C++ integer division by a positive number: truncates toward zero. */
  function TruncDiv(a: int, b: int): int
    requires b > 0
  {
    if a >= 0 then a / b else -((-a) / b)
  }

  function RtoMs(t: Timer, p: Params): int {
    if t.srttMs < 0 then p.rtxIntervalMs
    else Clamp(t.srttMs + Max(RTO_GRANULARITY_MS, 4 * t.rttvarMs), p.rtxIntervalMs, Max(MAX_RTO_MS, p.rtxIntervalMs))
  }

  /** x << n. */
  function ShiftLeft(x: int, n: nat): int {
    if n == 0 then x else 2 * ShiftLeft(x, n - 1)
  }

  function RetransmitIntervalMs(k: Keys, t: Timer, p: Params, doublings: nat): int {
    if k.authenticated then
      Min(ShiftLeft(RtoMs(t, p), Min(doublings, MAX_BACKOFF)), Max(MAX_RTO_MS, p.rtxIntervalMs))
    else if !p.dialerBackoff then p.rtxIntervalMs
    else ShiftLeft(p.rtxIntervalMs, Min(doublings, 16))
  }

  /** NoteRttSample: a clean round trip (RFC 6298 sections 2.2 and 2.3), which clears the back-off. */
  function RttSampled(t: Timer, rttMs: int): Timer {
    var sample := if rttMs < 0 then 0 else rttMs;
    if t.srttMs < 0 then Timer(0, sample, sample / 2)
    else
      var error := if sample > t.srttMs then sample - t.srttMs else t.srttMs - sample;
      Timer(0, t.srttMs + TruncDiv(sample - t.srttMs, 8), t.rttvarMs + TruncDiv(error - t.rttvarMs, 4))
  }

  // ------------------------------------------------------------ wire timestamps

  function TruncTs(nowMs: int): uint32 {
    nowMs % U32
  }

  /** static_cast<int32_t> of a uint32_t. */
  function AsInt32(x: uint32): int {
    if x < 0x8000_0000 then x else x - U32
  }

  predicate AcceptSkew(stamp: uint32, nowMs: int, skewMs: int) {
    -skewMs <= AsInt32(Sub32(TruncTs(nowMs), stamp)) <= skewMs
  }

  // ------------------------------------------------------------ sending

  function Emit(k: Keys, kind: PacketType, seqNo: uint32, payload: Bytes, nowMs: int, key: nat): Datagram {
    if IsSealed(kind) then Datagram(kind, seqNo, 0, payload, Aead)
    else Datagram(kind, seqNo, TruncTs(nowMs), payload, Mac(key))
  }

  datatype SendResult = Ok | ErrClosed | ErrPayloadTooLarge | ErrSeqWrap | ErrWindowFull

  function ReliableOutgoing(k: Keys, t: Timer, p: Params, seqNo: uint32, payload: Bytes, nowMs: int): Outgoing
    requires t.backoff >= 0
  {
    var base := if k.authenticated then t.backoff else 0;
    Outgoing(if k.sealing then DataReliable else PlainReliable, k.preUpgrade.None?, seqNo, payload,
             nowMs + RetransmitIntervalMs(k, t, p, base), 0, base, nowMs)
  }

  // ------------------------------------------------------------ retransmits

  predicate Resends(o: Outgoing, nowMs: int, k: Keys) {
    nowMs >= o.nextRtxMs && o.attempts < k.maxRtx
  }

  function Resent(o: Outgoing, nowMs: int, k: Keys, t: Timer, p: Params): Outgoing {
    if Resends(o, nowMs, k) then
      o.(attempts := o.attempts + 1,
         nextRtxMs := nowMs + RetransmitIntervalMs(k, t, p, o.baseBackoff + o.attempts + 1))
    else o
  }

  /** The key a resend goes under: the one it first went out under, for a plain packet from before the upgrade. */
  function ResendKey(o: Outgoing, k: Keys): nat {
    if o.beforeUpgrade && k.preUpgrade.Some? && !IsSealed(o.kind) then k.preUpgrade.value else k.binder
  }

  function ResentAll(q: seq<Outgoing>, nowMs: int, k: Keys, t: Timer, p: Params): seq<Outgoing> {
    if q == [] then []
    else ResentAll(q[..|q| - 1], nowMs, k, t, p) + [Resent(q[|q| - 1], nowMs, k, t, p)]
  }

  function ResendDatagrams(q: seq<Outgoing>, nowMs: int, k: Keys): seq<Datagram> {
    if q == [] then []
    else
      var o := q[|q| - 1];
      ResendDatagrams(q[..|q| - 1], nowMs, k) +
      (if Resends(o, nowMs, k) then [Emit(k, o.kind, o.seqNo, o.payload, nowMs, ResendKey(o, k))] else [])
  }

  /** The back-off a new packet will start from: the most any resend has backed off since a clean round trip. */
  function BackedOff(q: seq<Outgoing>, nowMs: int, k: Keys, backoff: int): int {
    if q == [] then backoff
    else
      var b := BackedOff(q[..|q| - 1], nowMs, k, backoff);
      var o := q[|q| - 1];
      if Resends(o, nowMs, k) && k.authenticated then Max(b, Min(o.baseBackoff + o.attempts + 1, MAX_BACKOFF)) else b
  }

  predicate GivenUp(o: Outgoing, nowMs: int, k: Keys) {
    o.attempts >= k.maxRtx && nowMs >= o.nextRtxMs
  }

  /** How many packets at the front have failed for good. */
  function LostAtFront(q: seq<Outgoing>, nowMs: int, k: Keys): nat {
    if q != [] && GivenUp(q[0], nowMs, k) then 1 + LostAtFront(q[1..], nowMs, k) else 0
  }

  lemma {:induction false} LostFits(q: seq<Outgoing>, nowMs: int, k: Keys)
    ensures LostAtFront(q, nowMs, k) <= |q|
  {
    if q != [] { LostFits(q[1..], nowMs, k); }
  }

  // ------------------------------------------------------------ acks

  function Without(q: seq<Outgoing>, seqNo: uint32, onlyBeforeUpgrade: bool): seq<Outgoing> {
    if q == [] then []
    else
      var o := q[|q| - 1];
      Without(q[..|q| - 1], seqNo, onlyBeforeUpgrade) +
      (if o.seqNo == seqNo && (o.beforeUpgrade || !onlyBeforeUpgrade) then [] else [o])
  }

  /** The timer after an ack: a sample from the first packet of that number not resent (Karn's rule). */
  function AckSampled(q: seq<Outgoing>, seqNo: uint32, nowMs: int, t: Timer): Timer {
    if q == [] then t
    else if q[0].seqNo == seqNo && q[0].attempts == 0 then RttSampled(t, nowMs - q[0].firstSentMs)
    else AckSampled(q[1..], seqNo, nowMs, t)
  }

  // ------------------------------------------------------------ reliable receive

  /** DeliverReliableInOrder's loop: what leaves the hold, and what then stays. */
  function Released(next: uint32, hold: map<uint32, Message>): (seq<Message>, uint32, map<uint32, Message>)
    decreases hold.Keys
  {
    if next !in hold then ([], next, hold)
    else
      var (rest, n, h) := Released(Add32(next, 1), hold - {next});
      ([hold[next]] + rest, n, h)
  }

  function Drain(rx: Rx): Rx {
    if !rx.handler then rx
    else
      var (out, next, hold) := Released(rx.next, rx.hold);
      rx.(messages := rx.messages + out, next := next, hold := hold)
  }

  predicate HasRoom(rx: Rx, seqNo: uint32, reliableWindow: nat) {
    !rx.handler || |rx.hold| < reliableWindow || seqNo == rx.next
  }

  /** A reliable data packet arrives: the receiving side after it, whether it was fresh, whether it is acked. */
  function Arrived(rx: Rx, m: Message, reliableWindow: nat): (Rx, bool, bool) {
    match Judge(rx.window, m.seqNo)
    case IsDuplicate => (rx, false, true)
    case IsTooFar => (rx, false, false)
    case IsFresh =>
      if !HasRoom(rx, m.seqNo, reliableWindow) then (rx, false, false)
      else
        var (w, taken) := AfterAccept(rx.window, m.seqNo);
        if !taken then (rx.(window := w), false, false)
        else if !rx.handler then (rx.(window := w), true, true)
        else (Drain(rx.(window := w, hold := rx.hold[m.seqNo := m])), true, true)
  }

  // ------------------------------------------------------------ what timers and stamps mean

  /** Skew is judged on the true difference of the clocks whenever that is under 2^31 ms. */
  lemma AcceptSkewMeans(sentMs: int, nowMs: int, skewMs: int)
    requires 0 <= skewMs < 0x8000_0000 && -0x8000_0000 < nowMs - sentMs < 0x8000_0000
    ensures AcceptSkew(TruncTs(sentMs), nowMs, skewMs) <==> -skewMs <= nowMs - sentMs <= skewMs
  {
    ModDifference(nowMs, sentMs);
  }

  lemma ModDifference(a: int, b: int)
    requires -0x8000_0000 < a - b < 0x8000_0000
    ensures AsInt32(Sub32(TruncTs(a), TruncTs(b))) == a - b
  {
    var qa, qb := a / U32, b / U32;
    assert a == qa * U32 + TruncTs(a) && b == qb * U32 + TruncTs(b);
    assert qa - 1 <= qb <= qa + 1;
  }

  /** An authenticated association waits at least rtx_interval_ms and at most the larger of it and kMaxRtoMs, never less for more doublings. */
  lemma IntervalBounds(k: Keys, t: Timer, p: Params, a: nat, b: nat)
    requires k.authenticated && 0 <= p.rtxIntervalMs && a <= b
    ensures p.rtxIntervalMs <= RetransmitIntervalMs(k, t, p, a)
         <= RetransmitIntervalMs(k, t, p, b) <= Max(MAX_RTO_MS, p.rtxIntervalMs)
  {
    var rto := RtoMs(t, p);
    ShiftGrows(rto, 0, Min(a, MAX_BACKOFF));
    ShiftGrows(rto, Min(a, MAX_BACKOFF), Min(b, MAX_BACKOFF));
  }

  lemma {:induction false} ShiftGrows(x: int, a: nat, b: nat)
    requires 0 <= x && a <= b
    ensures 0 <= ShiftLeft(x, a) <= ShiftLeft(x, b)
    decreases b
  {
    if a < b {
      ShiftGrows(x, a, b - 1);
    } else if b > 0 {
      ShiftGrows(x, b - 1, b - 1);
    }
  }

  lemma ShiftOf8(x: int)
    ensures ShiftLeft(x, 8) == 256 * x
  {
    assert ShiftLeft(x, 1) == 2 * x && ShiftLeft(x, 3) == 8 * x && ShiftLeft(x, 5) == 32 * x && ShiftLeft(x, 7) == 128 * x;
  }
}
