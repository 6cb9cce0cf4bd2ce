/**
 Two muxes over a transport that keeps order: one end sends, the other receives,
 credit comes and goes, and other channels share the link. What channel `c` sent is
 kept as a history of its SendData calls; the receiver's place in it is a cursor.
 */
module MuxProtocol {
  import opened Words
  import opened Chunks
  import opened ChannelWire
  import opened SendQueue
  import opened Mux
  import R = Reassembly

  /** One SendData call that put frames in: all in one frame, or the first `sent` of its fragments. */
  datatype Call = Single(payload: Bytes) | Pieces(payload: Bytes, msgId: uint64, size: nat, sent: nat)

  ghost predicate CallOk(call: Call) {
    call.Pieces? ==>
      && call.size >= 1 && 0 < |call.payload| < U32
      && 1 <= call.sent <= Needed(|call.payload|, call.size) <= MAX_FRAGMENTS
  }

  function FrameCount(call: Call): nat {
    if call.Single? then 1 else call.sent
  }

  /** Every frame of the message went in. */
  predicate InFull(call: Call) {
    call.Single? || (call.size >= 1 && call.sent == Needed(|call.payload|, call.size))
  }

  /** Frame `i` of a call; it is the channel's frame `n`, counting from 0. */
  function FrameAt(call: Call, c: uint32, n: nat, i: nat): Frame
    requires CallOk(call) && i < FrameCount(call)
  {
    if call.Single? then Data(c, Add32(1, n), call.payload)
    else FragOf(c, Add32(1, n), call.msgId, call.payload, call.size, i)
  }

  ghost predicate CallsOk(calls: seq<Call>) {
    forall k :: 0 <= k < |calls| ==> CallOk(calls[k])
  }

  function Count(calls: seq<Call>): nat {
    if calls == [] then 0 else Count(calls[..|calls| - 1]) + FrameCount(calls[|calls| - 1])
  }

  /** The wires of a call whose first frame is the channel's frame `n`, from fragment `i` to before `j`. */
  function CallWires(call: Call, c: uint32, n: nat, i: nat, j: nat): seq<Bytes>
    requires CallOk(call) && i <= j <= FrameCount(call)
    decreases j - i
  {
    if i == j then [] else [WireOf(FrameAt(call, c, n + i, i))] + CallWires(call, c, n, i + 1, j)
  }

  /** Every wire channel `c` put in. */
  function Wires(calls: seq<Call>, c: uint32): seq<Bytes>
    requires CallsOk(calls)
  {
    if calls == [] then []
    else
      var front, call := calls[..|calls| - 1], calls[|calls| - 1];
      Wires(front, c) + CallWires(call, c, Count(front), 0, FrameCount(call))
  }

  /** The payloads whose SendData call succeeded. */
  function Payloads(calls: seq<Call>): seq<Bytes> {
    if calls == [] then []
    else
      var call := calls[|calls| - 1];
      Payloads(calls[..|calls| - 1]) + if InFull(call) then [call.payload] else []
  }

  /** The messages a full queue cut short: the receiver gets a beginning and never the rest. */
  function Stranded(calls: seq<Call>): set<uint64> {
    if calls == [] then {}
    else
      var call := calls[|calls| - 1];
      Stranded(calls[..|calls| - 1]) + if InFull(call) then {} else {call.msgId}
  }

  // ------------------------------------------------------------ the system

  /**
   The channel watched, and its past: `early` are the frames under its number that went in before its first payload,
   the OPEN or its answer last, and `heard` what was delivered under that number before.
   */
  datatype Config = Config(channel: uint32, capA: nat, maxFrame: nat, capB: nat, early: seq<Bytes>, heard: seq<Bytes>)

  /** `got`: how many of the frames end A handed over reached end B; `at` and `piece`: B's place in `calls`. */
  datatype System = System(a: MuxState, b: MuxState, got: nat, calls: seq<Call>, accepted: seq<Bytes>, at: nat, piece: nat)

  datatype Act =
    | ASend(id: uint32, payload: Bytes)
    | ACredit(credits: Credits)
    | AFlush
    | AOpen(protocol: Bytes, cls: uint8, maxMessage: nat, fixedId: Option<uint32>)
    | AReset(id: uint32)
    | AClose(id: uint32, reason: Bytes)
    | ASettings(opens: Openings)
    | AReceive(frame: Frame, nowMs: int)
    | BOpen(protocol: Bytes, cls: uint8, maxMessage: nat, fixedId: Option<uint32>)
    | BSend(id: uint32, payload: Bytes)
    | BReset(id: uint32)
    | BClose(id: uint32, reason: Bytes)
    | BSettings(opens: Openings)
    | BQueue(queue: SendState)
    | BArrival(nowMs: int)
    | BLoss
    | BSweep(id: uint32, nowMs: int, timeoutMs: int)

  /** The call a SendData leaves in the history. */
  function CallOf(s: MuxState, cfg: Config, id: uint32, payload: Bytes): seq<Call>
    requires cfg.maxFrame >= MIN_FRAME_BYTES
  {
    if id !in s.channels then []
    else
      var (t, verdict) := AfterSendData(s, cfg.capA, cfg.maxFrame, id, payload);
      if |payload| <= cfg.maxFrame - HEADER_BYTES then (if verdict == Done then [Single(payload)] else [])
      else
        var n := SentCount(s, cfg, id, payload);
        if n == 0 then [] else [Pieces(payload, s.nextMsgId, cfg.maxFrame - HEADER_BYTES - FRAG_FIELDS_BYTES, n)]
  }

  /** How many fragments a SendData too long for one frame got in. */
  function SentCount(s: MuxState, cfg: Config, id: uint32, payload: Bytes): nat
    requires cfg.maxFrame >= MIN_FRAME_BYTES && id in s.channels
  {
    var channel := s.channels[id];
    var size := cfg.maxFrame - HEADER_BYTES - FRAG_FIELDS_BYTES;
    if || channel.state != IsOpen || |payload| > channel.limits.maxMessage || Needed(|payload|, size) > MAX_FRAGMENTS
       || (channel.qos.Reliable? && s.queue.queuedBytes + |payload| > cfg.capA)
    then 0
    else SentFrom(s.queue, cfg.capA, id, channel.qos, channel.txSeq, s.nextMsgId, payload, size, 0).1
  }

  /** The payloads channel `c`'s handler got. */
  function DeliveredOn(delivered: seq<Delivery>, c: uint32): seq<Bytes> {
    if delivered == [] then []
    else
      var d := delivered[|delivered| - 1];
      DeliveredOn(delivered[..|delivered| - 1], c) + if d.channel == c then [d.payload] else []
  }

  /** How many of the channel's frames came off the transport. */
  function ReadSoFar(s: System, c: uint32): nat
    requires s.got <= |s.a.queue.handed|
  {
    |HandedOf(s.a.queue.handed[..s.got], c)|
  }

  /** B's place after the next frame of the channel. */
  function Moved(s: System): System {
    if s.at < |s.calls| && s.piece + 1 < FrameCount(s.calls[s.at]) then s.(piece := s.piece + 1)
    else s.(at := s.at + 1, piece := 0)
  }

  ghost function Next(s: System, act: Act, cfg: Config): System
    requires cfg.maxFrame >= MIN_FRAME_BYTES && Mux.Valid(s.a) && Mux.Valid(s.b)
  {
    match act
    case ASend(id, payload) =>
      var (a, verdict) := AfterSendData(s.a, cfg.capA, cfg.maxFrame, id, payload);
      if id != cfg.channel then s.(a := a)
      else
        s.(a := a, calls := s.calls + CallOf(s.a, cfg, id, payload),
           accepted := if verdict == Done then s.accepted + [payload] else s.accepted)
    case ACredit(credits) => s.(a := s.a.(queue := s.a.queue.(credits := credits)))
    case AFlush => s.(a := s.a.(queue := Flushed(s.a.queue)))
    case AOpen(protocol, cls, maxMessage, fixedId) => s.(a := AfterOpenOutbound(s.a, cfg.capA, protocol, cls, maxMessage, fixedId).0)
    case AReset(id) => if id in s.a.channels then s.(a := AfterReset(s.a, cfg.capA, id)) else s
    case AClose(id, reason) => s.(a := AfterClose(s.a, cfg.capA, id, reason).0)
    case ASettings(opens) => s.(a := s.a.(opens := opens))
    case AReceive(frame, nowMs) => s.(a := AfterFrame(s.a, cfg.capA, frame, nowMs).0)
    case BOpen(protocol, cls, maxMessage, fixedId) => s.(b := AfterOpenOutbound(s.b, cfg.capB, protocol, cls, maxMessage, fixedId).0)
    case BReset(id) => if id in s.b.channels then s.(b := AfterReset(s.b, cfg.capB, id)) else s
    case BClose(id, reason) => s.(b := AfterClose(s.b, cfg.capB, id, reason).0)
    case BSettings(opens) => s.(b := s.b.(opens := opens))
    case BQueue(queue) => s.(b := s.b.(queue := queue))
    case BSend(id, payload) => s.(b := AfterSendData(s.b, cfg.capB, cfg.maxFrame, id, payload).0)
    case BArrival(nowMs) =>
      if s.got >= |s.a.queue.handed| then s
      else
        var h := s.a.queue.handed[s.got];
        var t := s.(got := s.got + 1, b := AfterInbound(s.b, cfg.capB, h.wire, nowMs).0);
        if h.channel == cfg.channel && h.qos.Reliable? && ReadSoFar(s, cfg.channel) >= |cfg.early| then Moved(t) else t
    case BLoss =>
      if s.got < |s.a.queue.handed| && s.a.queue.handed[s.got].qos.BestEffort? then s.(got := s.got + 1) else s
    case BSweep(id, nowMs, timeoutMs) => s.(b := AfterSweep(s.b, id, nowMs, timeoutMs))
  }

  /** What the claim is about: neither end ends the channel, and no sweep takes the message under way. */
  ghost predicate Allowed(s: System, act: Act, cfg: Config)
    requires cfg.maxFrame >= MIN_FRAME_BYTES && Mux.Valid(s.a) && Mux.Valid(s.b)
  {
    && (act.AReset? || act.AReceive? || act.AClose? ==>
          cfg.channel in Next(s, act, cfg).a.channels && Next(s, act, cfg).a.channels[cfg.channel].state == IsOpen)
    && (act.BReset? || act.BClose? ==> act.id != cfg.channel)
    && (act.BSweep? && act.id == cfg.channel && act.id in s.b.channels && s.piece > 0 && s.at < |s.calls|
        && s.calls[s.at].Pieces? && s.calls[s.at].msgId in s.b.channels[act.id].partials ==>
          act.nowMs - s.b.channels[act.id].partials[s.calls[s.at].msgId].startedMs <= act.timeoutMs)
  }

  // ------------------------------------------------------------ labels

  /** A frame's wire names the channel it is queued under. */
  predicate Labelled(w: Bytes, id: uint32) {
    Decoded(w).Some? && Decoded(w).value.channel == id
  }

  /** Every frame under way is labelled right, and channel `c` has no best-effort ones. */
  ghost predicate LabelsOk(q: SendState, c: uint32) {
    && (forall i :: 0 <= i < |q.handed| ==>
          Labelled(q.handed[i].wire, q.handed[i].channel) && (q.handed[i].channel == c ==> q.handed[i].qos.Reliable?))
    && (forall id, i :: id in q.queues && 0 <= i < |q.queues[id]| ==> Labelled(q.queues[id][i], id))
  }

  lemma TurnKeepsLabels(q: SendState, c: uint32)
    requires q.order != [] && LabelsOk(q, c)
    ensures LabelsOk(Turn(q), c) && q.handed <= Turn(q).handed
  {
    hide Labelled;
  }

  lemma {:induction false} FlushKeepsLabels(q: SendState, c: uint32)
    requires LabelsOk(q, c)
    ensures LabelsOk(Flushed(q), c) && q.handed <= Flushed(q).handed
    decreases QueuedCount(q.queues), |q.order|
  {
    if q.order != [] && HasCredit(q.credits) {
      TurnShrinks(q);
      TurnKeepsLabels(q, c);
      FlushKeepsLabels(Turn(q), c);
    }
  }

  lemma OneMoreLabel(q: SendState, id: uint32, qos: Qos, w: Bytes, c: uint32)
    requires LabelsOk(q, c) && Labelled(w, id) && (id == c ==> qos.Reliable?)
    ensures LabelsOk(Transported(q, Handed(id, qos, w)), c) && LabelsOk(Enqueued(q, id, w), c)
  {
    hide Labelled;
    var t := Enqueued(q, id, w);
    forall c, i | c in t.queues && 0 <= i < |t.queues[c]|
      ensures Labelled(t.queues[c][i], c)
    {
      assert c != id ==> t.queues[c] == q.queues[c];
      assert c == id ==> t.queues[c] == QueueOf(q, id) + [w];
    }
  }

  lemma SendKeepsLabels(q: SendState, cap: nat, qos: Qos, f: Frame, c: uint32)
    requires LabelsOk(q, c) && Encodable(f) && (f.channel == c ==> qos.Reliable?)
    ensures var t := AfterSendWire(q, cap, f.channel, qos, WireOf(f)).0;
      LabelsOk(t, c) && q.handed <= t.handed
  {
    hide LabelsOk, Labelled, Flushed, WireOf, Encodable, Enqueued;
    WireLabelled(f);
    FlushKeepsLabels(q, c);
    OneMoreLabel(q, f.channel, qos, WireOf(f), c);
    OneMoreLabel(Flushed(q), f.channel, qos, WireOf(f), c);
    assert Enqueued(Flushed(q), f.channel, WireOf(f)).handed == Flushed(q).handed by { EnqueuedHandsNothing(Flushed(q), f.channel, WireOf(f)); }
  }

  lemma EnqueuedHandsNothing(q: SendState, id: uint32, w: Bytes)
    ensures Enqueued(q, id, w).handed == q.handed
  {
  }

  lemma WireLabelled(f: Frame)
    requires Encodable(f)
    ensures Labelled(WireOf(f), f.channel) && Decoded(WireOf(f)) == Some(f)
  {
    EncodedComesBack(f);
  }

  lemma DropKeepsLabels(q: SendState, id: uint32, c: uint32)
    requires LabelsOk(q, c)
    ensures LabelsOk(AfterDrop(q, id), c) && q.handed == AfterDrop(q, id).handed
  {
    hide Labelled;
  }

  lemma {:induction false} SentKeepsLabels(q: SendState, cap: nat, id: uint32, qos: Qos, txSeq: uint32, msgId: uint64, payload: Bytes, size: nat, i: nat, c: uint32)
    requires size >= 1 && i <= Needed(|payload|, size) <= MAX_FRAGMENTS && LabelsOk(q, c) && (id == c ==> qos.Reliable?)
    ensures var t := SentFrom(q, cap, id, qos, txSeq, msgId, payload, size, i).0;
      LabelsOk(t, c) && q.handed <= t.handed
    decreases Needed(|payload|, size) - i
  {
    if i < Needed(|payload|, size) {
      hide LabelsOk, AfterSendWire, WireOf, FragOf, Add32, Needed;
      var f := FragOf(id, txSeq, msgId, payload, size, i);
      SendKeepsLabels(q, cap, qos, f, c);
      var after := AfterSendWire(q, cap, id, qos, WireOf(f)).0;
      SentKeepsLabels(after, cap, id, qos, Add32(txSeq, 1), msgId, payload, size, i + 1, c);
    }
  }

  lemma SendDataKeepsLabels(s: MuxState, cap: nat, maxFrame: nat, id: uint32, payload: Bytes, c: uint32)
    requires maxFrame >= MIN_FRAME_BYTES && LabelsOk(s.queue, c)
    requires c in s.channels ==> s.channels[c].qos.Reliable?
    ensures var t := AfterSendData(s, cap, maxFrame, id, payload).0;
      LabelsOk(t.queue, c) && s.queue.handed <= t.queue.handed
  {
    if id in s.channels {
      var channel := s.channels[id];
      var size := maxFrame - HEADER_BYTES - FRAG_FIELDS_BYTES;
      SendKeepsLabels(s.queue, cap, channel.qos, Data(id, channel.txSeq, payload), c);
      if Needed(|payload|, size) <= MAX_FRAGMENTS {
        SentKeepsLabels(s.queue, cap, id, channel.qos, channel.txSeq, s.nextMsgId, payload, size, 0, c);
      }
    }
    hide LabelsOk, AfterSendWire, SentFrom, WireOf;
  }

  lemma ResetKeepsLabels(s: MuxState, cap: nat, id: uint32, c: uint32)
    requires id in s.channels && LabelsOk(s.queue, c) && (c in s.channels ==> s.channels[c].qos.Reliable?)
    ensures LabelsOk(AfterReset(s, cap, id).queue, c) && s.queue.handed <= AfterReset(s, cap, id).queue.handed
  {
    DropKeepsLabels(s.queue, id, c);
    SendKeepsLabels(AfterDrop(s.queue, id), cap, s.channels[id].qos, Reset(id, s.channels[id].txSeq, RESET_CODE), c);
  }

  /** Opening or ending another channel: its one frame is labelled as its own. */
  lemma OpenKeepsLabels(s: MuxState, cap: nat, f: Frame, c: uint32)
    requires f.Open? && LabelsOk(s.queue, c) && (c in s.channels || QosForClass(f.cls).Reliable?)
    ensures var t := AfterOpen(s, cap, f).0;
      LabelsOk(t.queue, c) && s.queue.handed <= t.queue.handed
  {
    hide LabelsOk, AfterSendWire, WireOf;
    if f.channel !in s.channels { SendKeepsLabels(s.queue, cap, QosForClass(f.cls), OpenAck(f.channel, 0, RefusalOf(s, f)), c); }
  }

  lemma OpenOutboundKeepsLabels(s: MuxState, cap: nat, protocol: Bytes, cls: uint8, maxMessage: nat, fixedId: Option<uint32>, c: uint32)
    requires LabelsOk(s.queue, c) && c in s.channels
    ensures var t := AfterOpenOutbound(s, cap, protocol, cls, maxMessage, fixedId).0;
      LabelsOk(t.queue, c) && s.queue.handed <= t.queue.handed
  {
    hide LabelsOk, AfterSendWire, WireOf;
    var id := if fixedId.Some? then fixedId.value else NextIds(s.opens.nextId).0;
    var f := OpenFrame(id, protocol, cls, maxMessage);
    if id !in s.channels && Encodable(f) { SendKeepsLabels(s.queue, cap, QosForClass(cls), f, c); }
  }

  lemma CloseKeepsLabels(s: MuxState, cap: nat, id: uint32, reason: Bytes, c: uint32)
    requires LabelsOk(s.queue, c) && (c in s.channels ==> s.channels[c].qos.Reliable?)
    ensures var t := AfterClose(s, cap, id, reason).0;
      LabelsOk(t.queue, c) && s.queue.handed <= t.queue.handed
  {
    hide LabelsOk, AfterSendWire, WireOf;
    if id in s.channels && |reason| < U32 {
      SendKeepsLabels(s.queue, cap, s.channels[id].qos, Close(id, s.channels[id].txSeq, reason), c);
    }
  }

  lemma FrameKeepsLabels(s: MuxState, cap: nat, f: Frame, nowMs: int, c: uint32)
    requires Mux.Valid(s) && LabelsOk(s.queue, c) && c in s.channels && s.channels[c].qos.Reliable?
    ensures var t := AfterFrame(s, cap, f, nowMs).0;
      LabelsOk(t.queue, c) && s.queue.handed <= t.queue.handed
  {
    DropKeepsLabels(s.queue, f.channel, c);
    if f.Open? { OpenKeepsLabels(s, cap, f, c); }
    hide LabelsOk, AfterReset, AfterOpen;
    if f.channel in s.channels && f.Frag? {
      var channel := Counted(s.channels[f.channel]);
      var partials := R.AfterPush(channel.partials, f.piece, nowMs, channel.limits).0;
      var kept := s.(channels := s.channels[f.channel := channel.(partials := partials)]);
      ResetKeepsLabels(kept, cap, f.channel, c);
    }
  }
}
