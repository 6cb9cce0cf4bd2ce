/**
 Mux transparency: what a reliable channel's handler gets is what its SendData calls
 put in, in order, whatever the credit schedule and whatever other channels do.
 */
module MuxTransparency {
  import opened Words
  import opened Chunks
  import opened ChannelWire
  import opened SendQueue
  import opened Mux
  import opened MuxProtocol
  import R = Reassembly

  // ------------------------------------------------------------ the sender's history is its stream

  lemma SendWireExtends(q: SendState, cap: nat, id: uint32, w: Bytes, c: uint32)
    ensures var (t, out) := AfterSendWire(q, cap, id, Reliable, w);
      StreamOf(t, c) == StreamOf(q, c) + if id == c && out != Full then [w] else []
  {
    OpExtendsStream(q, cap, Send(id, Reliable, w), c);
  }

  lemma LooseSendExtends(q: SendState, cap: nat, id: uint32, w: Bytes, c: uint32)
    ensures StreamOf(AfterSendWire(q, cap, id, BestEffort, w).0, c) == StreamOf(q, c)
  {
    OpExtendsStream(q, cap, Send(id, BestEffort, w), c);
  }

  lemma {:induction false} SentElsewhere(q: SendState, cap: nat, id: uint32, qos: Qos, txSeq: uint32, msgId: uint64,
                                         payload: Bytes, size: nat, i: nat, c: uint32)
    requires size >= 1 && i <= Needed(|payload|, size) <= MAX_FRAGMENTS && id != c
    ensures StreamOf(SentFrom(q, cap, id, qos, txSeq, msgId, payload, size, i).0, c) == StreamOf(q, c)
    decreases Needed(|payload|, size) - i
  {
    hide StreamOf, AfterSendWire, WireOf, FragOf, Add32, Needed;
    if i < Needed(|payload|, size) {
      var w := WireOf(FragOf(id, txSeq, msgId, payload, size, i));
      if qos.Reliable? { SendWireExtends(q, cap, id, w, c); } else { LooseSendExtends(q, cap, id, w, c); }
      SentElsewhere(AfterSendWire(q, cap, id, qos, w).0, cap, id, qos, Add32(txSeq, 1), msgId, payload, size, i + 1, c);
    }
  }

  /** The fragments a reliable SendData put in are the ones its history entry says. */
  lemma {:induction false} SentHere(q: SendState, cap: nat, c: uint32, n: nat, call: Call, i: nat)
    requires call.Pieces? && call.size >= 1 && i <= Needed(|call.payload|, call.size) <= MAX_FRAGMENTS
    requires 0 < |call.payload| < U32
    requires call.sent == SentFrom(q, cap, c, Reliable, Add32(1, n + i), call.msgId, call.payload, call.size, i).1
    ensures i <= call.sent <= Needed(|call.payload|, call.size)
    ensures var (t, sent, verdict) := SentFrom(q, cap, c, Reliable, Add32(1, n + i), call.msgId, call.payload, call.size, i);
      && (verdict == Done <==> call.sent == Needed(|call.payload|, call.size))
      && (call.sent >= 1 ==> StreamOf(t, c) == StreamOf(q, c) + CallWires(call, c, n, i, call.sent))
      && (call.sent == i ==> StreamOf(t, c) == StreamOf(q, c))
    decreases Needed(|call.payload|, call.size) - i
  {
    hide StreamOf, AfterSendWire, WireOf, Needed, Add32, FragOf;
    if i < Needed(|call.payload|, call.size) {
      var w := WireOf(FragOf(c, Add32(1, n + i), call.msgId, call.payload, call.size, i));
      var (after, out) := AfterSendWire(q, cap, c, Reliable, w);
      SendWireExtends(q, cap, c, w, c);
      if out != Full {
        Add32Again(1, n + i, 1);
        SentHere(after, cap, c, n, call, i + 1);
        assert [w] + CallWires(call, c, n, i + 1, call.sent) == CallWires(call, c, n, i, call.sent);
      }
    }
  }

  /** Message ids are handed out in rising order, and none is larger than what the next one says. */
  ghost predicate IdsOk(calls: seq<Call>, next: uint64) {
    && (forall k :: 0 <= k < |calls| && calls[k].Pieces? ==> calls[k].msgId < next)
    && (forall k, l :: 0 <= k < l < |calls| && calls[k].Pieces? && calls[l].Pieces? ==> calls[k].msgId < calls[l].msgId)
  }

  /** No message is longer than the channel's policy allows. */
  ghost predicate WithinPolicy(calls: seq<Call>, limit: nat) {
    forall k :: 0 <= k < |calls| ==> |calls[k].payload| <= limit
  }

  ghost predicate SenderInv(a: MuxState, calls: seq<Call>, accepted: seq<Bytes>, early: seq<Bytes>, c: uint32) {
    && c in a.channels && a.channels[c].state == IsOpen && a.channels[c].qos.Reliable?
    && CallsOk(calls) && IdsOk(calls, a.nextMsgId) && WithinPolicy(calls, a.channels[c].limits.maxMessage)
    && a.channels[c].txSeq == Add32(1, Count(calls))
    && StreamOf(a.queue, c) == early + Wires(calls, c)
    && accepted == Payloads(calls)
  }

  lemma OneMoreCall(calls: seq<Call>, call: Call, c: uint32)
    requires CallsOk(calls) && CallOk(call)
    ensures CallsOk(calls + [call])
    ensures Wires(calls + [call], c) == Wires(calls, c) + CallWires(call, c, Count(calls), 0, FrameCount(call))
    ensures Count(calls + [call]) == Count(calls) + FrameCount(call)
    ensures Payloads(calls + [call]) == Payloads(calls) + if InFull(call) then [call.payload] else []
    ensures Stranded(calls + [call]) == Stranded(calls) + if InFull(call) then {} else {call.msgId}
  {
    assert (calls + [call])[..|calls|] == calls;
  }

  /** A call put its frames in: the history grows by it. */
  lemma Extended(a: MuxState, t: MuxState, calls: seq<Call>, accepted: seq<Bytes>, early: seq<Bytes>, c: uint32, call: Call)
    requires SenderInv(a, calls, accepted, early, c) && CallOk(call) && |call.payload| <= a.channels[c].limits.maxMessage
    requires c in t.channels
    requires t.channels[c] == a.channels[c].(txSeq := Add32(a.channels[c].txSeq, FrameCount(call)))
    requires StreamOf(t.queue, c) == StreamOf(a.queue, c) + CallWires(call, c, Count(calls), 0, FrameCount(call))
    requires a.nextMsgId <= t.nextMsgId && (call.Pieces? ==> call.msgId == a.nextMsgId < t.nextMsgId)
    ensures SenderInv(t, calls + [call], accepted + if InFull(call) then [call.payload] else [], early, c)
  {
    hide Wires, CallWires, StreamOf, Add32, Count, Payloads, Stranded, InFull, FrameCount, CallOk, CallsOk, IdsOk, WithinPolicy;
    OneMoreCall(calls, call, c);
    OneMoreId(calls, call, a.nextMsgId, t.nextMsgId, a.channels[c].limits.maxMessage);
    Add32Again(1, Count(calls), FrameCount(call));
  }

  lemma OneMoreId(calls: seq<Call>, call: Call, next: uint64, after: uint64, limit: nat)
    requires IdsOk(calls, next) && WithinPolicy(calls, limit) && |call.payload| <= limit
    requires next <= after && (call.Pieces? ==> call.msgId == next < after)
    ensures IdsOk(calls + [call], after) && WithinPolicy(calls + [call], limit)
  {
  }

  /** Nothing of the channel was touched. */
  lemma Unextended(a: MuxState, t: MuxState, calls: seq<Call>, accepted: seq<Bytes>, early: seq<Bytes>, c: uint32)
    requires SenderInv(a, calls, accepted, early, c) && c in t.channels && a.nextMsgId <= t.nextMsgId
    requires t.channels[c].state == a.channels[c].state && t.channels[c].qos == a.channels[c].qos
    requires t.channels[c].limits == a.channels[c].limits && t.channels[c].txSeq == a.channels[c].txSeq
    requires StreamOf(t.queue, c) == StreamOf(a.queue, c)
    ensures SenderInv(t, calls, accepted, early, c)
  {
    hide Wires, StreamOf, Add32, Count, Payloads, CallOk;
  }

  lemma SingleSent(a: MuxState, cfg: Config, calls: seq<Call>, accepted: seq<Bytes>, payload: Bytes)
    requires cfg.maxFrame >= MIN_FRAME_BYTES && |payload| <= cfg.maxFrame - HEADER_BYTES
    requires SenderInv(a, calls, accepted, cfg.early, cfg.channel)
    ensures var (t, verdict) := AfterSendData(a, cfg.capA, cfg.maxFrame, cfg.channel, payload);
      && SenderInv(t, calls + CallOf(a, cfg, cfg.channel, payload), if verdict == Done then accepted + [payload] else accepted, cfg.early, cfg.channel)
      && t.nextMsgId == a.nextMsgId
  {
    hide StreamOf, AfterSendWire, WireOf, Add32, Count, Wires, Payloads;
    var c := cfg.channel;
    var call, channel := Single(payload), a.channels[c];
    var t := AfterSendData(a, cfg.capA, cfg.maxFrame, c, payload).0;
    assert calls + [] == calls;
    if |payload| <= channel.limits.maxMessage {
      var w := WireOf(Data(c, channel.txSeq, payload));
      SendWireExtends(a.queue, cfg.capA, c, w, c);
      if AfterSendWire(a.queue, cfg.capA, c, Reliable, w).1 == Full {
        Unextended(a, t, calls, accepted, cfg.early, c);
      } else {
        SingleWires(c, channel.txSeq, payload, Count(calls));
        Extended(a, t, calls, accepted, cfg.early, c, call);
      }
    }
  }

  lemma SingleWires(c: uint32, txSeq: uint32, payload: Bytes, n: nat)
    requires txSeq == Add32(1, n)
    ensures CallWires(Single(payload), c, n, 0, 1) == [WireOf(Data(c, txSeq, payload))]
  {
    assert CallWires(Single(payload), c, n, 1, 1) == [];
  }

  /** A fragmented message's length fits its 32 bits: by the channel's limit, or by the budget and the 16-bit count of fragments. */
  predicate LengthsFit(channel: Channel, cfg: Config) {
    channel.limits.maxMessage < U32 || cfg.maxFrame <= 0x1_0000
  }

  lemma FragmentedFits(channel: Channel, cfg: Config, len: nat)
    requires cfg.maxFrame >= MIN_FRAME_BYTES && LengthsFit(channel, cfg) && len <= channel.limits.maxMessage
    requires Needed(len, cfg.maxFrame - HEADER_BYTES - FRAG_FIELDS_BYTES) <= MAX_FRAGMENTS
    ensures len < U32
  {
    var size := cfg.maxFrame - HEADER_BYTES - FRAG_FIELDS_BYTES;
    if channel.limits.maxMessage >= U32 {
      NeededBounds(len, size);
      MulMono(Needed(len, size), MAX_FRAGMENTS, size);
      assert MAX_FRAGMENTS * size <= 0xFFFF * 0x1_0000;
    }
  }

  lemma PiecesSent(a: MuxState, cfg: Config, calls: seq<Call>, accepted: seq<Bytes>, payload: Bytes)
    requires cfg.maxFrame >= MIN_FRAME_BYTES && |payload| > cfg.maxFrame - HEADER_BYTES && a.nextMsgId + 1 < U64
    requires SenderInv(a, calls, accepted, cfg.early, cfg.channel) && LengthsFit(a.channels[cfg.channel], cfg)
    ensures var (t, verdict) := AfterSendData(a, cfg.capA, cfg.maxFrame, cfg.channel, payload);
      && SenderInv(t, calls + CallOf(a, cfg, cfg.channel, payload), if verdict == Done then accepted + [payload] else accepted, cfg.early, cfg.channel)
      && t.nextMsgId <= a.nextMsgId + 1
  {
    hide StreamOf, SentFrom, Add32, Count, Wires, Payloads, Needed, CallWires;
    var c, n, channel := cfg.channel, Count(calls), a.channels[cfg.channel];
    var size := cfg.maxFrame - HEADER_BYTES - FRAG_FIELDS_BYTES;
    var t := AfterSendData(a, cfg.capA, cfg.maxFrame, c, payload).0;
    assert calls + [] == calls;
    NeededBounds(|payload|, size);
    if |payload| <= channel.limits.maxMessage && Needed(|payload|, size) <= MAX_FRAGMENTS {
      FragmentedFits(channel, cfg, |payload|);
      if a.queue.queuedBytes + |payload| > cfg.capA {
        Unextended(a, t, calls, accepted, cfg.early, c);
      } else {
        var sent := SentFrom(a.queue, cfg.capA, c, Reliable, channel.txSeq, a.nextMsgId, payload, size, 0).1;
        var call := Pieces(payload, a.nextMsgId, size, sent);
        SentHere(a.queue, cfg.capA, c, n, call, 0);
        Add32Again(channel.txSeq, 0, 0);
        if sent == 0 { Unextended(a, t, calls, accepted, cfg.early, c); } else { Extended(a, t, calls, accepted, cfg.early, c, call); }
      }
    }
  }

  lemma SentByOthers(a: MuxState, cap: nat, maxFrame: nat, calls: seq<Call>, accepted: seq<Bytes>, early: seq<Bytes>, c: uint32, id: uint32, payload: Bytes)
    requires maxFrame >= MIN_FRAME_BYTES && a.nextMsgId + 1 < U64 && id != c
    requires SenderInv(a, calls, accepted, early, c)
    ensures var t := AfterSendData(a, cap, maxFrame, id, payload).0;
      SenderInv(t, calls, accepted, early, c) && t.nextMsgId <= a.nextMsgId + 1
  {
    hide Wires, StreamOf, AfterSendWire, SentFrom, WireOf, Add32, Count, Payloads, Needed, SenderInv;
    var size := maxFrame - HEADER_BYTES - FRAG_FIELDS_BYTES;
    var t := AfterSendData(a, cap, maxFrame, id, payload).0;
    if id in a.channels {
      var channel := a.channels[id];
      var w := WireOf(Data(id, channel.txSeq, payload));
      if channel.qos.Reliable? { SendWireExtends(a.queue, cap, id, w, c); } else { LooseSendExtends(a.queue, cap, id, w, c); }
      if Needed(|payload|, size) <= MAX_FRAGMENTS {
        SentElsewhere(a.queue, cap, id, channel.qos, channel.txSeq, a.nextMsgId, payload, size, 0, c);
      }
    }
    assert c in a.channels by { ItsThere(a, calls, accepted, early, c); }
    Unextended(a, t, calls, accepted, early, c);
  }

  lemma ItsThere(a: MuxState, calls: seq<Call>, accepted: seq<Bytes>, early: seq<Bytes>, c: uint32)
    requires SenderInv(a, calls, accepted, early, c)
    ensures c in a.channels
  {
  }

  lemma ResetByOthers(a: MuxState, cap: nat, id: uint32, c: uint32)
    requires id in a.channels && id != c
    ensures StreamOf(AfterReset(a, cap, id).queue, c) == StreamOf(a.queue, c)
  {
    hide StreamOf, AfterSendWire, AfterDrop, WireOf;
    var channel := a.channels[id];
    OpExtendsStream(a.queue, cap, Drop(id), c);
    var q := AfterDrop(a.queue, id);
    var w := WireOf(Reset(id, channel.txSeq, RESET_CODE));
    if channel.qos.Reliable? { SendWireExtends(q, cap, id, w, c); } else { LooseSendExtends(q, cap, id, w, c); }
  }

  /** A frame of another channel, of whatever class. */
  lemma OtherSend(q: SendState, cap: nat, id: uint32, qos: Qos, w: Bytes, c: uint32)
    requires id != c
    ensures StreamOf(AfterSendWire(q, cap, id, qos, w).0, c) == StreamOf(q, c)
  {
    if qos.Reliable? { SendWireExtends(q, cap, id, w, c); } else { LooseSendExtends(q, cap, id, w, c); }
  }

  /** Opening another channel, closing it and answering the peer's OPEN leave this one alone. */
  lemma OpenByPeer(a: MuxState, cap: nat, f: Frame, c: uint32)
    requires f.Open? && c in a.channels
    ensures var t := AfterOpen(a, cap, f).0;
      && c in t.channels && t.channels[c] == a.channels[c] && t.nextMsgId == a.nextMsgId && t.delivered == a.delivered
      && StreamOf(t.queue, c) == StreamOf(a.queue, c)
  {
    hide StreamOf, AfterSendWire, WireOf;
    if f.channel !in a.channels {
      OtherSend(a.queue, cap, f.channel, QosForClass(f.cls), WireOf(OpenAck(f.channel, 0, RefusalOf(a, f))), c);
    }
  }

  lemma OpenOther(a: MuxState, cap: nat, protocol: Bytes, cls: uint8, maxMessage: nat, fixedId: Option<uint32>, c: uint32)
    requires c in a.channels
    ensures var t := AfterOpenOutbound(a, cap, protocol, cls, maxMessage, fixedId).0;
      && c in t.channels && t.channels[c] == a.channels[c] && t.nextMsgId == a.nextMsgId && t.delivered == a.delivered
      && StreamOf(t.queue, c) == StreamOf(a.queue, c) && (Mux.Valid(a) ==> Mux.Valid(t))
  {
    hide StreamOf, AfterSendWire, WireOf;
    var id := if fixedId.Some? then fixedId.value else NextIds(a.opens.nextId).0;
    var f := OpenFrame(id, protocol, cls, maxMessage);
    if id !in a.channels && Encodable(f) {
      OtherSend(a.queue, cap, id, QosForClass(cls), WireOf(f), c);
    }
  }

  lemma CloseOther(a: MuxState, cap: nat, id: uint32, reason: Bytes, c: uint32)
    requires c in a.channels && id != c
    ensures var t := AfterClose(a, cap, id, reason).0;
      && c in t.channels && t.channels[c] == a.channels[c] && t.nextMsgId == a.nextMsgId && t.delivered == a.delivered
      && StreamOf(t.queue, c) == StreamOf(a.queue, c) && (Mux.Valid(a) ==> Mux.Valid(t))
  {
    hide StreamOf, AfterSendWire, WireOf;
    if id in a.channels && |reason| < U32 {
      OtherSend(a.queue, cap, id, a.channels[id].qos, WireOf(Close(id, a.channels[id].txSeq, reason)), c);
    }
  }

  /** Whatever frame comes in, as long as the channel is still there and open, its sending side is untouched. */
  lemma ReceivedByA(a: MuxState, cap: nat, calls: seq<Call>, accepted: seq<Bytes>, early: seq<Bytes>, c: uint32, f: Frame, nowMs: int)
    requires Mux.Valid(a) && SenderInv(a, calls, accepted, early, c)
    requires c in AfterFrame(a, cap, f, nowMs).0.channels
    ensures var t := AfterFrame(a, cap, f, nowMs).0;
      SenderInv(t, calls, accepted, early, c) && t.nextMsgId == a.nextMsgId
  {
    hide Wires, StreamOf, Add32, Count, Payloads, AfterReset, AfterDrop, AfterOpen;
    var id := f.channel;
    if f.Open? {
      OpenByPeer(a, cap, f, c);
    } else if id in a.channels {
      OtherDrop(a.queue, id, c);
      if f.Frag? {
        var channel := Counted(a.channels[id]);
        var partials := R.AfterPush(channel.partials, f.piece, nowMs, channel.limits).0;
        var kept := a.(channels := a.channels[id := channel.(partials := partials)]);
        ResetMeans(kept, cap, id);
        if id != c { ResetByOthers(kept, cap, id, c); }
      }
    }
  }

  lemma OtherDrop(q: SendState, id: uint32, c: uint32)
    ensures id != c ==> StreamOf(AfterDrop(q, id), c) == StreamOf(q, c)
  {
    if id != c { OpExtendsStream(q, 0, Drop(id), c); }
  }

  lemma ResetMeans(a: MuxState, cap: nat, id: uint32)
    requires id in a.channels
    ensures AfterReset(a, cap, id).channels == a.channels - {id} && AfterReset(a, cap, id).nextMsgId == a.nextMsgId
  {
  }
}
