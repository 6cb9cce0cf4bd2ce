/**
 What opening a channel makes, and what a channel then takes, branch by branch (src/L3/ChannelMux.cpp:158-208, 291-381,
 393-495, 546-575; include/amp/L3/Types.h:34-57). Classes are numbered 0 transactional, 1 control, 2 bulk, 3 realtime,
 4 realtime control.
 */
module MuxOpening {
  import opened Words
  import opened Chunks
  import opened ChannelWire
  import opened SendQueue
  import opened Mux
  import opened MuxTransparency
  import R = Reassembly

  /** Realtime channels alone are best-effort; a lost fragment of theirs takes its message with it. */
  predicate RecordFor(channel: Channel, cls: uint8, maxMessage: nat, state: ChannelState) {
    && (channel.qos.BestEffort? <==> cls == 3) && (channel.limits.lossy <==> cls == 3)
    && channel.limits.maxMessage == maxMessage && channel.limits.maxPartials == 64
    && channel.state == state && channel.txSeq == 1 && channel.rxSeq == 1 && channel.partials == map[]
  }

  /** A frame of a class goes out as that class's frames do: best-effort at once, the others in their channel's order. */
  ghost predicate WentOut(q: SendState, t: SendState, id: uint32, cls: uint8, w: Bytes) {
    if cls == 3 then t.handed == q.handed + [Handed(id, BestEffort, w)] && t.queues == q.queues
    else StreamOf(t, id) == StreamOf(q, id) + [w]
  }

  lemma SentByClass(q: SendState, cap: nat, id: uint32, cls: uint8, w: Bytes)
    ensures var (t, out) := AfterSendWire(q, cap, id, QosForClass(cls), w);
      && (out != Full ==> WentOut(q, t, id, cls, w))
      && (out == Full ==> cls != 3 && StreamOf(t, id) == StreamOf(q, id))
  {
    if cls != 3 { SendWireExtends(q, cap, id, w, id); }
    hide StreamOf, Flushed;
  }

  // ------------------------------------------------------------ the opener

  /** A channel opened here: the record of its class and limit, waiting, and the OPEN that says so on its way in that class. */
  lemma OpenedHere(s: MuxState, cap: nat, protocol: Bytes, cls: uint8, maxMessage: nat, fixedId: Option<uint32>)
    requires AfterOpenOutbound(s, cap, protocol, cls, maxMessage, fixedId).1.Some?
    ensures var (t, given) := AfterOpenOutbound(s, cap, protocol, cls, maxMessage, fixedId);
      var id := given.value;
      && |protocol| < 0x1_0000_0000 && id !in s.channels && t.channels == s.channels[id := t.channels[id]]
      && RecordFor(t.channels[id], cls, maxMessage, Opening)
      && (fixedId.Some? ==> id == fixedId.value)
      && WentOut(s.queue, t.queue, id, cls,
                 WireOf(Open(id, 0, protocol, cls, 0, if maxMessage < 0x1_0000_0000 then maxMessage else 0xFFFF_FFFF)))
  {
    var id := if fixedId.Some? then fixedId.value else NextIds(s.opens.nextId).0;
    SentByClass(s.queue, cap, id, cls, WireOf(OpenFrame(id, protocol, cls, maxMessage)));
    hide AfterSendWire, WentOut, WireOf;
  }

  /** One that was not opened: of a number in use nothing becomes; else the record is there all the same, waiting, though no OPEN went out. */
  lemma OpenedInVain(s: MuxState, cap: nat, protocol: Bytes, cls: uint8, maxMessage: nat, fixedId: Option<uint32>)
    requires AfterOpenOutbound(s, cap, protocol, cls, maxMessage, fixedId).1.None?
    ensures var t := AfterOpenOutbound(s, cap, protocol, cls, maxMessage, fixedId).0;
      var id := if fixedId.Some? then fixedId.value else NextIds(s.opens.nextId).0;
      && StreamOf(t.queue, id) == StreamOf(s.queue, id) && t.delivered == s.delivered
      && t.opens.nextId == (if fixedId.Some? then s.opens.nextId else NextIds(s.opens.nextId).1)
      && (if id in s.channels then t.channels == s.channels && t.queue == s.queue
          else t.channels == s.channels[id := t.channels[id]] && RecordFor(t.channels[id], cls, maxMessage, Opening))
      && (id !in s.channels && cls == 3 ==> |protocol| >= 0x1_0000_0000)
  {
    var id := if fixedId.Some? then fixedId.value else NextIds(s.opens.nextId).0;
    SentByClass(s.queue, cap, id, cls, if |protocol| < U32 then WireOf(OpenFrame(id, protocol, cls, maxMessage)) else []);
    hide AfterSendWire, WentOut, WireOf, StreamOf;
  }

  /** The ids an end gives out are its own: never the illegal one, always of its parity, each two past the last. */
  lemma OwnIds(nextId: uint32)
    ensures var (id, next) := NextIds(nextId);
      && id != 0xFFFF_FFFF && id % 2 == nextId % 2 == next % 2
      && id == (if nextId == 0xFFFF_FFFF then 1 else nextId) && next == (id + 2) % 0x1_0000_0000
  {
  }

  /** So two ends of different parity never refuse each other's channels for their numbers, and never pick the same one. */
  lemma NoGlare(a: MuxState, b: MuxState, f: Frame)
    requires a.opens.nextId % 2 != b.opens.nextId % 2
    requires f.Open? && f.channel == NextIds(a.opens.nextId).0
    ensures RefusalOf(b, f) != 3 && NextIds(a.opens.nextId).0 != NextIds(b.opens.nextId).0
  {
    OwnIds(a.opens.nextId);
    OwnIds(b.opens.nextId);
  }

  // ------------------------------------------------------------ the accepter

  /** Why an OPEN of a channel not yet known is refused: 3 for a number of this end's own parity, 2 with the table full, 1 with nobody to serve it. */
  lemma RefusedWhen(s: MuxState, f: Frame)
    requires f.Open?
    ensures var mine := f.channel != 0 && f.channel % 2 == s.opens.nextId % 2;
      var full := |s.channels| >= s.opens.maxChannels;
      var unserved := s.opens.refuseUnhandled && f.channel != 0 && f.protocol !in s.opens.protocols && f.channel !in s.opens.bound;
      RefusalOf(s, f) == if mine then 3 else if full then 2 else if unserved then 1 else 0
  {
  }

  /** What a peer that asks for `asked` bytes a message is granted: bulk up to 4 MiB and 64 KiB, any other class up to 256 KiB, and 256 KiB if it asks for nothing. */
  function Granted(cls: uint8, asked: uint32): nat {
    if asked == 0 then 262144
    else if cls == 2 then (if asked < 4259840 then asked else 4259840)
    else if asked < 262144 then asked else 262144
  }

  /** An OPEN that comes: a channel open here at once with its class and the limit granted, or none; either way the answer, in that class. */
  lemma OpenArrives(s: MuxState, cap: nat, f: Frame)
    requires f.Open? && f.channel !in s.channels
    ensures var (t, verdict) := AfterOpen(s, cap, f);
      && (RefusalOf(s, f) == 0 ==>
            && t.channels == s.channels[f.channel := t.channels[f.channel]]
            && RecordFor(t.channels[f.channel], f.cls, Granted(f.cls, f.maxBytes), IsOpen)
            && t.opens.bound == s.opens.bound - {f.channel})
      && (RefusalOf(s, f) != 0 ==> t.channels == s.channels)
      && (verdict == Done ==> WentOut(s.queue, t.queue, f.channel, f.cls, WireOf(OpenAck(f.channel, 0, RefusalOf(s, f)))))
      && (f.cls == 3 ==> verdict == Done)
  {
    SentByClass(s.queue, cap, f.channel, f.cls, WireOf(OpenAck(f.channel, 0, RefusalOf(s, f))));
    hide AfterSendWire, WentOut, WireOf, RefusalOf;
  }

  /** A second OPEN of a channel does nothing. */
  lemma OpenedAlready(s: MuxState, cap: nat, f: Frame, nowMs: int)
    requires Mux.Valid(s) && f.Open? && f.channel in s.channels
    ensures AfterFrame(s, cap, f, nowMs) == (s, Failed)
  {
  }

  /** The answer: 0 opens the channel, anything else ends it; of an unknown channel it is nothing. */
  lemma AnswerComes(s: MuxState, cap: nat, f: Frame, nowMs: int)
    requires Mux.Valid(s) && f.OpenAck?
    ensures var (t, verdict) := AfterFrame(s, cap, f, nowMs);
      && t == s.(channels := t.channels)
      && (verdict == Done <==> f.channel in s.channels && f.result == 0)
      && (f.channel in s.channels && f.result == 0 ==> t.channels == s.channels[f.channel := s.channels[f.channel].(state := IsOpen)])
      && (f.channel in s.channels && f.result != 0 ==> t.channels == s.channels - {f.channel})
      && (f.channel !in s.channels ==> t == s)
  {
  }

  // ------------------------------------------------------------ an open channel

  /** A DATA frame is handed up exactly when its channel is open and, on a channel that keeps order, it is the next; else nothing changes. */
  lemma DataTakenWhen(s: MuxState, cap: nat, f: Frame, nowMs: int)
    requires Mux.Valid(s) && f.Data?
    ensures var (t, verdict) := AfterFrame(s, cap, f, nowMs);
      && (verdict == Done <==>
            && f.channel in s.channels && s.channels[f.channel].state == IsOpen
            && (s.channels[f.channel].qos.Reliable? ==> f.seqNo == s.channels[f.channel].rxSeq))
      && (verdict == Failed ==> t == s)
      && (verdict == Done ==>
            && t.delivered == s.delivered + [Delivery(f.channel, f.payload)] && t.queue == s.queue
            && t.channels.Keys == s.channels.Keys
            && t.channels[f.channel] == s.channels[f.channel].(rxSeq := t.channels[f.channel].rxSeq)
            && t.channels[f.channel].rxSeq ==
                 (if s.channels[f.channel].qos.Reliable? then (s.channels[f.channel].rxSeq + 1) % 0x1_0000_0000 else s.channels[f.channel].rxSeq))
  {
  }

  /** A FRAG out of its turn, or of a channel not open, changes nothing. */
  lemma FragOutOfTurn(s: MuxState, cap: nat, f: Frame, nowMs: int)
    requires Mux.Valid(s) && f.Frag?
    requires f.channel in s.channels && s.channels[f.channel].state == IsOpen && s.channels[f.channel].qos.Reliable? ==> f.seqNo != s.channels[f.channel].rxSeq
    requires f.channel in s.channels && s.channels[f.channel].state == IsOpen ==> s.channels[f.channel].qos.Reliable?
    ensures AfterFrame(s, cap, f, nowMs) == (s, Failed)
  {
  }

  /** The peer's RESET or CLOSE: the channel is gone, nothing of it waits any more, and nothing else changed. */
  lemma PeerEnds(s: MuxState, cap: nat, f: Frame, nowMs: int, c: uint32)
    requires Mux.Valid(s) && (f.Reset? || f.Close?) && f.channel in s.channels
    ensures var (t, verdict) := AfterFrame(s, cap, f, nowMs);
      && verdict == Done && t.channels == s.channels - {f.channel} && t.delivered == s.delivered
      && QueueOf(t.queue, f.channel) == [] && (c != f.channel ==> QueueOf(t.queue, c) == QueueOf(s.queue, c))
      && t.queue.handed == s.queue.handed && t.queue.queuedBytes == s.queue.queuedBytes - SizeOf(QueueOf(s.queue, f.channel))
  {
  }

  /** ResetChannel: what waits is dropped, the record goes, and the last word on the channel is RESET with code 1 and its next number. */
  lemma ResetHere(s: MuxState, cap: nat, id: uint32)
    requires id in s.channels && s.channels[id].qos.Reliable?
    ensures var t, w := AfterReset(s, cap, id), WireOf(Reset(id, s.channels[id].txSeq, 1));
      && t.channels == s.channels - {id}
      && (StreamOf(t.queue, id) == HandedOf(s.queue.handed, id) + [w] || StreamOf(t.queue, id) == HandedOf(s.queue.handed, id))
  {
    hide WireOf, HandedOf;
    var q := AfterDrop(s.queue, id);
    assert StreamOf(q, id) == HandedOf(s.queue.handed, id);
    SendWireExtends(q, cap, id, WireOf(Reset(id, s.channels[id].txSeq, RESET_CODE)), id);
    hide StreamOf, AfterSendWire;
  }

  /** CloseChannel: the CLOSE goes behind what waits, under the channel's next number, and nothing more is sent. */
  lemma CloseHere(s: MuxState, cap: nat, id: uint32, reason: Bytes)
    requires id in s.channels && s.channels[id].qos.Reliable? && AfterClose(s, cap, id, reason).1 == Done
    ensures var t := AfterClose(s, cap, id, reason).0;
      && StreamOf(t.queue, id) == StreamOf(s.queue, id) + [WireOf(Close(id, s.channels[id].txSeq, reason))]
      && id in t.channels && t.channels[id].state == Closing
  {
    if |reason| < U32 {
      SendWireExtends(s.queue, cap, id, WireOf(Close(id, s.channels[id].txSeq, reason)), id);
    }
    hide StreamOf, AfterSendWire, WireOf;
  }

  lemma NotSentOnceClosing(s: MuxState, cap: nat, maxFrame: nat, id: uint32, payload: Bytes)
    requires maxFrame >= MIN_FRAME_BYTES && (id in s.channels ==> s.channels[id].state != IsOpen)
    ensures AfterSendData(s, cap, maxFrame, id, payload) == (s, Failed)
  {
  }

  /** SendData of a payload that fits one frame: refused when longer than the channel's limit; else one DATA frame with the next number, unless there is no room. */
  lemma SentInOneFrame(s: MuxState, cap: nat, maxFrame: nat, id: uint32, payload: Bytes)
    requires maxFrame >= 64 && id in s.channels && s.channels[id].state == IsOpen && s.channels[id].qos.Reliable?
    requires |payload| + 9 <= maxFrame
    ensures var (t, verdict) := AfterSendData(s, cap, maxFrame, id, payload);
      && (|payload| > s.channels[id].limits.maxMessage ==> t == s && verdict == Failed)
      && (|payload| <= s.channels[id].limits.maxMessage ==>
            && (verdict == Done <==>
                  || (HasCredit(Flushed(s.queue).credits) && QueueOf(Flushed(s.queue), id) == [])
                  || Flushed(s.queue).queuedBytes + 9 + |payload| <= cap)
            && (verdict == Done ==>
                  && StreamOf(t.queue, id) == StreamOf(s.queue, id) + [WireOf(Data(id, s.channels[id].txSeq, payload))]
                  && t.channels == s.channels[id := s.channels[id].(txSeq := (s.channels[id].txSeq + 1) % 0x1_0000_0000)])
            && (verdict == Failed ==> StreamOf(t.queue, id) == StreamOf(s.queue, id) && t.channels == s.channels))
  {
    var w := WireOf(Data(id, s.channels[id].txSeq, payload));
    assert |w| == 9 + |payload|;
    SendWireExtends(s.queue, cap, id, w, id);
    hide StreamOf, WireOf;
  }

  /** One that needs more than 65535 fragments, or is longer than the limit, is refused before anything goes out. */
  lemma TooLongToSend(s: MuxState, cap: nat, maxFrame: nat, id: uint32, payload: Bytes)
    requires maxFrame >= 64 && id in s.channels && s.channels[id].state == IsOpen && |payload| + 9 > maxFrame
    requires |payload| > s.channels[id].limits.maxMessage || |payload| > 65535 * (maxFrame - 25)
    ensures AfterSendData(s, cap, maxFrame, id, payload) == (s, Failed)
  {
    var size := maxFrame - 25;
    NeededBounds(|payload|, size);
    if Needed(|payload|, size) <= 65535 { MulMono(Needed(|payload|, size), 65535, size); }
  }
}
