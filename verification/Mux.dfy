/**
 ChannelMux (src/L3/ChannelMux.cpp): many channels over one session. Sending cuts a
 payload into frames the link's budget carries and numbers them per channel;
 receiving checks the numbers and puts fragments together.

 The transport takes every frame it is handed and handlers do not call back into
 the mux; a channel's handler is there from the start.
 */
module Mux {
  import opened Words
  import opened Chunks
  import opened ChannelWire
  import opened SendQueue
  import R = Reassembly

  const MIN_FRAME_BYTES: nat := 64
  const MAX_FRAGMENTS: nat := 0xFFFF
  const RESET_CODE: uint32 := 1
  const CAPABILITY_CHANNEL: uint32 := 0
  const ILLEGAL_CHANNEL: uint32 := 0xFFFF_FFFF
  const BULK: uint8 := 2
  const REALTIME: uint8 := 3
  const MAX_CHAT_BYTES: nat := 256 * 1024
  const MAX_BULK_BYTES: nat := 4 * 1024 * 1024 + 64 * 1024
  const MAX_PARTIALS: nat := 64
  const NO_HANDLER: uint8 := 1
  const TOO_MANY_CHANNELS: uint8 := 2
  const BAD_ID_PARITY: uint8 := 3

  datatype ChannelState = Closed | Opening | IsOpen | Closing

  /** A channel record; `limits` are those of its reassembly, whose message limit is also the policy's. */
  datatype Channel = Channel(
    qos: Qos, state: ChannelState, limits: R.Limits, txSeq: uint32, rxSeq: uint32, partials: R.Partials)

  /** A payload given to a channel's data handler. */
  datatype Delivery = Delivery(channel: uint32, payload: Bytes)

  /** What opening channels depends on: the next id of this end's own, and who is there to serve the peer's. */
  datatype Openings = Openings(
    nextId: uint32, protocols: set<Bytes>, bound: set<uint32>, refuseUnhandled: bool, maxChannels: nat)

  datatype MuxState = MuxState(
    channels: map<uint32, Channel>, queue: SendState, nextMsgId: uint64, delivered: seq<Delivery>, opens: Openings)

  datatype Verdict = Done | Failed

  ghost predicate Valid(s: MuxState) {
    forall id :: id in s.channels ==> R.Valid(s.channels[id].partials)
  }

  function IdAfter(id: uint64): uint64 {
    (id + 1) % U64
  }

  // ------------------------------------------------------------ sending

  function FragOf(id: uint32, seqNo: uint32, msgId: uint64, payload: Bytes, size: nat, i: nat): (f: Frame)
    requires size >= 1 && i < Needed(|payload|, size) <= MAX_FRAGMENTS
    ensures Encodable(f) && f.channel == id
  {
    Frag(id, seqNo, Piece(msgId, i, Needed(|payload|, size), |payload| % U32, ChunkAt(payload, size, i)))
  }

  function WireOf(f: Frame): Bytes
    requires Encodable(f)
  {
    Encoded(f).value
  }

  /** SendData's loop from fragment `i` on: the queue, how many fragments went in, and whether all did. */
  function SentFrom(q: SendState, cap: nat, id: uint32, qos: Qos, txSeq: uint32, msgId: uint64, payload: Bytes, size: nat, i: nat)
    : (SendState, nat, Verdict)
    requires size >= 1 && i <= Needed(|payload|, size) <= MAX_FRAGMENTS
    decreases Needed(|payload|, size) - i
  {
    if i == Needed(|payload|, size) then (q, i, Done)
    else
      var (after, out) := AfterSendWire(q, cap, id, qos, WireOf(FragOf(id, txSeq, msgId, payload, size, i)));
      if out == Full then (after, i, Failed)
      else SentFrom(after, cap, id, qos, Add32(txSeq, 1), msgId, payload, size, i + 1)
  }

  function WithTx(s: MuxState, id: uint32, queue: SendState, frames: nat): MuxState
    requires id in s.channels
  {
    s.(queue := queue, channels := s.channels[id := s.channels[id].(txSeq := Add32(s.channels[id].txSeq, frames))])
  }

  function AfterSendData(s: MuxState, cap: nat, maxFrame: nat, id: uint32, payload: Bytes): (MuxState, Verdict)
    requires maxFrame >= MIN_FRAME_BYTES
  {
    if id !in s.channels || s.channels[id].state != IsOpen then (s, Failed)
    else
      var channel := s.channels[id];
      var size := maxFrame - HEADER_BYTES - FRAG_FIELDS_BYTES;
      if |payload| > channel.limits.maxMessage then (s, Failed)
      else if |payload| <= maxFrame - HEADER_BYTES then
        var (queue, out) := AfterSendWire(s.queue, cap, id, channel.qos, WireOf(Data(id, channel.txSeq, payload)));
        if out == Full then (s.(queue := queue), Failed) else (WithTx(s, id, queue, 1), Done)
      else if Needed(|payload|, size) > MAX_FRAGMENTS then (s, Failed)
      else
        var t := s.(nextMsgId := IdAfter(s.nextMsgId));
        if channel.qos.Reliable? && s.queue.queuedBytes + |payload| > cap then (t, Failed)
        else
          var (queue, n, verdict) := SentFrom(s.queue, cap, id, channel.qos, channel.txSeq, s.nextMsgId, payload, size, 0);
          (WithTx(t, id, queue, n), verdict)
  }

  // ------------------------------------------------------------ opening

  function QosForClass(cls: uint8): Qos {
    if cls == REALTIME then BestEffort else Reliable
  }

  function NewChannel(cls: uint8, maxMessage: nat, state: ChannelState): Channel {
    Channel(QosForClass(cls), state, R.Limits(maxMessage, MAX_PARTIALS, QosForClass(cls).BestEffort?), 1, 1, map[])
  }

  /** The id of the next channel this end opens, and the one after it. */
  function NextIds(nextId: uint32): (uint32, uint32) {
    if nextId == ILLEGAL_CHANNEL then (Add32(nextId, 2), Add32(nextId, 4)) else (nextId, Add32(nextId, 2))
  }

  function OpenFrame(id: uint32, protocol: Bytes, cls: uint8, maxMessage: nat): Frame {
    Open(id, 0, protocol, cls, 0, Min(maxMessage, U32 - 1))
  }

  /** A new record: a handler bound to its id before is its own now. */
  function WithChannel(s: MuxState, id: uint32, channel: Channel): MuxState {
    s.(channels := s.channels[id := channel], opens := s.opens.(bound := s.opens.bound - {id}))
  }

  /** OpenOutbound; the record stays even when its OPEN found no room. */
  function AfterOpenOutbound(s: MuxState, cap: nat, protocol: Bytes, cls: uint8, maxMessage: nat, fixedId: Option<uint32>)
    : (MuxState, Option<uint32>)
  {
    var id := if fixedId.Some? then fixedId.value else NextIds(s.opens.nextId).0;
    var counted := if fixedId.Some? then s else s.(opens := s.opens.(nextId := NextIds(s.opens.nextId).1));
    if id in s.channels then (counted, None)
    else
      var t := WithChannel(counted, id, NewChannel(cls, maxMessage, Opening));
      var f := OpenFrame(id, protocol, cls, maxMessage);
      if !Encodable(f) then (t, None)
      else
        var (queue, out) := AfterSendWire(s.queue, cap, id, QosForClass(cls), WireOf(f));
        (t.(queue := queue), if out == Full then None else Some(id))
  }

  /** What this end makes of the message size the peer asks for. */
  function GrantedBytes(cls: uint8, asked: uint32): nat {
    if asked == 0 then MAX_CHAT_BYTES else Min(asked, if cls == BULK then MAX_BULK_BYTES else MAX_CHAT_BYTES)
  }

  /** Why an OPEN is refused, or 0. */
  function RefusalOf(s: MuxState, f: Frame): uint8
    requires f.Open?
  {
    if f.channel != CAPABILITY_CHANNEL && (f.channel % 2 == 1) == (s.opens.nextId % 2 == 1) then BAD_ID_PARITY
    else if |s.channels| >= s.opens.maxChannels then TOO_MANY_CHANNELS
    else if s.opens.refuseUnhandled && f.channel != CAPABILITY_CHANNEL && f.protocol !in s.opens.protocols && f.channel !in s.opens.bound
    then NO_HANDLER
    else 0
  }

  /** HandleOpen: a channel accepted is open at this end at once; the answer tells the peer either way. */
  function AfterOpen(s: MuxState, cap: nat, f: Frame): (MuxState, Verdict)
    requires f.Open?
  {
    if f.channel in s.channels then (s, Failed)
    else
      var refusal := RefusalOf(s, f);
      var t := if refusal != 0 then s else WithChannel(s, f.channel, NewChannel(f.cls, GrantedBytes(f.cls, f.maxBytes), IsOpen));
      var (queue, out) := AfterSendWire(s.queue, cap, f.channel, QosForClass(f.cls), WireOf(OpenAck(f.channel, 0, refusal)));
      (t.(queue := queue), if out == Full then Failed else Done)
  }

  /** HandleOpenAck, of a channel this end has a record of. */
  function AfterOpenAck(s: MuxState, f: Frame): (MuxState, Verdict)
    requires f.OpenAck? && f.channel in s.channels
  {
    if f.result != 0 then (s.(channels := s.channels - {f.channel}), Failed)
    else (s.(channels := s.channels[f.channel := s.channels[f.channel].(state := IsOpen)]), Done)
  }

  // ------------------------------------------------------------ receiving

  /** ResetChannel: what waits is dropped, the peer is told, the record goes. */
  function AfterReset(s: MuxState, cap: nat, id: uint32): MuxState
    requires id in s.channels
  {
    var channel := s.channels[id];
    var queue := AfterSendWire(AfterDrop(s.queue, id), cap, id, channel.qos, WireOf(Reset(id, channel.txSeq, RESET_CODE))).0;
    s.(queue := queue, channels := s.channels - {id})
  }

  /** CloseChannel: the CLOSE goes behind what waits; the record stays until the peer's end comes back. */
  function AfterClose(s: MuxState, cap: nat, id: uint32, reason: Bytes): (MuxState, Verdict) {
    if id !in s.channels then (s, Failed)
    else
      var channel := s.channels[id];
      var f := Close(id, channel.txSeq, reason);
      var t := s.(channels := s.channels[id := channel.(txSeq := Add32(channel.txSeq, 1), state := Closing)]);
      if !Encodable(f) then (t, Failed)
      else
        var (queue, out) := AfterSendWire(s.queue, cap, id, channel.qos, WireOf(f));
        (t.(queue := queue), if out == Full then Failed else Done)
  }

  /** The peer ended the channel. */
  function AfterPeerEnd(s: MuxState, id: uint32): MuxState {
    s.(queue := AfterDrop(s.queue, id), channels := s.channels - {id})
  }

  function Delivered(s: MuxState, id: uint32, channel: Channel, payload: Bytes): MuxState {
    s.(channels := s.channels[id := channel], delivered := s.delivered + [Delivery(id, payload)])
  }

  /** A reliable channel takes its frames in number order only. */
  predicate InOrder(channel: Channel, seqNo: uint32) {
    channel.qos.Reliable? ==> seqNo == channel.rxSeq
  }

  function Counted(channel: Channel): Channel {
    if channel.qos.Reliable? then channel.(rxSeq := Add32(channel.rxSeq, 1)) else channel
  }

  /** DispatchFrame. */
  ghost function AfterFrame(s: MuxState, cap: nat, f: Frame, nowMs: int): (MuxState, Verdict)
    requires Valid(s)
  {
    var id := f.channel;
    if f.Open? then AfterOpen(s, cap, f)
    else if id !in s.channels then (s, Failed)
    else if f.OpenAck? then AfterOpenAck(s, f)
    else if f.Reset? || f.Close? then (AfterPeerEnd(s, id), Done)
    else if s.channels[id].state != IsOpen || !InOrder(s.channels[id], f.seqNo) then (s, Failed)
    else
      var channel := Counted(s.channels[id]);
      if f.Data? then (Delivered(s, id, channel, f.payload), Done)
      else
        var (partials, out) := R.AfterPush(channel.partials, f.piece, nowMs, channel.limits);
        var kept := s.(channels := s.channels[id := channel.(partials := partials)]);
        match out
        case Refused(_) => (AfterReset(kept, cap, id), Failed)
        case Incomplete => (kept, Done)
        case Whole(message) => (kept.(delivered := kept.delivered + [Delivery(id, message)]), Done)
  }

  /** OnFrameInbound. */
  ghost function AfterInbound(s: MuxState, cap: nat, wire: Bytes, nowMs: int): (MuxState, Verdict)
    requires Valid(s)
  {
    match Decoded(wire)
    case None => (s, Failed)
    case Some(f) => AfterFrame(s, cap, f, nowMs)
  }

  /** Tick's sweep of one channel's partials. */
  function AfterSweep(s: MuxState, id: uint32, nowMs: int, timeoutMs: int): MuxState {
    if id !in s.channels then s
    else
      s.(channels := s.channels[id := s.channels[id].(partials := R.Swept(s.channels[id].partials, nowMs, timeoutMs))])
  }

  // ------------------------------------------------------------ the mux

  class ChannelMux {
    const queues: SendQueues
    var maxFrameBytes: nat
    var channels: map<uint32, Channel>
    var nextFragMsgId: uint64
    /** What the channels' data handlers were given. */
    var delivered: seq<Delivery>
    var nextDynamicId: uint32
    /** Protocols with a handler, and ids a data handler was bound to ahead of their channel. */
    var protocolHandlers: set<Bytes>
    var pendingHandlers: set<uint32>
    var refuseUnhandledOpens: bool
    const maxConcurrentChannels: nat

    ghost function State(): MuxState
      reads this, queues
    {
      MuxState(channels, queues.State(), nextFragMsgId, delivered,
               Openings(nextDynamicId, protocolHandlers, pendingHandlers, refuseUnhandledOpens, maxConcurrentChannels))
    }

    constructor (initiator: bool, maxQueuedBytes: nat, maxConcurrentChannels: nat, credits: Credits, maxFrameBytes: nat)
      requires maxFrameBytes >= MIN_FRAME_BYTES
      ensures State() ==
        MuxState(map[], Empty(credits), 1, [], Openings(if initiator then 1 else 2, {}, {}, false, maxConcurrentChannels))
      ensures this.maxFrameBytes == maxFrameBytes && queues.maxQueuedBytes == maxQueuedBytes && fresh(queues)
    {
      queues := new SendQueues(maxQueuedBytes, credits);
      this.maxFrameBytes, channels, nextFragMsgId, delivered := maxFrameBytes, map[], 1, [];
      nextDynamicId := if initiator then 1 else 2;
      protocolHandlers, pendingHandlers, refuseUnhandledOpens := {}, {}, false;
      this.maxConcurrentChannels := maxConcurrentChannels;
    }

    method OpenOutbound(protocol: Bytes, cls: uint8, maxMessage: nat, fixedId: Option<uint32>) returns (given: Option<uint32>)
      modifies this`channels, this`nextDynamicId, this`pendingHandlers, queues
      ensures (State(), given) == AfterOpenOutbound(old(State()), queues.maxQueuedBytes, protocol, cls, maxMessage, fixedId)
    {
      hide AfterSendWire, WireOf;
      var id;
      if fixedId.Some? {
        id := fixedId.value;
      } else {
        id := nextDynamicId;
        nextDynamicId := Add32(nextDynamicId, 2);
        if id == ILLEGAL_CHANNEL {
          id := nextDynamicId;
          nextDynamicId := Add32(nextDynamicId, 2);
        }
      }
      if id in channels {
        return None;
      }
      channels := channels[id := NewChannel(cls, maxMessage, Opening)];
      pendingHandlers := pendingHandlers - {id};
      if |protocol| >= U32 {
        return None;
      }
      var out := SendFrame(OpenFrame(id, protocol, cls, maxMessage), QosForClass(cls));
      given := if out == Full then None else Some(id);
    }

    method RefuseOpen(f: Frame, result: uint8) returns (verdict: Verdict)
      requires f.Open?
      modifies queues
      ensures var (queue, out) :=
        AfterSendWire(old(queues.State()), queues.maxQueuedBytes, f.channel, QosForClass(f.cls), WireOf(OpenAck(f.channel, 0, result)));
        State() == old(State()).(queue := queue) && verdict == if out == Full then Failed else Done
    {
      var out := SendFrame(OpenAck(f.channel, 0, result), QosForClass(f.cls));
      verdict := if out == Full then Failed else Done;
    }

    method HandleOpen(f: Frame) returns (verdict: Verdict)
      requires f.Open?
      modifies this`channels, this`pendingHandlers, queues
      ensures (State(), verdict) == AfterOpen(old(State()), queues.maxQueuedBytes, f)
    {
      hide AfterSendWire, WireOf;
      if f.channel in channels {
        return Failed;
      }
      if f.channel != CAPABILITY_CHANNEL {
        var weUseOdd := nextDynamicId % 2 == 1;
        var remoteIsOdd := f.channel % 2 == 1;
        if remoteIsOdd == weUseOdd {
          verdict := RefuseOpen(f, BAD_ID_PARITY);
          return;
        }
      }
      if |channels| >= maxConcurrentChannels {
        verdict := RefuseOpen(f, TOO_MANY_CHANNELS);
        return;
      }
      var handled := f.channel == CAPABILITY_CHANNEL || f.protocol in protocolHandlers || f.channel in pendingHandlers;
      if refuseUnhandledOpens && !handled {
        verdict := RefuseOpen(f, NO_HANDLER);
        return;
      }
      var maxMessage := MAX_CHAT_BYTES;
      if f.maxBytes > 0 {
        var ceiling := if f.cls == BULK then MAX_BULK_BYTES else MAX_CHAT_BYTES;
        maxMessage := if f.maxBytes > ceiling then ceiling else f.maxBytes;
      }
      channels := channels[f.channel := NewChannel(f.cls, maxMessage, IsOpen)];
      pendingHandlers := pendingHandlers - {f.channel};
      var out := SendFrame(OpenAck(f.channel, 0, 0), QosForClass(f.cls));
      verdict := if out == Full then Failed else Done;
    }

    method HandleOpenAck(f: Frame) returns (verdict: Verdict)
      requires f.OpenAck? && f.channel in channels
      modifies this`channels
      ensures (State(), verdict) == AfterOpenAck(old(State()), f)
    {
      if f.result != 0 {
        channels := channels - {f.channel};
        return Failed;
      }
      channels := channels[f.channel := channels[f.channel].(state := IsOpen)];
      return Done;
    }

    method SetMaxFrameBytes(bytes: nat) returns (ok: bool)
      modifies this`maxFrameBytes
      ensures ok == (bytes >= MIN_FRAME_BYTES)
      ensures maxFrameBytes == if ok then bytes else old(maxFrameBytes)
    {
      if bytes < MIN_FRAME_BYTES {
        return false;
      }
      maxFrameBytes := bytes;
      return true;
    }

    /** SendFrame, for a frame that has a wire form. */
    method SendFrame(f: Frame, qos: Qos) returns (out: Outcome)
      requires Encodable(f)
      modifies queues
      ensures (queues.State(), out) == AfterSendWire(old(queues.State()), queues.maxQueuedBytes, f.channel, qos, WireOf(f))
    {
      var wire := Encode(f);
      out := queues.SendWire(f.channel, qos, wire.value);
    }

    method SendData(id: uint32, payload: Bytes) returns (verdict: Verdict)
      requires maxFrameBytes >= MIN_FRAME_BYTES
      modifies this`channels, this`nextFragMsgId, queues
      ensures (State(), verdict) == AfterSendData(old(State()), queues.maxQueuedBytes, maxFrameBytes, id, payload)
    {
      if id !in channels || channels[id].state != IsOpen {
        return Failed;
      }
      var channel := channels[id];
      if |payload| > channel.limits.maxMessage {
        return Failed;
      }
      var maxSingle := maxFrameBytes - HEADER_BYTES;
      if |payload| <= maxSingle {
        var out := SendFrame(Data(id, channel.txSeq, payload), channel.qos);
        if out == Full {
          return Failed;
        }
        channels := channels[id := channel.(txSeq := Add32(channel.txSeq, 1))];
        return Done;
      }
      var chunkBytes := maxFrameBytes - HEADER_BYTES - FRAG_FIELDS_BYTES;
      var needed := (|payload| + chunkBytes - 1) / chunkBytes;
      if needed > MAX_FRAGMENTS {
        return Failed;
      }
      var msgId := nextFragMsgId;
      nextFragMsgId := IdAfter(nextFragMsgId);
      if channel.qos.Reliable? && queues.queuedBytes + |payload| > queues.maxQueuedBytes {
        return Failed;
      }
      verdict := SendFragments(id, channel, msgId, payload, chunkBytes);
    }

    /** One turn of SendData's loop. */
    method SendFragment(id: uint32, qos: Qos, txSeq: uint32, msgId: uint64, payload: Bytes, size: nat, i: nat)
      returns (out: Outcome)
      requires size >= 1 && i < Needed(|payload|, size) <= MAX_FRAGMENTS
      modifies queues
      ensures (queues.State(), out) ==
        AfterSendWire(old(queues.State()), queues.maxQueuedBytes, id, qos, WireOf(FragOf(id, txSeq, msgId, payload, size, i)))
    {
      ChunkSizes(payload, size, i);
      var offset := i * size;
      var length := Min(size, |payload| - offset);
      var chunk := payload[offset..][..length];
      var wire := EncodeFrag(id, txSeq, Piece(msgId, i, Needed(|payload|, size), |payload| % U32, chunk));
      out := queues.SendWire(id, qos, wire);
    }

    /** SendData's loop. */
    method SendFragments(id: uint32, channel: Channel, msgId: uint64, payload: Bytes, size: nat) returns (verdict: Verdict)
      requires size >= 1 && Needed(|payload|, size) <= MAX_FRAGMENTS
      requires id in channels && channels[id] == channel
      modifies this`channels, queues
      ensures var (queue, n, v) :=
        SentFrom(old(queues.State()), queues.maxQueuedBytes, id, channel.qos, channel.txSeq, msgId, payload, size, 0);
        && verdict == v
        && State() == WithTx(old(State()), id, queue, n)
    {
      ghost var cap, was := queues.maxQueuedBytes, State();
      ghost var goal := SentFrom(queues.State(), cap, id, channel.qos, channel.txSeq, msgId, payload, size, 0);
      var fragCount := Needed(|payload|, size);
      var i := 0;
      Add32Again(channel.txSeq, 0, 0);
      hide Add32, Needed;
      while i < fragCount
        invariant 0 <= i <= fragCount && id in channels
        invariant channels == was.channels[id := channel.(txSeq := Add32(channel.txSeq, i))]
        invariant goal == SentFrom(queues.State(), cap, id, channel.qos, channels[id].txSeq, msgId, payload, size, i)
      {
        hide AfterSendWire, FragOf, WireOf;
        var out := SendFragment(id, channel.qos, channels[id].txSeq, msgId, payload, size, i);
        if out == Full {
          return Failed;
        }
        Add32Again(channel.txSeq, i, 1);
        channels := channels[id := channels[id].(txSeq := Add32(channels[id].txSeq, 1))];
        i := i + 1;
      }
      verdict := Done;
    }

    method ResetChannel(id: uint32)
      requires id in channels
      modifies this`channels, queues
      ensures State() == AfterReset(old(State()), queues.maxQueuedBytes, id)
    {
      var channel := channels[id];
      queues.DropQueued(id);
      var out := SendFrame(Reset(id, channel.txSeq, RESET_CODE), channel.qos);
      channels := channels - {id};
    }

    method CloseChannel(id: uint32, reason: Bytes) returns (verdict: Verdict)
      modifies this`channels, queues
      ensures (State(), verdict) == AfterClose(old(State()), queues.maxQueuedBytes, id, reason)
    {
      hide AfterSendWire, WireOf;
      if id !in channels {
        return Failed;
      }
      var channel := channels[id];
      channels := channels[id := channel.(txSeq := Add32(channel.txSeq, 1), state := Closing)];
      if |reason| >= U32 {
        return Failed;
      }
      var out := SendFrame(Close(id, channel.txSeq, reason), channel.qos);
      verdict := if out == Full then Failed else Done;
    }

    method DispatchFrame(f: Frame, nowMs: int) returns (verdict: Verdict)
      requires Valid(State())
      modifies this`channels, this`delivered, this`pendingHandlers, queues
      ensures Valid(State())
      ensures (State(), verdict) == AfterFrame(old(State()), queues.maxQueuedBytes, f, nowMs)
    {
      var id := f.channel;
      if id !in channels && !f.Open? {
        return Failed;
      }
      if f.Open? {
        verdict := HandleOpen(f);
        return;
      }
      if f.OpenAck? {
        verdict := HandleOpenAck(f);
        return;
      }
      if f.Reset? || f.Close? {
        queues.DropQueued(id);
        channels := channels - {id};
        return Done;
      }
      var channel := channels[id];
      if channel.state != IsOpen {
        return Failed;
      }
      if channel.qos.Reliable? {
        if f.seqNo != channel.rxSeq {
          return Failed;
        }
        channel := channel.(rxSeq := Add32(channel.rxSeq, 1));
      }
      if f.Data? {
        channels := channels[id := channel];
        delivered := delivered + [Delivery(id, f.payload)];
        return Done;
      }
      verdict := PushFragment(id, channel, f.piece, nowMs);
    }

    /** DispatchFrame's Frag case, once the frame's number was taken. */
    method PushFragment(id: uint32, channel: Channel, piece: Piece, nowMs: int) returns (verdict: Verdict)
      requires Valid(State()) && id in channels && R.Valid(channel.partials)
      modifies this`channels, this`delivered, queues
      ensures Valid(State())
      ensures var (partials, out) := R.AfterPush(channel.partials, piece, nowMs, channel.limits);
        var kept := old(State()).(channels := old(State()).channels[id := channel.(partials := partials)]);
        (State(), verdict) ==
          match out
          case Refused(_) => (AfterReset(kept, queues.maxQueuedBytes, id), Failed)
          case Incomplete => (kept, Done)
          case Whole(message) => (kept.(delivered := kept.delivered + [Delivery(id, message)]), Done)
    {
      var reassembly := new R.MessageReassembly.Resumed(channel.limits, channel.partials);
      var assembled := reassembly.Push(piece, nowMs);
      channels := channels[id := channel.(partials := reassembly.partials)];
      match assembled {
        case Refused(_) =>
          ResetChannel(id);
          return Failed;
        case Incomplete =>
          return Done;
        case Whole(message) =>
          delivered := delivered + [Delivery(id, message)];
          return Done;
      }
    }

    method OnFrameInbound(wire: Bytes, nowMs: int) returns (verdict: Verdict)
      requires Valid(State())
      modifies this`channels, this`delivered, this`pendingHandlers, queues
      ensures Valid(State())
      ensures (State(), verdict) == AfterInbound(old(State()), queues.maxQueuedBytes, wire, nowMs)
    {
      var frame := Decode(wire);
      if frame.None? {
        return Failed;
      }
      verdict := DispatchFrame(frame.value, nowMs);
    }

    method SweepChannel(id: uint32, nowMs: int, timeoutMs: int)
      modifies this`channels
      ensures State() == AfterSweep(old(State()), id, nowMs, timeoutMs)
    {
      if id in channels {
        var reassembly := new R.MessageReassembly.Resumed(channels[id].limits, channels[id].partials);
        reassembly.SweepExpired(nowMs, timeoutMs);
        channels := channels[id := channels[id].(partials := reassembly.partials)];
      }
    }
  }
}
