/**
 How SendData cuts a long payload (src/L3/ChannelMux.cpp:482-544): the fragments, place by place, and what a call leaves behind.
 */
module MuxFragments {
  import opened Words
  import opened Chunks
  import opened ChannelWire
  import opened SendQueue
  import opened Mux
  import opened MuxTransparency

  /** The i-th fragment of `count`: `room` bytes of the payload from i * room on, fewer at the end. */
  function Fragment(id: uint32, seqNo: uint32, msgId: uint64, payload: Bytes, room: nat, count: uint16, i: nat): Frame
    requires i < count && |payload| < 0x1_0000_0000 && i * room <= |payload|
  {
    Frag(id, seqNo, Piece(msgId, i, count, |payload|, if |payload| - i * room <= room then payload[i * room..] else payload[i * room..][..room]))
  }

  lemma CutAsSaid(id: uint32, seqNo: uint32, msgId: uint64, payload: Bytes, room: nat, i: nat)
    requires room >= 1 && i < Needed(|payload|, room) <= 65535 && |payload| < 0x1_0000_0000
    ensures i * room < |payload|
    ensures FragOf(id, seqNo, msgId, payload, room, i) == Fragment(id, seqNo, msgId, payload, room, Needed(|payload|, room), i)
  {
    ChunkSizes(payload, room, i);
  }

  /** A frame may take `maxFrame` bytes: every fragment but the last takes them all, and so the fewest fragments there could be. */
  lemma FullFrames(id: uint32, seqNo: uint32, msgId: uint64, payload: Bytes, maxFrame: nat, i: nat)
    requires maxFrame >= 64 && i < Needed(|payload|, maxFrame - 25) <= 65535
    ensures var n, w := Needed(|payload|, maxFrame - 25), WireOf(FragOf(id, seqNo, msgId, payload, maxFrame - 25, i));
      && (if i + 1 < n then |w| == maxFrame else 26 <= |w| <= maxFrame)
      && (n - 1) * (maxFrame - 25) < |payload| <= n * (maxFrame - 25)
  {
    var room := maxFrame - 25;
    NeededBounds(|payload|, room);
    ChunkSizes(payload, room, i);
    if i + 1 < Needed(|payload|, room) { NextBegins(payload, room, i); }
    WireLength(FragOf(id, seqNo, msgId, payload, room, i));
    hide WireOf;
  }

  lemma NextBegins(payload: Bytes, room: nat, i: nat)
    requires room >= 1 && i + 1 < Needed(|payload|, room)
    ensures |ChunkAt(payload, room, i)| == room
  {
    ChunkSizes(payload, room, i + 1);
    assert (i + 1) * room == i * room + room;
  }

  lemma WireLength(f: Frame)
    requires f.Frag?
    ensures |WireOf(f)| == 25 + |f.piece.chunk|
  {
  }

  /** The fragments from the i-th to before the k-th, numbered on from `seqNo`. */
  function Fragments(id: uint32, seqNo: uint32, msgId: uint64, payload: Bytes, room: nat, i: nat, k: nat): seq<Bytes>
    requires room >= 1 && i <= k <= Needed(|payload|, room) <= 65535
    decreases k - i
  {
    if i == k then []
    else [WireOf(FragOf(id, seqNo, msgId, payload, room, i))] + Fragments(id, (seqNo + 1) % 0x1_0000_0000, msgId, payload, room, i + 1, k)
  }

  /** A call's fragments go in one after the other; it fails at the first for which there is no room, and that one and the rest never go. */
  lemma {:induction false} GoInTurn(q: SendState, cap: nat, id: uint32, seqNo: uint32, msgId: uint64, payload: Bytes, room: nat, i: nat)
    requires room >= 1 && i <= Needed(|payload|, room) <= 65535
    ensures var n, (t, k, verdict) := Needed(|payload|, room), SentFrom(q, cap, id, Reliable, seqNo, msgId, payload, room, i);
      && i <= k <= n && (verdict == Done <==> k == n)
      && StreamOf(t, id) == StreamOf(q, id) + Fragments(id, seqNo, msgId, payload, room, i, k)
    decreases Needed(|payload|, room) - i
  {
    hide StreamOf, AfterSendWire, WireOf, Needed, FragOf;
    if i < Needed(|payload|, room) {
      var w := WireOf(FragOf(id, seqNo, msgId, payload, room, i));
      var (after, out) := AfterSendWire(q, cap, id, Reliable, w);
      SendWireExtends(q, cap, id, w, id);
      if out != Full {
        GoInTurn(after, cap, id, Add32(seqNo, 1), msgId, payload, room, i + 1);
        var rest := Fragments(id, Add32(seqNo, 1), msgId, payload, room, i + 1, SentFrom(after, cap, id, Reliable, Add32(seqNo, 1), msgId, payload, room, i + 1).1);
        assert (StreamOf(q, id) + [w]) + rest == StreamOf(q, id) + ([w] + rest);
      }
    }
  }

  /** SendData of a payload longer than a frame, with no room in the queue for so many bytes: its message id is used up, and nothing goes. */
  lemma NoRoomForIt(s: MuxState, cap: nat, maxFrame: nat, id: uint32, payload: Bytes)
    requires maxFrame >= 64 && id in s.channels && s.channels[id].state == IsOpen && s.channels[id].qos.Reliable?
    requires maxFrame < |payload| + 9 && |payload| <= s.channels[id].limits.maxMessage && |payload| <= 65535 * (maxFrame - 25)
    requires s.queue.queuedBytes + |payload| > cap
    ensures AfterSendData(s, cap, maxFrame, id, payload) == (s.(nextMsgId := (s.nextMsgId + 1) % 0x1_0000_0000_0000_0000), Failed)
  {
    FewEnough(|payload|, maxFrame - 25);
    LongSend(s, cap, maxFrame, id, payload);
    hide SentFrom, Needed, AfterSendData;
  }

  /** With room: its fragments go, each the channel's next number, all of them or those before the first for which there then is none. */
  lemma FragmentedHere(s: MuxState, cap: nat, maxFrame: nat, id: uint32, payload: Bytes) returns (k: nat)
    requires maxFrame >= 64 && id in s.channels && s.channels[id].state == IsOpen && s.channels[id].qos.Reliable?
    requires maxFrame < |payload| + 9 && |payload| <= s.channels[id].limits.maxMessage && |payload| <= 65535 * (maxFrame - 25)
    requires s.queue.queuedBytes + |payload| <= cap
    ensures k <= Needed(|payload|, maxFrame - 25) <= 65535
    ensures var channel, (t, verdict) := s.channels[id], AfterSendData(s, cap, maxFrame, id, payload);
      && t.nextMsgId == (s.nextMsgId + 1) % 0x1_0000_0000_0000_0000 && t.delivered == s.delivered && t.opens == s.opens
      && (verdict == Done <==> k == Needed(|payload|, maxFrame - 25))
      && t.channels == s.channels[id := channel.(txSeq := (channel.txSeq + k) % 0x1_0000_0000)]
      && StreamOf(t.queue, id) == StreamOf(s.queue, id) + Fragments(id, channel.txSeq, s.nextMsgId, payload, maxFrame - 25, 0, k)
  {
    var room, channel := maxFrame - 25, s.channels[id];
    FewEnough(|payload|, room);
    GoInTurn(s.queue, cap, id, channel.txSeq, s.nextMsgId, payload, room, 0);
    LongSend(s, cap, maxFrame, id, payload);
    var (queue, n, verdict) := SentFrom(s.queue, cap, id, Reliable, channel.txSeq, s.nextMsgId, payload, room, 0);
    k := n;
    hide StreamOf, SentFrom, Needed, Fragments, AfterSendData;
    var txSeq: uint32 := (channel.txSeq + k) % 0x1_0000_0000;
    var after := s.(nextMsgId := (s.nextMsgId + 1) % 0x1_0000_0000_0000_0000, queue := queue, channels := s.channels[id := channel.(txSeq := txSeq)]);
    assert channel.qos == Reliable;
    assert AfterSendData(s, cap, maxFrame, id, payload) == (after, verdict);
    assert after.queue == queue && after.channels == s.channels[id := channel.(txSeq := txSeq)];
  }

  lemma LongSend(s: MuxState, cap: nat, maxFrame: nat, id: uint32, payload: Bytes)
    requires maxFrame >= 64 && id in s.channels && s.channels[id].state == IsOpen
    requires maxFrame < |payload| + 9 && |payload| <= s.channels[id].limits.maxMessage
    requires Needed(|payload|, maxFrame - 25) <= 65535
    ensures var t := s.(nextMsgId := (s.nextMsgId + 1) % 0x1_0000_0000_0000_0000);
      AfterSendData(s, cap, maxFrame, id, payload) ==
        if s.channels[id].qos.Reliable? && s.queue.queuedBytes + |payload| > cap then (t, Failed)
        else
          var channel := s.channels[id];
          var (queue, k, verdict) := SentFrom(s.queue, cap, id, channel.qos, channel.txSeq, s.nextMsgId, payload, maxFrame - 25, 0);
          (t.(queue := queue, channels := s.channels[id := channel.(txSeq := (channel.txSeq + k) % 0x1_0000_0000)]), verdict)
  {
    hide SentFrom, Needed;
  }

  lemma FewEnough(len: nat, room: nat)
    requires 1 <= room && 1 <= len <= 65535 * room
    ensures 1 <= Needed(len, room) <= 65535
  {
    NeededBounds(len, room);
    if Needed(len, room) > 65535 { MulMono(65535, Needed(len, room) - 1, room); }
  }

  /** A best-effort channel's fragments all go out at once, one for each part, whether they arrive or not. */
  lemma {:induction false} LooseGoAtOnce(q: SendState, cap: nat, id: uint32, seqNo: uint32, msgId: uint64, payload: Bytes, room: nat, i: nat)
    requires room >= 1 && i <= Needed(|payload|, room) <= 65535
    ensures var n, (t, k, verdict) := Needed(|payload|, room), SentFrom(q, cap, id, BestEffort, seqNo, msgId, payload, room, i);
      && k == n && verdict == Done && t.queues == q.queues && t.credits == q.credits
      && t.handed == q.handed + HandedLoose(id, Fragments(id, seqNo, msgId, payload, room, i, n))
    decreases Needed(|payload|, room) - i
  {
    hide WireOf, Needed, FragOf;
    var n := Needed(|payload|, room);
    if i < n {
      var w := WireOf(FragOf(id, seqNo, msgId, payload, room, i));
      var after := Transported(q, Handed(id, BestEffort, w));
      LooseGoAtOnce(after, cap, id, Add32(seqNo, 1), msgId, payload, room, i + 1);
      var rest := Fragments(id, Add32(seqNo, 1), msgId, payload, room, i + 1, n);
      assert ([w] + rest)[1..] == rest;
      assert (q.handed + [Handed(id, BestEffort, w)]) + HandedLoose(id, rest) == q.handed + HandedLoose(id, [w] + rest);
    }
  }

  /** SendData on a best-effort channel: within the limit it always succeeds, whatever waits or is left of the credit; each frame goes out at once. */
  lemma LooseSentHere(s: MuxState, cap: nat, maxFrame: nat, id: uint32, payload: Bytes)
    requires maxFrame >= 64 && id in s.channels && s.channels[id].state == IsOpen && s.channels[id].qos.BestEffort?
    requires maxFrame < |payload| + 9 && |payload| <= s.channels[id].limits.maxMessage && |payload| <= 65535 * (maxFrame - 25)
    ensures var channel, (t, verdict), n := s.channels[id], AfterSendData(s, cap, maxFrame, id, payload), Needed(|payload|, maxFrame - 25);
      && verdict == Done && n <= 65535 && t.queue.queues == s.queue.queues && t.queue.credits == s.queue.credits
      && t.channels == s.channels[id := channel.(txSeq := (channel.txSeq + n) % 0x1_0000_0000)]
      && t.queue.handed == s.queue.handed + HandedLoose(id, Fragments(id, channel.txSeq, s.nextMsgId, payload, maxFrame - 25, 0, n))
  {
    var channel, room := s.channels[id], maxFrame - 25;
    FewEnough(|payload|, room);
    LooseGoAtOnce(s.queue, cap, id, channel.txSeq, s.nextMsgId, payload, room, 0);
    LongSend(s, cap, maxFrame, id, payload);
    var (queue, n, verdict) := SentFrom(s.queue, cap, id, channel.qos, channel.txSeq, s.nextMsgId, payload, room, 0);
    var after := AfterSendData(s, cap, maxFrame, id, payload);
    hide SentFrom, Needed, Fragments, HandedLoose, AfterSendData;
    assert channel.qos == BestEffort;
    assert after.0.queue == queue && after.1 == verdict;
  }

  lemma LooseSentInOneFrame(s: MuxState, cap: nat, maxFrame: nat, id: uint32, payload: Bytes)
    requires maxFrame >= 64 && id in s.channels && s.channels[id].state == IsOpen && s.channels[id].qos.BestEffort?
    requires |payload| + 9 <= maxFrame && |payload| <= s.channels[id].limits.maxMessage
    ensures var channel, (t, verdict) := s.channels[id], AfterSendData(s, cap, maxFrame, id, payload);
      && verdict == Done && t.queue.queues == s.queue.queues && t.queue.credits == s.queue.credits
      && t.channels == s.channels[id := channel.(txSeq := (channel.txSeq + 1) % 0x1_0000_0000)]
      && t.queue.handed == s.queue.handed + [Handed(id, BestEffort, WireOf(Data(id, channel.txSeq, payload)))]
  {
    hide WireOf;
  }

  function HandedLoose(id: uint32, wires: seq<Bytes>): seq<Handed> {
    if wires == [] then [] else [Handed(id, BestEffort, wires[0])] + HandedLoose(id, wires[1..])
  }
}
