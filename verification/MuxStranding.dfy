/**
 SendData looks at the payload alone before it starts on its fragments
 (src/L3/ChannelMux.cpp:508-511); each fragment then brings its own header. So a
 message can still be cut short at the queue's cap. Here is exactly when.
 */
module MuxStranding {
  import opened Words
  import opened Chunks
  import opened ChannelWire
  import opened SendQueue
  import opened Mux
  import opened MuxProtocol

  const PER_FRAGMENT: nat := HEADER_BYTES + FRAG_FIELDS_BYTES

  lemma FragmentLength(id: uint32, seqNo: uint32, msgId: uint64, payload: Bytes, size: nat, i: nat)
    requires size >= 1 && i < Needed(|payload|, size) <= MAX_FRAGMENTS
    ensures |WireOf(FragOf(id, seqNo, msgId, payload, size, i))| == PER_FRAGMENT + |ChunkAt(payload, size, i)|
  {
  }

  /** What the queue must still take, from fragment `i` on. */
  function Remaining(len: nat, size: nat, i: nat): int
    requires size >= 1
  {
    if i >= Needed(len, size) then 0 else len - i * size + PER_FRAGMENT * (Needed(len, size) - i)
  }

  lemma RemainingStep(payload: Bytes, size: nat, i: nat)
    requires size >= 1 && i < Needed(|payload|, size)
    ensures Remaining(|payload|, size, i) == PER_FRAGMENT + |ChunkAt(payload, size, i)| + Remaining(|payload|, size, i + 1)
    ensures Remaining(|payload|, size, i + 1) >= 0
  {
    var n := Needed(|payload|, size);
    ChunkSizes(payload, size, i);
    NeededBounds(|payload|, size);
    assert (i + 1) * size == i * size + size;
    if i + 1 == n {
      assert |payload| - i * size <= size;
    } else {
      MulMono(i + 1, n - 1, size);
    }
  }

  /** Without credit the fragments go into the queue as long as they fit, and all of them do exactly when their bytes do. */
  lemma {:induction false} SentWithoutCredit(q: SendState, cap: nat, id: uint32, txSeq: uint32, msgId: uint64, payload: Bytes, size: nat, i: nat)
    requires size >= 1 && i <= Needed(|payload|, size) <= MAX_FRAGMENTS && !HasCredit(q.credits) && q.queuedBytes <= cap
    ensures var (t, n, verdict) := SentFrom(q, cap, id, Reliable, txSeq, msgId, payload, size, i);
      && (verdict == Done <==> q.queuedBytes + Remaining(|payload|, size, i) <= cap)
      && (n > i <==> i < Needed(|payload|, size) && q.queuedBytes + PER_FRAGMENT + |ChunkAt(payload, size, i)| <= cap)
      && n >= i
    decreases Needed(|payload|, size) - i
  {
    hide Needed, WireOf, FragOf, ChunkAt, Add32;
    if i < Needed(|payload|, size) {
      var w := WireOf(FragOf(id, txSeq, msgId, payload, size, i));
      FragmentLength(id, txSeq, msgId, payload, size, i);
      RemainingStep(payload, size, i);
      hide Remaining;
      var (after, out) := AfterSendWire(q, cap, id, Reliable, w);
      assert Flushed(q) == q;
      if out != Full {
        assert after == Enqueued(q, id, w);
        SentWithoutCredit(after, cap, id, Add32(txSeq, 1), msgId, payload, size, i + 1);
      }
    }
  }

  lemma RemainingBounds(len: nat, size: nat, i: nat)
    requires size >= 1
    ensures 0 <= Remaining(len, size, i) <= Remaining(len, size, 0)
  {
    NeededBounds(len, size);
    if i < Needed(len, size) { MulMono(i, Needed(len, size) - 1, size); }
  }

  // ------------------------------------------------------------ with credit

  /** A flush spends a slot a frame: it ends with the queue empty and the rest of the credit left, or with no credit. */
  lemma {:induction false} FlushSettles(s: SendState, cap: nat)
    requires Inv(s, cap)
    ensures Inv(Flushed(s), cap) && Flushed(s).queuedBytes <= s.queuedBytes
    ensures HasCredit(Flushed(s).credits) ==> Flushed(s).queues == map[] && Flushed(s).queuedBytes == 0
    ensures s.credits.Unlimited? ==> Flushed(s).credits.Unlimited?
    ensures s.credits.Slots? ==> Flushed(s).credits == Slots(Max(0, s.credits.n - QueuedCount(s.queues)))
    decreases QueuedCount(s.queues), |s.order|
  {
    if s.order != [] && HasCredit(s.credits) {
      TurnShrinks(s);
      TurnKeepsInv(s, cap);
      TurnSpendsOne(s);
      FlushSettles(Turn(s), cap);
    } else if s.order == [] {
      assert s.queues == map[];
    }
  }

  lemma TurnSpendsOne(s: SendState)
    requires s.order != [] && HasCredit(s.credits)
    ensures var t := Turn(s);
      && t.queuedBytes <= s.queuedBytes && (s.credits.Unlimited? ==> t.credits.Unlimited?)
      && (s.credits.Slots? ==> t.credits.Slots? && t.credits.n - QueuedCount(t.queues) == s.credits.n - QueuedCount(s.queues))
  {
    hide Total;
    var id := s.order[0];
    if id in s.queues && s.queues[id] != [] {
      TotalUpdate(s.queues, LengthOf, id, s.queues[id][1..]);
    }
  }

  /** Whether a message's fragments from `i` on all go in: the credit takes the first of them, the queue the rest. */
  predicate AllGoIn(credits: Credits, queued: int, cap: nat, len: nat, size: nat, i: nat)
    requires size >= 1
  {
    credits.Unlimited? || queued + Remaining(len, size, i + credits.n) <= cap
  }

  lemma {:induction false} SentExactlyWhen(q: SendState, cap: nat, id: uint32, txSeq: uint32, msgId: uint64, payload: Bytes, size: nat, i: nat)
    requires size >= 1 && i <= Needed(|payload|, size) <= MAX_FRAGMENTS && Inv(q, cap)
    ensures var f := Flushed(q);
      var (t, n, verdict) := SentFrom(q, cap, id, Reliable, txSeq, msgId, payload, size, i);
      && (verdict == Done <==> AllGoIn(f.credits, f.queuedBytes, cap, |payload|, size, i))
      && n >= i
      && (n > i <==> i < Needed(|payload|, size)
                     && (HasCredit(f.credits) || f.queuedBytes + PER_FRAGMENT + |ChunkAt(payload, size, i)| <= cap))
    decreases Needed(|payload|, size) - i
  {
    hide Needed, WireOf, FragOf, ChunkAt, Add32, Inv, Remaining;
    var f := Flushed(q);
    FlushSettles(q, cap);
    if i == Needed(|payload|, size) {
      if f.credits.Slots? { RemainingAtEnd(|payload|, size, i + f.credits.n); }
      QueuedWithin(f, cap);
    } else if HasCredit(f.credits) {
      var w := WireOf(FragOf(id, txSeq, msgId, payload, size, i));
      var after := Transported(f, Handed(id, Reliable, w));
      assert AfterSendWire(q, cap, id, Reliable, w) == (after, Passed);
      TransportKeepsInv(f, cap, Handed(id, Reliable, w));
      FlushSettles(after, cap);
      assert QueuedCount(after.queues) == 0;
      SentExactlyWhen(after, cap, id, Add32(txSeq, 1), msgId, payload, size, i + 1);
      QueuedWithin(after, cap);
      QueuedWithin(Flushed(after), cap);
      EmptyIsEmpty(after, cap);
    } else {
      QueuedWithin(f, cap);
      assert Flushed(f) == f;
      var w := WireOf(FragOf(id, txSeq, msgId, payload, size, i));
      assert AfterSendWire(q, cap, id, Reliable, w) == AfterSendWire(f, cap, id, Reliable, w);
      SentWithoutCredit(f, cap, id, txSeq, msgId, payload, size, i);
    }
  }

  lemma RemainingAtEnd(len: nat, size: nat, i: nat)
    requires size >= 1 && i >= Needed(len, size)
    ensures Remaining(len, size, i) == 0
  {
  }

  lemma QueuedWithin(s: SendState, cap: nat)
    requires Inv(s, cap)
    ensures s.queuedBytes <= cap
  {
  }

  lemma EmptyIsEmpty(s: SendState, cap: nat)
    requires Inv(s, cap) && s.queues == map[]
    ensures Flushed(s).queuedBytes == 0
    decreases |s.order|
  {
    if s.order != [] && HasCredit(s.credits) { EmptyIsEmpty(Turn(s), cap); }
  }

  /** A reliable payload too long for one frame, on an open channel that may carry it. */
  predicate LongSend(s: MuxState, cfg: Config, payload: Bytes) {
    && cfg.maxFrame >= MIN_FRAME_BYTES && cfg.channel in s.channels
    && s.channels[cfg.channel].state == IsOpen && s.channels[cfg.channel].qos.Reliable?
    && cfg.maxFrame - HEADER_BYTES < |payload| <= s.channels[cfg.channel].limits.maxMessage
    && Needed(|payload|, cfg.maxFrame - PER_FRAGMENT) <= MAX_FRAGMENTS
  }

  lemma WholeIsRemaining(payload: Bytes, size: nat)
    requires size >= 1 && payload != []
    ensures Needed(|payload|, size) >= 1 && |ChunkAt(payload, size, 0)| == Min(size, |payload|)
    ensures Remaining(|payload|, size, 0) == |payload| + PER_FRAGMENT * Needed(|payload|, size)
  {
    NeededBounds(|payload|, size);
    ChunkSizes(payload, size, 0);
  }

  /**
   After the flush that SendData's first frame brings, `credit` slots and `queued` bytes are left. The message goes out
   in full exactly when the payload alone fits under the cap now, and what of it the slots do not take fits then, headers
   included. It is cut short exactly when the first holds, the second does not, and there is a slot or room for one fragment.
   */
  lemma CutShortExactlyWhen(s: MuxState, cfg: Config, payload: Bytes)
    requires LongSend(s, cfg, payload) && Inv(s.queue, cfg.capA)
    ensures var f, size := Flushed(s.queue), cfg.maxFrame - PER_FRAGMENT;
      var goesIn := AllGoIn(f.credits, f.queuedBytes, cfg.capA, |payload|, size, 0);
      var verdict := AfterSendData(s, cfg.capA, cfg.maxFrame, cfg.channel, payload).1;
      && (verdict == Done <==> s.queue.queuedBytes + |payload| <= cfg.capA && goesIn)
      && (verdict == Failed && CallOf(s, cfg, cfg.channel, payload) != [] <==>
            && s.queue.queuedBytes + |payload| <= cfg.capA && !goesIn
            && (HasCredit(f.credits) || f.queuedBytes + PER_FRAGMENT + Min(size, |payload|) <= cfg.capA))
  {
    hide Needed, ChunkAt, SentFrom, Remaining, AfterSendWire, WireOf, Inv, Flushed;
    var size := cfg.maxFrame - PER_FRAGMENT;
    var channel := s.channels[cfg.channel];
    WholeIsRemaining(payload, size);
    SentExactlyWhen(s.queue, cfg.capA, cfg.channel, channel.txSeq, s.nextMsgId, payload, size, 0);
  }

  /**
   The same in numbers known before the call: with more slots than frames waiting, the flush empties the queue and the
   slots left over take the first fragments; with no credit function nothing is ever cut short; and a caller that counts
   the headers in beforehand is safe whatever the credit is.
   */
  lemma CutShortInNumbers(s: MuxState, cfg: Config, payload: Bytes)
    requires LongSend(s, cfg, payload) && Inv(s.queue, cfg.capA)
    ensures var size, waiting, queued := cfg.maxFrame - PER_FRAGMENT, QueuedCount(s.queue.queues), s.queue.queuedBytes;
      var cutShort := CutShort(s, cfg, payload);
      && (s.queue.credits.Unlimited? ==> !cutShort)
      && (s.queue.credits.Slots? && s.queue.credits.n > waiting ==>
            (cutShort <==> queued + |payload| <= cfg.capA < Remaining(|payload|, size, s.queue.credits.n - waiting)))
      && (s.queue.credits == Slots(0) ==>
            (cutShort <==>
               && queued + |payload| <= cfg.capA < queued + |payload| + PER_FRAGMENT * Needed(|payload|, size)
               && queued + PER_FRAGMENT + Min(size, |payload|) <= cfg.capA))
      && (queued + |payload| + PER_FRAGMENT * Needed(|payload|, size) <= cfg.capA ==>
            AfterSendData(s, cfg.capA, cfg.maxFrame, cfg.channel, payload).1 == Done)
  {
    hide Needed, ChunkAt, Remaining, AfterSendData, CallOf, Inv;
    var size := cfg.maxFrame - PER_FRAGMENT;
    CutShortExactlyWhen(s, cfg, payload);
    FlushSettles(s.queue, cfg.capA);
    WholeIsRemaining(payload, size);
    var f := Flushed(s.queue);
    if f.credits.Slots? { RemainingBounds(|payload|, size, f.credits.n); }
  }

  /**
   And it does happen, at a budget of 64: without credit, a 56-byte payload and a queue with room for 64 bytes; and with
   credit for one frame, which runs out in mid-message, a 100-byte payload and a queue with room for 100.
   */
  lemma CutShortHappens(channel: Channel, opens: Openings)
    requires channel.state == IsOpen && channel.qos.Reliable? && channel.limits.maxMessage >= 100
    ensures CutShort(Quiet(channel, opens, 0), Config(1, 64, 64, 64, [], []), seq(56, _ => 7))
    ensures CutShort(Quiet(channel, opens, 1), Config(1, 100, 64, 64, [], []), seq(100, _ => 7))
  {
    hide AfterSendData, CallOf;
    QuietInv(channel, opens, 0, 64);
    QuietInv(channel, opens, 1, 100);
    CutShortInNumbers(Quiet(channel, opens, 0), Config(1, 64, 64, 64, [], []), seq(56, _ => 7));
    CutShortInNumbers(Quiet(channel, opens, 1), Config(1, 100, 64, 64, [], []), seq(100, _ => 7));
  }

  predicate CutShort(s: MuxState, cfg: Config, payload: Bytes)
    requires cfg.maxFrame >= MIN_FRAME_BYTES
  {
    AfterSendData(s, cfg.capA, cfg.maxFrame, cfg.channel, payload).1 == Failed && CallOf(s, cfg, cfg.channel, payload) != []
  }

  /** One channel, nothing waiting, and `slots` frames' credit. */
  function Quiet(channel: Channel, opens: Openings, slots: nat): MuxState {
    MuxState(map[1 := channel], SendState(map[], [], 0, Slots(slots), []), 1, [], opens)
  }

  lemma QuietInv(channel: Channel, opens: Openings, slots: nat, cap: nat)
    ensures Inv(Quiet(channel, opens, slots).queue, cap) && QueuedCount(Quiet(channel, opens, slots).queue.queues) == 0
  {
  }
}
