/**
 The receiving side of mux transparency, and the theorem over whole runs.
 */
module MuxDelivery {
  import opened Words
  import opened Chunks
  import opened ChannelWire
  import opened SendQueue
  import opened Mux
  import opened MuxProtocol
  import opened MuxTransparency
  import R = Reassembly
  import Laws = ReassemblyLaws

  // ------------------------------------------------------------ where the receiver stands

  /** Exactly the first `j` fragments of the call's message are there. */
  ghost predicate HasFirst(partials: R.Partials, call: Call, j: nat)
    requires call.Pieces? && CallOk(call)
  {
    call.msgId in partials && Laws.Holds(partials[call.msgId], Split(call.payload, call.size), Laws.All(j))
  }

  /** The partials are those of messages cut short, and of the one under way. */
  ghost predicate PartialsAt(partials: R.Partials, calls: seq<Call>, k: nat, j: nat)
    requires k <= |calls| && (j > 0 ==> k < |calls| && calls[k].Pieces? && CallOk(calls[k]))
  {
    && (forall id :: id in partials ==> id in Stranded(calls[..k]) || (j > 0 && id == calls[k].msgId))
    && (j > 0 ==> HasFirst(partials, calls[k], j))
  }

  /** The messages cut short whose beginnings the receiver still holds. */
  ghost function InTheWay(partials: R.Partials, calls: seq<Call>): set<uint64> {
    Stranded(calls) * partials.Keys
  }

  /** The receiver has room to start on the call: in one DATA frame it always has. */
  ghost predicate FitsNow(ch: Channel, call: Call) {
    call.Single? || (|call.payload| <= ch.limits.maxMessage && |ch.partials| < ch.limits.maxPartials)
  }

  /** Channel `ch` has taken the first `k` calls' frames and `j` more of the next. */
  ghost predicate At(ch: Channel, got: seq<Bytes>, heard: seq<Bytes>, calls: seq<Call>, k: nat, j: nat) {
    && k <= |calls|
    && (j > 0 ==> k < |calls| && calls[k].Pieces? && CallOk(calls[k]) && j < calls[k].sent && |calls[k].payload| <= ch.limits.maxMessage)
    && ch.rxSeq == Add32(1, Count(calls[..k]) + j)
    && got == heard + Payloads(calls[..k])
    && PartialsAt(ch.partials, calls, k, j)
  }

  ghost predicate Ready(ch: Channel) {
    && ch.qos.Reliable? && !ch.limits.lossy && R.Valid(ch.partials)
  }

  ghost predicate ReceiverInv(b: MuxState, heard: seq<Bytes>, calls: seq<Call>, k: nat, j: nat, c: uint32) {
    c in b.channels && Ready(b.channels[c]) && At(b.channels[c], DeliveredOn(b.delivered, c), heard, calls, k, j)
  }

  lemma DeliveredOnSnoc(delivered: seq<Delivery>, d: Delivery, c: uint32)
    ensures DeliveredOn(delivered + [d], c) == DeliveredOn(delivered, c) + if d.channel == c then [d.payload] else []
  {
    assert (delivered + [d])[..|delivered|] == delivered;
  }

  lemma PrefixSnoc(calls: seq<Call>, k: nat)
    requires k < |calls|
    ensures Count(calls[..k + 1]) == Count(calls[..k]) + FrameCount(calls[k])
    ensures Payloads(calls[..k + 1]) == Payloads(calls[..k]) + if InFull(calls[k]) then [calls[k].payload] else []
    ensures Stranded(calls[..k + 1]) == Stranded(calls[..k]) + if InFull(calls[k]) then {} else {calls[k].msgId}
  {
    assert calls[..k + 1][..k] == calls[..k];
  }

  /** Messages cut short before call `k` have smaller ids than its own. */
  lemma {:induction false} StrandedBelow(calls: seq<Call>, k: nat, l: nat, next: uint64)
    requires k <= l < |calls| && IdsOk(calls, next) && calls[l].Pieces?
    ensures forall id :: id in Stranded(calls[..k]) ==> id < calls[l].msgId
  {
    if k > 0 {
      PrefixSnoc(calls, k - 1);
      StrandedBelow(calls, k - 1, l, next);
    }
  }

  lemma {:induction false} StrandedGrows(calls: seq<Call>, k: nat)
    requires k <= |calls|
    ensures Stranded(calls[..k]) <= Stranded(calls)
    decreases |calls| - k
  {
    if k == |calls| {
      assert calls[..k] == calls;
    } else {
      PrefixSnoc(calls, k);
      StrandedGrows(calls, k + 1);
    }
  }

  // ------------------------------------------------------------ the next frame arrives

  /** The piece a fragment carries is the one the reassembly laws speak of. */
  lemma FragmentOfCall(call: Call, c: uint32, n: nat, i: nat, limits: R.Limits)
    requires call.Pieces? && CallOk(call) && i < call.sent && |call.payload| <= limits.maxMessage
    ensures var cut := Split(call.payload, call.size);
      && Laws.WellCut(cut, limits) && |cut| == Needed(|call.payload|, call.size) && Join(cut) == call.payload
      && FrameAt(call, c, n, i) == Frag(c, Add32(1, n), Laws.Fragment(cut, call.msgId, i, limits))
  {
    Laws.SplitIsWellCut(call.payload, call.size, limits);
    hide Laws.WellCut, Join;
  }

  /** What the reassembler makes of the next fragment of call `k`. */
  lemma PieceArrives(ch: Channel, calls: seq<Call>, k: nat, j: nat, next: uint64, n: nat, c: uint32, nowMs: int)
    requires k < |calls| && CallOk(calls[k]) && calls[k].Pieces? && j < calls[k].sent
    requires PartialsAt(ch.partials, calls, k, j) && Ready(ch)
    requires IdsOk(calls, next) && (j == 0 ==> FitsNow(ch, calls[k])) && (j > 0 ==> |calls[k].payload| <= ch.limits.maxMessage)
    ensures var call := calls[k];
      var f := FrameAt(call, c, n, j);
      var (after, out) := R.AfterPush(ch.partials, f.piece, nowMs, ch.limits);
      && after - {call.msgId} == ch.partials - {call.msgId}
      && (if j + 1 == Needed(|call.payload|, call.size) then out == R.Whole(call.payload) && call.msgId !in after
          else out == R.Incomplete && HasFirst(after, call, j + 1))
  {
    var call, cut := calls[k], Split(calls[k].payload, calls[k].size);
    FragmentOfCall(call, c, n, j, ch.limits);
    StrandedBelow(calls, k, k, next);
    assert call.msgId in ch.partials ==> j > 0;
    assert Laws.All(j) + {j} == Laws.All(j + 1);
    AllDiffer(j + 1, |cut|);
    hide Laws.All, Laws.Holds, Laws.WellCut, R.AfterPush, Split, Join, Stranded;
    Laws.PushHolds(ch.partials, cut, Laws.All(j), call.msgId, j, nowMs, ch.limits);
  }

  lemma AllDiffer(m: nat, n: nat)
    ensures Laws.All(m) == Laws.All(n) <==> m == n
    ensures Laws.All(0) == {} && (m > 0 ==> m - 1 !in Laws.All(m - 1))
  {
    if m < n { assert m in Laws.All(n) && m !in Laws.All(m); }
    if n < m { assert n in Laws.All(m) && n !in Laws.All(n); }
  }

  lemma RoomForOne(ch: Channel, calls: seq<Call>, k: nat, j: nat)
    requires k < |calls| && CallOk(calls[k]) && calls[k].Pieces? && PartialsAt(ch.partials, calls, k, j)
    requires |InTheWay(ch.partials, calls)| < ch.limits.maxPartials
    ensures j == 0 ==> |ch.partials| < ch.limits.maxPartials
  {
    if j == 0 {
      StrandedGrows(calls, k);
      assert ch.partials.Keys == InTheWay(ch.partials, calls);
      assert |ch.partials| == |ch.partials.Keys|;
    }
  }

  /** One frame further in the same call, or at the start of the next. */
  function Place(calls: seq<Call>, k: nat, j: nat): (nat, nat) {
    if k < |calls| && j + 1 < FrameCount(calls[k]) then (k, j + 1) else (k + 1, 0)
  }

  lemma PlaceCounts(calls: seq<Call>, k: nat, j: nat)
    requires k < |calls| && j < FrameCount(calls[k])
    ensures var (l, i) := Place(calls, k, j);
      && l <= |calls| && (i > 0 ==> l < |calls| && i < FrameCount(calls[l]))
      && Count(calls[..l]) + i == Count(calls[..k]) + j + 1
  {
    PrefixSnoc(calls, k);
  }

  lemma PartialsMove(before: R.Partials, after: R.Partials, calls: seq<Call>, k: nat, j: nat)
    requires k < |calls| && CallOk(calls[k]) && calls[k].Pieces? && j < calls[k].sent && PartialsAt(before, calls, k, j)
    requires var call := calls[k];
      && after - {call.msgId} == before - {call.msgId}
      && (if j + 1 == Needed(|call.payload|, call.size) then call.msgId !in after else HasFirst(after, call, j + 1))
    ensures var (l, i) := Place(calls, k, j);
      PartialsAt(after, calls, l, i)
  {
    PrefixSnoc(calls, k);
    hide Laws.All, Laws.Holds, Split, Needed, Stranded;
    var id := calls[k].msgId;
    forall x | x in after && x != id
      ensures x in before
    {
      assert x in after - {id};
    }
  }

  lemma MovesOn(ch: Channel, after: Channel, got: seq<Bytes>, gotAfter: seq<Bytes>, heard: seq<Bytes>, calls: seq<Call>, k: nat, j: nat)
    requires At(ch, got, heard, calls, k, j) && CallsOk(calls) && k < |calls| && j < FrameCount(calls[k])
    requires after.rxSeq == Add32(ch.rxSeq, 1) && after.limits == ch.limits
    requires j == 0 ==> FitsNow(ch, calls[k])
    requires gotAfter == got + if j + 1 == FrameCount(calls[k]) && InFull(calls[k]) then [calls[k].payload] else []
    requires var (l, i) := Place(calls, k, j); PartialsAt(after.partials, calls, l, i)
    ensures var (l, i) := Place(calls, k, j); At(after, gotAfter, heard, calls, l, i)
  {
    hide Count, Payloads, PartialsAt, InFull, Stranded, Add32;
    PlaceCounts(calls, k, j);
    PrefixSnoc(calls, k);
    Add32Again(1, Count(calls[..k]) + j, 1);
  }

  lemma SingleArrives(b: MuxState, capB: nat, heard: seq<Bytes>, calls: seq<Call>, k: nat, c: uint32, nowMs: int)
    requires Mux.Valid(b) && ReceiverInv(b, heard, calls, k, 0, c) && b.channels[c].state == IsOpen && CallsOk(calls) && k < |calls| && calls[k].Single?
    ensures var (t, verdict) := AfterFrame(b, capB, Data(c, Add32(1, Count(calls[..k])), calls[k].payload), nowMs);
      && verdict == Done && ReceiverInv(t, heard, calls, k + 1, 0, c) && t.channels[c].state == b.channels[c].state
  {
    var ch, d := b.channels[c], Delivery(c, calls[k].payload);
    SingleMoves(ch.partials, calls, k);
    DeliveredOnSnoc(b.delivered, d, c);
    hide Count, Payloads, PartialsAt, InFull, Stranded, DeliveredOn, Add32;
    MovesOn(ch, Counted(ch), DeliveredOn(b.delivered, c), DeliveredOn(b.delivered + [d], c), heard, calls, k, 0);
    hide At;
  }

  lemma PieceFrameArrives(b: MuxState, capB: nat, heard: seq<Bytes>, calls: seq<Call>, next: uint64, k: nat, j: nat, c: uint32, nowMs: int)
    requires Mux.Valid(b) && ReceiverInv(b, heard, calls, k, j, c) && b.channels[c].state == IsOpen
    requires CallsOk(calls) && IdsOk(calls, next) && k < |calls| && calls[k].Pieces? && j < calls[k].sent
    requires j == 0 ==> FitsNow(b.channels[c], calls[k])
    ensures var f := FrameAt(calls[k], c, Count(calls[..k]) + j, j);
      var (t, verdict) := AfterFrame(b, capB, f, nowMs);
      var (l, i) := Place(calls, k, j);
      && verdict == Done && ReceiverInv(t, heard, calls, l, i, c) && t.channels[c].state == b.channels[c].state
  {
    hide Count, Payloads, PartialsAt, InFull, Stranded, DeliveredOn, Add32, HasFirst, Needed, CallsOk, IdsOk, CallOk, R.AfterPush;
    var ch, call, n := b.channels[c], calls[k], Count(calls[..k]) + j;
    assert CallOk(call) by { OneIsOk(calls, k); }
    var f := FrameAt(call, c, n, j);
    assert f.Frag? && f.channel == c && f.seqNo == ch.rxSeq by { PieceHeader(call, c, n, j); }
    var (partials, out) := R.AfterPush(ch.partials, f.piece, nowMs, ch.limits);
    PieceArrives(ch, calls, k, j, next, n, c, nowMs);
    Laws.PushKeepsValid(ch.partials, f.piece, nowMs, ch.limits);
    PartialsMove(ch.partials, partials, calls, k, j);
    var d := Delivery(c, call.payload);
    DeliveredOnSnoc(b.delivered, d, c);
    InFullMeans(call);
    var after := Counted(ch).(partials := partials);
    var got := if out.Whole? then DeliveredOn(b.delivered + [d], c) else DeliveredOn(b.delivered, c);
    SentBound(call);
    MovesOn(ch, after, DeliveredOn(b.delivered, c), got, heard, calls, k, j);
    hide At;
  }

  lemma OneIsOk(calls: seq<Call>, k: nat)
    requires CallsOk(calls) && k < |calls|
    ensures CallOk(calls[k])
  {
  }

  lemma PieceHeader(call: Call, c: uint32, n: nat, i: nat)
    requires CallOk(call) && call.Pieces? && i < call.sent
    ensures FrameAt(call, c, n, i).Frag? && FrameAt(call, c, n, i).channel == c && FrameAt(call, c, n, i).seqNo == Add32(1, n)
  {
  }

  lemma SentBound(call: Call)
    requires CallOk(call) && call.Pieces?
    ensures call.size >= 1 && call.sent <= Needed(|call.payload|, call.size)
  {
  }

  /** The receiver takes the channel's next frame without complaint and stands one frame further. */
  lemma FrameArrives(b: MuxState, capB: nat, heard: seq<Bytes>, calls: seq<Call>, next: uint64, k: nat, j: nat, c: uint32, nowMs: int)
    requires Mux.Valid(b) && ReceiverInv(b, heard, calls, k, j, c) && b.channels[c].state == IsOpen
    requires CallsOk(calls) && IdsOk(calls, next) && k < |calls| && j < FrameCount(calls[k])
    requires j == 0 ==> FitsNow(b.channels[c], calls[k])
    ensures var (t, verdict) := AfterFrame(b, capB, FrameAt(calls[k], c, Count(calls[..k]) + j, j), nowMs);
      var (l, i) := Place(calls, k, j);
      && verdict == Done && ReceiverInv(t, heard, calls, l, i, c) && t.channels[c].state == b.channels[c].state
  {
    hide Count, Stranded, ReceiverInv, AfterFrame, IdsOk, Add32;
    if calls[k].Single? {
      SingleArrives(b, capB, heard, calls, k, c, nowMs);
    } else {
      PieceFrameArrives(b, capB, heard, calls, next, k, j, c, nowMs);
    }
  }

  /** A fragmented message too long for this end, or one partial too many, ends the channel here at its first fragment. */
  lemma FirstPieceRefused(b: MuxState, capB: nat, heard: seq<Bytes>, calls: seq<Call>, next: uint64, k: nat, c: uint32, nowMs: int)
    requires Mux.Valid(b) && ReceiverInv(b, heard, calls, k, 0, c) && b.channels[c].state == IsOpen
    requires CallsOk(calls) && IdsOk(calls, next) && k < |calls| && !FitsNow(b.channels[c], calls[k])
    ensures var (t, verdict) := AfterFrame(b, capB, FrameAt(calls[k], c, Count(calls[..k]), 0), nowMs);
      verdict == Failed && c !in t.channels && t.delivered == b.delivered
  {
    hide Count, Payloads, DeliveredOn, Add32, AfterReset, Split, Stranded;
    var ch, call := b.channels[c], calls[k];
    assert CallOk(call) by { OneIsOk(calls, k); }
    NeededBounds(|call.payload|, call.size);
    StrandedBelow(calls, k, k, next);
    assert call.msgId !in ch.partials;
    PieceHeader(call, c, Count(calls[..k]), 0);
    var f := FrameAt(call, c, Count(calls[..k]), 0);
    var channel := Counted(ch);
    assert R.AfterPush(channel.partials, f.piece, nowMs, channel.limits).1.Refused?;
    var kept := b.(channels := b.channels[c := channel.(partials := R.AfterPush(channel.partials, f.piece, nowMs, channel.limits).0)]);
    ResetMeans(kept, capB, c);
    ResetDeliversNothing(kept, capB, c);
  }

  lemma InFullMeans(call: Call)
    requires CallOk(call)
    ensures InFull(call) <==> call.Single? || call.sent == Needed(|call.payload|, call.size)
  {
  }

  lemma SingleMoves(partials: R.Partials, calls: seq<Call>, k: nat)
    requires k < |calls| && calls[k].Single? && PartialsAt(partials, calls, k, 0)
    ensures PartialsAt(partials, calls, k + 1, 0) && InFull(calls[k])
  {
    PrefixSnoc(calls, k);
  }

  // ------------------------------------------------------------ what else happens at the receiver

  lemma ReceiverUntouched(b: MuxState, t: MuxState, heard: seq<Bytes>, calls: seq<Call>, k: nat, j: nat, c: uint32)
    requires ReceiverInv(b, heard, calls, k, j, c) && c in t.channels
    requires t.channels[c] == b.channels[c].(txSeq := t.channels[c].txSeq)
    requires DeliveredOn(t.delivered, c) == DeliveredOn(b.delivered, c)
    ensures ReceiverInv(t, heard, calls, k, j, c)
  {
    hide Count, Payloads, PartialsAt, DeliveredOn, Add32;
  }

  /** A frame of another channel leaves this one alone, even when it ends its own. */
  lemma OtherArrives(b: MuxState, capB: nat, f: Frame, nowMs: int, c: uint32)
    requires Mux.Valid(b) && f.channel != c && c in b.channels
    ensures var t := AfterFrame(b, capB, f, nowMs).0;
      && c in t.channels && t.channels[c] == b.channels[c] && Mux.Valid(t)
      && DeliveredOn(t.delivered, c) == DeliveredOn(b.delivered, c)
  {
    hide AfterReset, AfterDrop, DeliveredOn, R.AfterPush, AfterOpen;
    var id := f.channel;
    if f.Open? { OpenByPeer(b, capB, f, c); OpenKeepsValid(b, capB, f); }
    if id in b.channels && f.Data? {
      DeliveredOnSnoc(b.delivered, Delivery(id, f.payload), c);
    }
    if id in b.channels && f.Frag? {
      var channel := Counted(b.channels[id]);
      var (partials, out) := R.AfterPush(channel.partials, f.piece, nowMs, channel.limits);
      Laws.PushKeepsValid(channel.partials, f.piece, nowMs, channel.limits);
      var kept := b.(channels := b.channels[id := channel.(partials := partials)]);
      ResetMeans(kept, capB, id);
      ResetDeliversNothing(kept, capB, id);
      if out.Whole? { DeliveredOnSnoc(b.delivered, Delivery(id, out.message), c); }
    }
  }

  lemma OpenKeepsValid(b: MuxState, cap: nat, f: Frame)
    requires Mux.Valid(b) && f.Open?
    ensures Mux.Valid(AfterOpen(b, cap, f).0)
  {
    hide AfterSendWire, WireOf;
  }

  lemma ResetDeliversNothing(b: MuxState, cap: nat, id: uint32)
    requires id in b.channels
    ensures AfterReset(b, cap, id).delivered == b.delivered
  {
  }

  /** B's own sends change only what it sends. */
  lemma SendsLeaveReceiving(b: MuxState, cap: nat, maxFrame: nat, id: uint32, payload: Bytes, c: uint32)
    requires maxFrame >= MIN_FRAME_BYTES && Mux.Valid(b) && c in b.channels
    ensures var t := AfterSendData(b, cap, maxFrame, id, payload).0;
      && c in t.channels && t.channels[c] == b.channels[c].(txSeq := t.channels[c].txSeq)
      && t.delivered == b.delivered && Mux.Valid(t)
  {
    hide AfterSendWire, SentFrom, WireOf, Add32, Needed;
  }

  /** A sweep that spares the message under way spares the claim. */
  lemma SweepLeavesLive(b: MuxState, heard: seq<Bytes>, calls: seq<Call>, k: nat, j: nat, c: uint32, id: uint32, nowMs: int, timeoutMs: int)
    requires Mux.Valid(b) && ReceiverInv(b, heard, calls, k, j, c)
    requires id == c && j > 0 && calls[k].msgId in b.channels[c].partials ==>
               nowMs - b.channels[c].partials[calls[k].msgId].startedMs <= timeoutMs
    ensures AfterSweep(b, id, nowMs, timeoutMs).channels[c].state == b.channels[c].state
    ensures ReceiverInv(AfterSweep(b, id, nowMs, timeoutMs), heard, calls, k, j, c) && Mux.Valid(AfterSweep(b, id, nowMs, timeoutMs))
  {
    hide Count, Payloads, Stranded, DeliveredOn, Add32, Laws.Holds, Split;
  }

  // ------------------------------------------------------------ the transport keeps order

  lemma {:induction false} HandedGrows(handed: seq<Handed>, n: nat, c: uint32)
    requires n <= |handed|
    ensures HandedOf(handed[..n], c) <= HandedOf(handed, c)
    decreases |handed|
  {
    if n == |handed| {
      assert handed[..n] == handed;
    } else {
      var front := handed[..|handed| - 1];
      assert front[..n] == handed[..n];
      HandedGrows(front, n, c);
    }
  }

  /** The next frame of the channel to come off the transport is the next of its stream. */
  lemma NextOfStream(q: SendState, got: nat, c: uint32)
    requires got < |q.handed| && q.handed[got].channel == c && q.handed[got].qos.Reliable?
    ensures var read := |HandedOf(q.handed[..got], c)|;
      && read < |StreamOf(q, c)| && StreamOf(q, c)[read] == q.handed[got].wire
      && |HandedOf(q.handed[..got + 1], c)| == read + 1
  {
    HandedOfSnoc(q.handed[..got], q.handed[got], c);
    assert q.handed[..got] + [q.handed[got]] == q.handed[..got + 1];
    HandedGrows(q.handed, got + 1, c);
  }

  lemma OtherEntry(q: SendState, got: nat, c: uint32)
    requires got < |q.handed| && (q.handed[got].channel != c || q.handed[got].qos.BestEffort?)
    ensures HandedOf(q.handed[..got + 1], c) == HandedOf(q.handed[..got], c)
  {
    HandedOfSnoc(q.handed[..got], q.handed[got], c);
    assert q.handed[..got] + [q.handed[got]] == q.handed[..got + 1];
  }

  lemma {:induction false} CallWiresAt(call: Call, c: uint32, n: nat, i: nat, j: nat, x: nat)
    requires CallOk(call) && i <= x < j <= FrameCount(call)
    ensures |CallWires(call, c, n, i, j)| == j - i
    ensures CallWires(call, c, n, i, j)[x - i] == WireOf(FrameAt(call, c, n + x, x))
    decreases j - i
  {
    hide WireOf, FrameAt, CallOk;
    CallWiresLength(call, c, n, i, j);
    if i < x { CallWiresAt(call, c, n, i + 1, j, x); }
  }

  lemma {:induction false} CallWiresLength(call: Call, c: uint32, n: nat, i: nat, j: nat)
    requires CallOk(call) && i <= j <= FrameCount(call)
    ensures |CallWires(call, c, n, i, j)| == j - i
    decreases j - i
  {
    if i < j { CallWiresLength(call, c, n, i + 1, j); }
  }

  lemma {:induction false} WiresLength(calls: seq<Call>, c: uint32)
    requires CallsOk(calls)
    ensures |Wires(calls, c)| == Count(calls)
  {
    if calls != [] {
      WiresLength(calls[..|calls| - 1], c);
      CallWiresLength(calls[|calls| - 1], c, Count(calls[..|calls| - 1]), 0, FrameCount(calls[|calls| - 1]));
    }
  }

  /** Frame `j` of call `k` stands where its number says. */
  lemma {:induction false} WiresAt(calls: seq<Call>, c: uint32, k: nat, j: nat)
    requires CallsOk(calls) && k < |calls| && j < FrameCount(calls[k])
    ensures var x := Count(calls[..k]) + j;
      x < |Wires(calls, c)| && Wires(calls, c)[x] == WireOf(FrameAt(calls[k], c, x, j))
  {
    hide CallWires, WireOf, FrameAt, CallOk;
    var front, call := calls[..|calls| - 1], calls[|calls| - 1];
    WiresLength(front, c);
    WiresLength(calls, c);
    if k == |calls| - 1 {
      CallWiresAt(call, c, Count(front), 0, FrameCount(call), j);
    } else {
      assert front[..k] == calls[..k];
      WiresAt(front, c, k, j);
    }
  }

  // ------------------------------------------------------------ the invariant of the system

  ghost predicate Inv(s: System, cfg: Config) {
    && Mux.Valid(s.a) && Mux.Valid(s.b)
    && SenderInv(s.a, s.calls, s.accepted, cfg.early, cfg.channel) && LengthsFit(s.a.channels[cfg.channel], cfg)
    && LabelsOk(s.a.queue, cfg.channel)
    && s.got <= |s.a.queue.handed|
    && ReceiverInv(s.b, cfg.heard, s.calls, s.at, s.piece, cfg.channel)
    && Standing(s.b, s.calls, s.at, s.piece, ReadSoFar(s, cfg.channel), cfg)
  }

  /** The peer's yes to this end's OPEN. */
  predicate IsYes(w: Bytes, c: uint32) {
    Decoded(w).Some? && Decoded(w).value.OpenAck? && Decoded(w).value.channel == c && Decoded(w).value.result == 0
  }

  /** After `read` frames of the channel: still waiting for the answer, or open and at the place in the history they lead to. */
  ghost predicate Standing(b: MuxState, calls: seq<Call>, at: nat, piece: nat, read: nat, cfg: Config)
    requires cfg.channel in b.channels && at <= |calls|
  {
    var state := b.channels[cfg.channel].state;
    if read < |cfg.early| then
      && at == 0 && piece == 0 && (state == Opening || state == IsOpen)
      && forall i :: read <= i < |cfg.early| ==> IsYes(cfg.early[i], cfg.channel)
    else
      state == IsOpen && |cfg.early| + Count(calls[..at]) + piece == read
  }

  /** The beginnings of messages cut short that B holds at the moment leave room for one more message. */
  ghost predicate RoomLeft(s: System, c: uint32) {
    c in s.b.channels && |InTheWay(s.b.channels[c].partials, s.calls)| < s.b.channels[c].limits.maxPartials
  }

  /** The next frame off the transport is no first fragment that end B must refuse. */
  ghost predicate Welcome(s: System, cfg: Config) {
    s.got < |s.a.queue.handed| && s.a.queue.handed[s.got].channel == cfg.channel && cfg.channel in s.b.channels
    && ReadSoFar(s, cfg.channel) >= |cfg.early| && s.at < |s.calls| && s.piece == 0 ==>
      FitsNow(s.b.channels[cfg.channel], s.calls[s.at])
  }

  /** That is so while no message is longer than B's limit and B's beginnings of messages cut short leave room. */
  lemma WelcomeWithRoom(s: System, cfg: Config)
    requires Inv(s, cfg) && RoomLeft(s, cfg.channel)
    requires s.a.channels[cfg.channel].limits.maxMessage <= s.b.channels[cfg.channel].limits.maxMessage
    ensures Welcome(s, cfg)
  {
    if s.at < |s.calls| && s.piece == 0 && s.calls[s.at].Pieces? {
      assert CallOk(s.calls[s.at]);
      RoomForOne(s.b.channels[cfg.channel], s.calls, s.at, 0);
    }
  }

  /** For which it is enough that few messages were cut short at all. */
  lemma FewCutShort(s: System, cfg: Config)
    requires Inv(s, cfg) && |Stranded(s.calls)| < s.b.channels[cfg.channel].limits.maxPartials
    requires s.a.channels[cfg.channel].limits.maxMessage <= s.b.channels[cfg.channel].limits.maxMessage
    ensures Welcome(s, cfg)
  {
    Laws.SubsetSize(InTheWay(s.b.channels[cfg.channel].partials, s.calls), Stranded(s.calls));
    hide Inv;
    WelcomeWithRoom(s, cfg);
  }

  lemma {:induction false} CountGrows(calls: seq<Call>, k: nat)
    requires k <= |calls|
    ensures Count(calls[..k]) <= Count(calls)
    decreases |calls| - k
  {
    if k == |calls| {
      assert calls[..k] == calls;
    } else {
      PrefixSnoc(calls, k);
      CountGrows(calls, k + 1);
    }
  }

  /** The cursor stands inside the history as long as frames of the channel are still to come. */
  lemma CursorInside(s: System, cfg: Config)
    requires Inv(s, cfg) && s.got < |s.a.queue.handed| && ReadSoFar(s, cfg.channel) >= |cfg.early|
    requires s.a.queue.handed[s.got].channel == cfg.channel && s.a.queue.handed[s.got].qos.Reliable?
    ensures CallsOk(s.calls) && s.at < |s.calls| && s.piece < FrameCount(s.calls[s.at])
    ensures Decoded(s.a.queue.handed[s.got].wire) ==
            Some(FrameAt(s.calls[s.at], cfg.channel, Count(s.calls[..s.at]) + s.piece, s.piece))
  {
    hide StreamOf, HandedOf, Payloads, PartialsAt, LabelsOk, Wires, Add32, Mux.Valid, WithinPolicy, IdsOk, Count, Ready;
    NextOfStream(s.a.queue, s.got, cfg.channel);
    WiresLength(s.calls, cfg.channel);
    CursorBefore(s.calls, s.at, s.piece);
    FrameOfWire(s.calls, cfg.channel, s.at, s.piece);
  }

  /** Fewer frames read than sent: the cursor is on a call, at one of its frames. */
  lemma CursorBefore(calls: seq<Call>, k: nat, j: nat)
    requires CallsOk(calls) && k <= |calls| && Count(calls[..k]) + j < Count(calls)
    requires j > 0 ==> k < |calls| && j < FrameCount(calls[k])
    ensures k < |calls| && j < FrameCount(calls[k])
  {
    assert calls[..|calls|] == calls;
    assert k < |calls|;
    FrameCountPositive(calls, k);
  }

  lemma FrameOfWire(calls: seq<Call>, c: uint32, k: nat, j: nat)
    requires CallsOk(calls) && k < |calls| && j < FrameCount(calls[k])
    ensures var x := Count(calls[..k]) + j;
      x < |Wires(calls, c)| && Decoded(Wires(calls, c)[x]) == Some(FrameAt(calls[k], c, x, j))
  {
    hide Wires, Decoded, Count;
    WiresAt(calls, c, k, j);
    WireLabelled(FrameAt(calls[k], c, Count(calls[..k]) + j, j));
  }

  lemma FrameCountPositive(calls: seq<Call>, k: nat)
    requires CallsOk(calls) && k < |calls|
    ensures FrameCount(calls[k]) >= 1
  {
  }

  // ------------------------------------------------------------ every step keeps it

  lemma HandedPrefixStays(q: SendState, t: SendState, got: nat, c: uint32)
    requires got <= |q.handed| && q.handed <= t.handed
    ensures got <= |t.handed| && HandedOf(t.handed[..got], c) == HandedOf(q.handed[..got], c)
  {
    assert t.handed[..got] == q.handed[..got];
  }

  /** More calls after the cursor do not move it. */
  lemma HistoryGrows(b: MuxState, heard: seq<Bytes>, calls: seq<Call>, more: seq<Call>, k: nat, j: nat, c: uint32)
    requires ReceiverInv(b, heard, calls, k, j, c)
    ensures ReceiverInv(b, heard, calls + more, k, j, c) && (calls + more)[..k] == calls[..k]
  {
    hide Count, Payloads, Stranded, HasFirst, DeliveredOn, CallOk, Ready;
    assert (calls + more)[..k] == calls[..k];
    assert j > 0 ==> (calls + more)[k] == calls[k];
  }

  /** A step of end A that kept its own side in order. */
  lemma AKeepsInv(s: System, t: System, cfg: Config, more: seq<Call>)
    requires Inv(s, cfg)
    requires t.b == s.b && t.got == s.got && t.at == s.at && t.piece == s.piece && t.calls == s.calls + more
    requires Mux.Valid(t.a) && SenderInv(t.a, t.calls, t.accepted, cfg.early, cfg.channel)
    requires t.a.channels[cfg.channel].limits == s.a.channels[cfg.channel].limits
    requires LabelsOk(t.a.queue, cfg.channel) && s.a.queue.handed <= t.a.queue.handed
    ensures Inv(t, cfg)
  {
    hide SenderInv, LabelsOk, ReceiverInv, HandedOf, Count, Mux.Valid;
    HandedPrefixStays(s.a.queue, t.a.queue, s.got, cfg.channel);
    HistoryGrows(s.b, cfg.heard, s.calls, more, s.at, s.piece, cfg.channel);
  }

  lemma SendKeepsValid(a: MuxState, cap: nat, maxFrame: nat, id: uint32, payload: Bytes, c: uint32)
    requires maxFrame >= MIN_FRAME_BYTES && Mux.Valid(a) && c in a.channels
    ensures var t := AfterSendData(a, cap, maxFrame, id, payload).0;
      Mux.Valid(t) && c in t.channels && t.channels[c].limits == a.channels[c].limits
  {
    SendsLeaveReceiving(a, cap, maxFrame, id, payload, c);
  }

  lemma ASendKeepsInv(s: System, cfg: Config, id: uint32, payload: Bytes)
    requires cfg.maxFrame >= MIN_FRAME_BYTES && Inv(s, cfg) && s.a.nextMsgId + 1 < U64
    ensures Inv(Next(s, ASend(id, payload), cfg), cfg)
    ensures Next(s, ASend(id, payload), cfg).a.nextMsgId <= s.a.nextMsgId + 1
  {
    hide LabelsOk, ReceiverInv, HandedOf, Count, Wires, StreamOf, AfterSendData, CallOf, Payloads, CallsOk, IdsOk, WithinPolicy, Add32;
    var t := Next(s, ASend(id, payload), cfg);
    SendKeepsValid(s.a, cfg.capA, cfg.maxFrame, id, payload, cfg.channel);
    SendDataKeepsLabels(s.a, cfg.capA, cfg.maxFrame, id, payload, cfg.channel);
    if id != cfg.channel {
      SentByOthers(s.a, cfg.capA, cfg.maxFrame, s.calls, s.accepted, cfg.early, cfg.channel, id, payload);
      assert s.calls + [] == s.calls;
      AKeepsInv(s, t, cfg, []);
    } else {
      if |payload| <= cfg.maxFrame - HEADER_BYTES {
        SingleSent(s.a, cfg, s.calls, s.accepted, payload);
      } else {
        PiecesSent(s.a, cfg, s.calls, s.accepted, payload);
      }
      AKeepsInv(s, t, cfg, CallOf(s.a, cfg, id, payload));
    }
  }

  lemma QueueKeepsInv(s: System, cfg: Config, queue: SendState)
    requires Inv(s, cfg)
    requires StreamOf(queue, cfg.channel) == StreamOf(s.a.queue, cfg.channel)
    requires LabelsOk(queue, cfg.channel) && s.a.queue.handed <= queue.handed
    ensures Inv(s.(a := s.a.(queue := queue)), cfg)
  {
    hide LabelsOk, ReceiverInv, HandedOf, StreamOf;
    var t := s.(a := s.a.(queue := queue));
    Unextended(s.a, t.a, s.calls, s.accepted, cfg.early, cfg.channel);
    assert s.calls + [] == s.calls;
    AKeepsInv(s, t, cfg, []);
  }

  lemma AResetKeepsInv(s: System, cfg: Config, id: uint32)
    requires Inv(s, cfg) && id in s.a.channels && id != cfg.channel
    ensures Inv(s.(a := AfterReset(s.a, cfg.capA, id)), cfg)
  {
    hide LabelsOk, ReceiverInv, HandedOf, StreamOf, Count, Wires, Payloads, AfterReset;
    var t := s.(a := AfterReset(s.a, cfg.capA, id));
    ResetMeans(s.a, cfg.capA, id);
    ResetByOthers(s.a, cfg.capA, id, cfg.channel);
    ResetKeepsLabels(s.a, cfg.capA, id, cfg.channel);
    Unextended(s.a, t.a, s.calls, s.accepted, cfg.early, cfg.channel);
    assert s.calls + [] == s.calls;
    AKeepsInv(s, t, cfg, []);
  }

  lemma FrameKeepsValid(a: MuxState, cap: nat, f: Frame, nowMs: int, c: uint32)
    requires Mux.Valid(a) && c in a.channels && c in AfterFrame(a, cap, f, nowMs).0.channels
    ensures var t := AfterFrame(a, cap, f, nowMs).0;
      Mux.Valid(t) && t.channels[c].limits == a.channels[c].limits
  {
    hide AfterReset, R.AfterPush, AfterOpen;
    var id := f.channel;
    if f.Open? { OpenByPeer(a, cap, f, c); OpenKeepsValid(a, cap, f); }
    if id in a.channels && f.Frag? {
      var channel := Counted(a.channels[id]);
      Laws.PushKeepsValid(channel.partials, f.piece, nowMs, channel.limits);
      var partials := R.AfterPush(channel.partials, f.piece, nowMs, channel.limits).0;
      ResetMeans(a.(channels := a.channels[id := channel.(partials := partials)]), cap, id);
    }
  }

  lemma AReceiveKeepsInv(s: System, cfg: Config, f: Frame, nowMs: int)
    requires Inv(s, cfg) && cfg.channel in AfterFrame(s.a, cfg.capA, f, nowMs).0.channels
    ensures Inv(s.(a := AfterFrame(s.a, cfg.capA, f, nowMs).0), cfg)
    ensures AfterFrame(s.a, cfg.capA, f, nowMs).0.nextMsgId == s.a.nextMsgId
  {
    hide LabelsOk, ReceiverInv, HandedOf, StreamOf, Count, Wires, Payloads, AfterFrame, Mux.Valid, CallsOk, IdsOk, WithinPolicy, Add32;
    var t := s.(a := AfterFrame(s.a, cfg.capA, f, nowMs).0);
    ReceivedByA(s.a, cfg.capA, s.calls, s.accepted, cfg.early, cfg.channel, f, nowMs);
    FrameKeepsLabels(s.a, cfg.capA, f, nowMs, cfg.channel);
    FrameKeepsValid(s.a, cfg.capA, f, nowMs, cfg.channel);
    assert s.calls + [] == s.calls;
    AKeepsInv(s, t, cfg, []);
  }

  /** A frame of the channel reaches B: taken, never refused, and the cursor moves with it. */
  lemma OwnArrival(s: System, cfg: Config, nowMs: int)
    requires Inv(s, cfg) && Welcome(s, cfg)
    requires s.got < |s.a.queue.handed| && ReadSoFar(s, cfg.channel) >= |cfg.early|
    requires s.a.queue.handed[s.got].channel == cfg.channel && s.a.queue.handed[s.got].qos.Reliable?
    ensures s.at < |s.calls| && s.piece < FrameCount(s.calls[s.at])
    ensures var (b, verdict) := AfterInbound(s.b, cfg.capB, s.a.queue.handed[s.got].wire, nowMs);
      var (l, i) := Place(s.calls, s.at, s.piece);
      && verdict == Done && Mux.Valid(b) && ReceiverInv(b, cfg.heard, s.calls, l, i, cfg.channel)
      && b.channels[cfg.channel].state == IsOpen
  {
    hide HandedOf, StreamOf, Wires, Payloads, AfterFrame, CallsOk, IdsOk, WithinPolicy, LabelsOk, Labelled, Decoded, Stranded, Count, FrameCount, FrameAt, Add32, At, Ready;
    CursorInside(s, cfg);
    FrameArrives(s.b, cfg.capB, cfg.heard, s.calls, s.a.nextMsgId, s.at, s.piece, cfg.channel, nowMs);
    FrameKeepsAllValid(s.b, cfg.capB, Decoded(s.a.queue.handed[s.got].wire).value, nowMs);
  }

  /** The answer to this end's OPEN reaches B: taken, and the channel is open. */
  lemma AnswerArrives(s: System, cfg: Config, nowMs: int)
    requires Inv(s, cfg) && s.got < |s.a.queue.handed| && ReadSoFar(s, cfg.channel) < |cfg.early|
    requires s.a.queue.handed[s.got].channel == cfg.channel && s.a.queue.handed[s.got].qos.Reliable?
    ensures var (b, verdict) := AfterInbound(s.b, cfg.capB, s.a.queue.handed[s.got].wire, nowMs);
      && verdict == Done && Mux.Valid(b) && ReceiverInv(b, cfg.heard, s.calls, s.at, s.piece, cfg.channel)
      && Standing(b, s.calls, s.at, s.piece, ReadSoFar(s, cfg.channel) + 1, cfg)
  {
    hide HandedOf, StreamOf, Wires, Payloads, CallsOk, IdsOk, WithinPolicy, LabelsOk, Labelled, Decoded, Stranded, Count, Add32, AfterReset, R.AfterPush, PartialsAt, DeliveredOn;
    NextOfStream(s.a.queue, s.got, cfg.channel);
    assert IsYes(cfg.early[ReadSoFar(s, cfg.channel)], cfg.channel);
    NothingCounted(s.calls);
  }

  lemma NothingCounted(calls: seq<Call>)
    ensures Count(calls[..0]) == 0
  {
  }

  lemma OwnArrivalKeepsInv(s: System, cfg: Config, nowMs: int)
    requires cfg.maxFrame >= MIN_FRAME_BYTES && Inv(s, cfg) && Welcome(s, cfg)
    requires s.got < |s.a.queue.handed|
    requires s.a.queue.handed[s.got].channel == cfg.channel && s.a.queue.handed[s.got].qos.Reliable?
    ensures Inv(Next(s, BArrival(nowMs), cfg), cfg)
  {
    hide ReceiverInv, SenderInv, HandedOf, StreamOf, AfterInbound, LabelsOk, Count, FrameCount, Mux.Valid, Welcome, IsYes;
    NextOfStream(s.a.queue, s.got, cfg.channel);
    var b := AfterInbound(s.b, cfg.capB, s.a.queue.handed[s.got].wire, nowMs).0;
    if ReadSoFar(s, cfg.channel) < |cfg.early| {
      AnswerArrives(s, cfg, nowMs);
      CursorKeepsInv(s, cfg, b, s.at, s.piece);
    } else {
      OwnArrival(s, cfg, nowMs);
      PlaceCounts(s.calls, s.at, s.piece);
      var (l, i) := Place(s.calls, s.at, s.piece);
      CursorKeepsInv(s, cfg, b, l, i);
    }
  }

  /** One entry further on the transport, with end B and its place in keeping. */
  lemma CursorKeepsInv(s: System, cfg: Config, b: MuxState, l: nat, i: nat)
    requires Inv(s, cfg) && s.got < |s.a.queue.handed|
    requires Mux.Valid(b) && ReceiverInv(b, cfg.heard, s.calls, l, i, cfg.channel)
    requires l <= |s.calls| && Standing(b, s.calls, l, i, |HandedOf(s.a.queue.handed[..s.got + 1], cfg.channel)|, cfg)
    ensures Inv(s.(got := s.got + 1, b := b, at := l, piece := i), cfg)
  {
    hide ReceiverInv, SenderInv, HandedOf, LabelsOk, Count, Mux.Valid;
  }

  lemma FrameKeepsAllValid(b: MuxState, cap: nat, f: Frame, nowMs: int)
    requires Mux.Valid(b)
    ensures Mux.Valid(AfterFrame(b, cap, f, nowMs).0)
  {
    hide AfterReset, R.AfterPush, AfterOpen;
    var id := f.channel;
    if f.Open? { OpenKeepsValid(b, cap, f); }
    if id in b.channels && f.Frag? {
      var channel := Counted(b.channels[id]);
      Laws.PushKeepsValid(channel.partials, f.piece, nowMs, channel.limits);
      var partials := R.AfterPush(channel.partials, f.piece, nowMs, channel.limits).0;
      ResetMeans(b.(channels := b.channels[id := channel.(partials := partials)]), cap, id);
    }
  }

  lemma OtherArrivalKeepsInv(s: System, cfg: Config, nowMs: int)
    requires cfg.maxFrame >= MIN_FRAME_BYTES && Inv(s, cfg)
    requires s.got < |s.a.queue.handed| && s.a.queue.handed[s.got].channel != cfg.channel
    ensures Inv(Next(s, BArrival(nowMs), cfg), cfg)
  {
    hide SenderInv, HandedOf, LabelsOk, ReceiverInv, Labelled, Decoded, AfterFrame, Count, Mux.Valid;
    var w, c := s.a.queue.handed[s.got].wire, cfg.channel;
    LabelAt(s.a.queue, s.got, c);
    OtherEntry(s.a.queue, s.got, c);
    OtherLeavesReceiver(s.b, cfg.capB, Decoded(w).value, nowMs, cfg.heard, s.calls, s.at, s.piece, c);
    var b := AfterInbound(s.b, cfg.capB, w, nowMs).0;
    CursorInHistory(s, cfg);
    CursorKeepsInv(s, cfg, b, s.at, s.piece);
  }

  lemma LabelAt(q: SendState, i: nat, c: uint32)
    requires LabelsOk(q, c) && i < |q.handed|
    ensures Decoded(q.handed[i].wire).Some? && Decoded(q.handed[i].wire).value.channel == q.handed[i].channel
  {
    hide Decoded;
    assert Labelled(q.handed[i].wire, q.handed[i].channel);
  }

  lemma OtherLeavesReceiver(b: MuxState, capB: nat, f: Frame, nowMs: int, heard: seq<Bytes>, calls: seq<Call>, k: nat, j: nat, c: uint32)
    requires Mux.Valid(b) && ReceiverInv(b, heard, calls, k, j, c) && f.channel != c
    ensures var t := AfterFrame(b, capB, f, nowMs).0;
      Mux.Valid(t) && ReceiverInv(t, heard, calls, k, j, c) && t.channels[c].state == b.channels[c].state
  {
    hide AfterFrame, Mux.Valid, DeliveredOn, At, Ready;
    OtherArrives(b, capB, f, nowMs, c);
    ReceiverUntouched(b, AfterFrame(b, capB, f, nowMs).0, heard, calls, k, j, c);
  }

  lemma CursorInHistory(s: System, cfg: Config)
    requires Inv(s, cfg)
    ensures s.at <= |s.calls|
  {
  }

  lemma BKeepsInv(s: System, cfg: Config, b: MuxState)
    requires Inv(s, cfg) && Mux.Valid(b) && ReceiverInv(b, cfg.heard, s.calls, s.at, s.piece, cfg.channel)
    requires b.channels[cfg.channel].state == s.b.channels[cfg.channel].state
    ensures Inv(s.(b := b), cfg)
  {
    hide IsYes, SenderInv, HandedOf, LabelsOk, Count, Mux.Valid, ReceiverInv;
  }

  lemma BLossKeepsInv(s: System, cfg: Config)
    requires cfg.maxFrame >= MIN_FRAME_BYTES && Inv(s, cfg)
    ensures Inv(Next(s, BLoss, cfg), cfg)
  {
    hide SenderInv, HandedOf, LabelsOk, Count, Mux.Valid, ReceiverInv;
    if s.got < |s.a.queue.handed| && s.a.queue.handed[s.got].qos.BestEffort? {
      OtherEntry(s.a.queue, s.got, cfg.channel);
    }
  }

  lemma BSendKeepsInv(s: System, cfg: Config, id: uint32, payload: Bytes)
    requires cfg.maxFrame >= MIN_FRAME_BYTES && Inv(s, cfg)
    ensures Inv(Next(s, BSend(id, payload), cfg), cfg)
  {
    hide SenderInv, HandedOf, LabelsOk, Count, Mux.Valid, AfterSendData, DeliveredOn, ReceiverInv;
    var b := AfterSendData(s.b, cfg.capB, cfg.maxFrame, id, payload).0;
    InvHasChannel(s, cfg);
    SendLeavesReceiver(s.b, cfg.capB, cfg.maxFrame, id, payload, cfg.heard, s.calls, s.at, s.piece, cfg.channel);
    BKeepsInv(s, cfg, b);
  }

  lemma SendLeavesReceiver(b: MuxState, capB: nat, maxFrame: nat, id: uint32, payload: Bytes,
                           heard: seq<Bytes>, calls: seq<Call>, k: nat, j: nat, c: uint32)
    requires maxFrame >= MIN_FRAME_BYTES && Mux.Valid(b) && ReceiverInv(b, heard, calls, k, j, c)
    ensures var t := AfterSendData(b, capB, maxFrame, id, payload).0;
      Mux.Valid(t) && ReceiverInv(t, heard, calls, k, j, c) && t.channels[c].state == b.channels[c].state
  {
    hide AfterSendData, Mux.Valid, DeliveredOn, At, Ready;
    SendsLeaveReceiving(b, capB, maxFrame, id, payload, c);
    ReceiverUntouched(b, AfterSendData(b, capB, maxFrame, id, payload).0, heard, calls, k, j, c);
  }

  lemma BSweepKeepsInv(s: System, cfg: Config, act: Act)
    requires act.BSweep? && cfg.maxFrame >= MIN_FRAME_BYTES && Inv(s, cfg) && Allowed(s, act, cfg)
    ensures Inv(Next(s, act, cfg), cfg)
  {
    hide SenderInv, HandedOf, LabelsOk, Count, Mux.Valid, DeliveredOn, R.Swept;
    SweepLeavesLive(s.b, cfg.heard, s.calls, s.at, s.piece, cfg.channel, act.id, act.nowMs, act.timeoutMs);
    hide ReceiverInv;
    BKeepsInv(s, cfg, AfterSweep(s.b, act.id, act.nowMs, act.timeoutMs));
  }

  /** End A opens or closes another channel. */
  lemma AElsewhereKeepsInv(s: System, act: Act, cfg: Config)
    requires (act.AOpen? || act.AClose? || act.ASettings?) && cfg.maxFrame >= MIN_FRAME_BYTES && Inv(s, cfg)
    requires act.AClose? ==> act.id != cfg.channel
    ensures Inv(Next(s, act, cfg), cfg)
    ensures Next(s, act, cfg).a.nextMsgId == s.a.nextMsgId
  {
    hide LabelsOk, ReceiverInv, HandedOf, StreamOf, Count, Wires, Payloads, AfterOpenOutbound, AfterClose, Mux.Valid, CallsOk, IdsOk, WithinPolicy, Add32;
    var t, c := Next(s, act, cfg), cfg.channel;
    match act {
      case AOpen(protocol, cls, maxMessage, fixedId) =>
        OpenOther(s.a, cfg.capA, protocol, cls, maxMessage, fixedId, c);
        OpenOutboundKeepsLabels(s.a, cfg.capA, protocol, cls, maxMessage, fixedId, c);
      case AClose(id, reason) =>
        CloseOther(s.a, cfg.capA, id, reason, c);
        CloseKeepsLabels(s.a, cfg.capA, id, reason, c);
      case ASettings(opens) => assert Mux.Valid(t.a) by { ValidIsOfChannels(s.a, t.a); }
    }
    Unextended(s.a, t.a, s.calls, s.accepted, cfg.early, c);
    assert s.calls + [] == s.calls;
    AKeepsInv(s, t, cfg, []);
  }

  lemma ValidIsOfChannels(a: MuxState, t: MuxState)
    requires Mux.Valid(a) && t.channels == a.channels
    ensures Mux.Valid(t)
  {
  }

  /** End B opens, closes or resets another channel, or its own queue moves. */
  lemma BElsewhereKeepsInv(s: System, act: Act, cfg: Config)
    requires (act.BOpen? || act.BClose? || act.BReset? || act.BSettings? || act.BQueue?) && cfg.maxFrame >= MIN_FRAME_BYTES && Inv(s, cfg)
    requires act.BClose? || act.BReset? ==> act.id != cfg.channel
    ensures Inv(Next(s, act, cfg), cfg)
  {
    hide SenderInv, LabelsOk, HandedOf, Count, AfterOpenOutbound, AfterClose, AfterReset, Mux.Valid, DeliveredOn, At, Ready, Standing;
    var b, c := Next(s, act, cfg).b, cfg.channel;
    match act {
      case BOpen(protocol, cls, maxMessage, fixedId) => OpenOther(s.b, cfg.capB, protocol, cls, maxMessage, fixedId, c);
      case BClose(id, reason) => CloseOther(s.b, cfg.capB, id, reason, c);
      case BReset(id) =>
        if id in s.b.channels {
          ResetMeans(s.b, cfg.capB, id);
          ResetDeliversNothing(s.b, cfg.capB, id);
          FewerKeepValid(s.b, b);
        }
      case BSettings(_) => ValidIsOfChannels(s.b, b);
      case BQueue(_) => ValidIsOfChannels(s.b, b);
    }
    ReceiverUntouched(s.b, b, cfg.heard, s.calls, s.at, s.piece, c);
    BKeepsInv(s, cfg, b);
  }

  lemma FewerKeepValid(b: MuxState, t: MuxState)
    requires Mux.Valid(b) && forall id :: id in t.channels ==> id in b.channels && t.channels[id] == b.channels[id]
    ensures Mux.Valid(t)
  {
  }

  lemma StepKeepsInv(s: System, act: Act, cfg: Config)
    requires cfg.maxFrame >= MIN_FRAME_BYTES && Inv(s, cfg) && s.a.nextMsgId + 1 < U64
    requires Allowed(s, act, cfg) && (act.BArrival? ==> Welcome(s, cfg))
    ensures Inv(Next(s, act, cfg), cfg)
    ensures Next(s, act, cfg).a.nextMsgId <= s.a.nextMsgId + 1
  {
    hide SenderInv, LabelsOk, Labelled, Count, Mux.Valid, ReceiverInv, AfterSendData, AfterFrame, AfterReset, AfterInbound, AfterSweep, Flushed, CallOf, Welcome, AfterOpenOutbound, Standing;
    match act {
      case ASend(id, payload) => ASendKeepsInv(s, cfg, id, payload);
      case ACredit(credits) => QueueStep(s, act, cfg);
      case AFlush => QueueStep(s, act, cfg);
      case AReset(id) => AResetStep(s, cfg, id);
      case AReceive(frame, nowMs) => AReceiveKeepsInv(s, cfg, frame, nowMs);
      case AOpen(_, _, _, _) => AElsewhereKeepsInv(s, act, cfg);
      case AClose(id, reason) => ACloseStep(s, cfg, id, reason);
      case ASettings(_) => AElsewhereKeepsInv(s, act, cfg);
      case BSend(id, payload) => BSendKeepsInv(s, cfg, id, payload);
      case BArrival(nowMs) => ArrivalStep(s, cfg, nowMs);
      case BLoss => BLossKeepsInv(s, cfg);
      case BSweep(_, _, _) => BSweepKeepsInv(s, cfg, act);
      case _ => BElsewhereKeepsInv(s, act, cfg);
    }
  }

  lemma ACloseStep(s: System, cfg: Config, id: uint32, reason: Bytes)
    requires cfg.maxFrame >= MIN_FRAME_BYTES && Inv(s, cfg) && Allowed(s, AClose(id, reason), cfg)
    ensures Inv(Next(s, AClose(id, reason), cfg), cfg)
    ensures Next(s, AClose(id, reason), cfg).a.nextMsgId == s.a.nextMsgId
  {
    hide Inv, AfterClose, Mux.Valid;
    ItsThereInv(s, cfg);
    ClosingNow(s.a, cfg.capA, id, reason);
    AElsewhereKeepsInv(s, AClose(id, reason), cfg);
  }

  lemma ClosingNow(a: MuxState, cap: nat, id: uint32, reason: Bytes)
    ensures id in a.channels ==> id in AfterClose(a, cap, id, reason).0.channels && AfterClose(a, cap, id, reason).0.channels[id].state == Closing
  {
    hide AfterSendWire, WireOf, Add32;
  }

  lemma ItsThereInv(s: System, cfg: Config)
    requires Inv(s, cfg)
    ensures cfg.channel in s.a.channels
  {
  }

  lemma InvHasChannel(s: System, cfg: Config)
    requires Inv(s, cfg)
    ensures cfg.channel in s.b.channels
  {
  }

  lemma QueueStep(s: System, act: Act, cfg: Config)
    requires (act.ACredit? || act.AFlush?) && cfg.maxFrame >= MIN_FRAME_BYTES && Inv(s, cfg)
    ensures Inv(Next(s, act, cfg), cfg)
  {
    hide SenderInv, HandedOf, Labelled, Count, Mux.Valid, Flushed, ReceiverInv;
    if act.ACredit? {
      QueueKeepsInv(s, cfg, s.a.queue.(credits := act.credits));
    } else {
      FlushKeepsStream(s.a.queue, cfg.channel);
      FlushKeepsLabels(s.a.queue, cfg.channel);
      QueueKeepsInv(s, cfg, Flushed(s.a.queue));
    }
  }

  lemma AResetStep(s: System, cfg: Config, id: uint32)
    requires cfg.maxFrame >= MIN_FRAME_BYTES && Inv(s, cfg) && Allowed(s, AReset(id), cfg)
    ensures Inv(Next(s, AReset(id), cfg), cfg)
    ensures Next(s, AReset(id), cfg).a.nextMsgId == s.a.nextMsgId
  {
    hide SenderInv, HandedOf, LabelsOk, Count, Mux.Valid, AfterReset, ReceiverInv;
    if id in s.a.channels {
      ResetMeans(s.a, cfg.capA, id);
      AResetKeepsInv(s, cfg, id);
    }
  }

  lemma ArrivalStep(s: System, cfg: Config, nowMs: int)
    requires cfg.maxFrame >= MIN_FRAME_BYTES && Inv(s, cfg) && Welcome(s, cfg)
    ensures Inv(Next(s, BArrival(nowMs), cfg), cfg)
  {
    hide SenderInv, HandedOf, Labelled, Count, Mux.Valid, AfterInbound, At, Ready, Welcome;
    if s.got < |s.a.queue.handed| {
      if s.a.queue.handed[s.got].channel == cfg.channel {
        assert s.a.queue.handed[s.got].qos.Reliable?;
        hide LabelsOk;
        OwnArrivalKeepsInv(s, cfg, nowMs);
      } else {
        OtherArrivalKeepsInv(s, cfg, nowMs);
      }
    }
  }

  // ------------------------------------------------------------ the theorem

  /**
   A channel just opened at end A: nothing was sent on it yet, and B waits for the answer to its OPEN, or has it. All else is as it may be: other channels' frames queued, handed over and
   delivered, and an earlier channel under the same number, over and done with.
   */
  ghost predicate Start(s: System, cfg: Config) {
    var c := cfg.channel;
    && cfg.maxFrame >= MIN_FRAME_BYTES
    && Mux.Valid(s.a) && Mux.Valid(s.b) && c in s.a.channels && c in s.b.channels
    && s.a.channels[c].state == IsOpen && s.a.channels[c].qos.Reliable? && s.a.channels[c].txSeq == 1
    && LengthsFit(s.a.channels[c], cfg)
    && Ready(s.b.channels[c]) && s.b.channels[c].rxSeq == 1 && s.b.channels[c].partials == map[]
    && LabelsOk(s.a.queue, c) && s.got <= |s.a.queue.handed|
    && cfg.early == StreamOf(s.a.queue, c) && cfg.heard == DeliveredOn(s.b.delivered, c)
    && s.calls == [] && s.accepted == [] && s.at == 0 && s.piece == 0
    && Standing(s.b, [], 0, 0, ReadSoFar(s, c), cfg)
  }

  lemma StartInv(s: System, cfg: Config)
    requires Start(s, cfg)
    ensures Inv(s, cfg)
  {
    hide StreamOf, HandedOf, DeliveredOn, LabelsOk, Mux.Valid, IsYes;
    Add32Again(1, 0, 0);
    assert s.calls[..0] == [];
    assert cfg.early + Wires(s.calls, cfg.channel) == cfg.early;
    assert cfg.heard + Payloads(s.calls[..0]) == cfg.heard;
  }

  /** The state a run leads to; it stops where an end's own records would be broken, which no fair run reaches. */
  ghost function RanTo(s: System, acts: seq<Act>, cfg: Config): System {
    if acts == [] then s
    else
      var t := RanTo(s, acts[..|acts| - 1], cfg);
      if cfg.maxFrame >= MIN_FRAME_BYTES && Mux.Valid(t.a) && Mux.Valid(t.b) then Next(t, acts[|acts| - 1], cfg) else t
  }

  /** At every step: the channel stays, the live message is spared, and no message arrives that B must refuse. */
  ghost predicate Fair(s: System, acts: seq<Act>, cfg: Config) {
    acts == [] ||
    (var t := RanTo(s, acts[..|acts| - 1], cfg);
      && Fair(s, acts[..|acts| - 1], cfg)
      && cfg.maxFrame >= MIN_FRAME_BYTES && Mux.Valid(t.a) && Mux.Valid(t.b)
      && Allowed(t, acts[|acts| - 1], cfg) && (acts[|acts| - 1].BArrival? ==> Welcome(t, cfg)) && t.a.nextMsgId + 1 < U64)
  }

  lemma {:induction false} RanInv(s: System, acts: seq<Act>, cfg: Config)
    requires Start(s, cfg) && Fair(s, acts, cfg)
    ensures Inv(RanTo(s, acts, cfg), cfg)
  {
    hide Inv, Allowed, Welcome, Next;
    if acts == [] {
      StartInv(s, cfg);
    } else {
      RanInv(s, acts[..|acts| - 1], cfg);
      StepKeepsInv(RanTo(s, acts[..|acts| - 1], cfg), acts[|acts| - 1], cfg);
    }
  }

  lemma {:induction false} PayloadsGrow(calls: seq<Call>, k: nat)
    requires k <= |calls|
    ensures Payloads(calls[..k]) <= Payloads(calls)
    decreases |calls| - k
  {
    if k == |calls| {
      assert calls[..k] == calls;
    } else {
      PrefixSnoc(calls, k);
      PayloadsGrow(calls, k + 1);
    }
  }

  /** All frames read: the cursor is past the last call. */
  lemma CursorAtEnd(calls: seq<Call>, k: nat, j: nat)
    requires CallsOk(calls) && k <= |calls| && (j > 0 ==> k < |calls| && j < FrameCount(calls[k]))
    requires Count(calls[..k]) + j == Count(calls)
    ensures calls[..k] == calls
  {
    hide Count, FrameCount;
    if k < |calls| {
      FrameCountPositive(calls, k);
      PrefixSnoc(calls, k);
      CountGrows(calls, k + 1);
      assert false;
    }
  }

  /** What the handler of the channel got since it opened. */
  function DeliveredHere(s: System, cfg: Config): seq<Bytes>
    requires cfg.heard <= DeliveredOn(s.b.delivered, cfg.channel)
  {
    DeliveredOn(s.b.delivered, cfg.channel)[|cfg.heard|..]
  }

  /**
   Transparency: over every fair run the channel's handler has got, in order and once
   each, a beginning of the payloads whose SendData succeeded, and all of them once
   nothing waits and nothing is under way.
   */
  lemma Transparent(s: System, acts: seq<Act>, cfg: Config)
    requires Start(s, cfg) && Fair(s, acts, cfg)
    ensures var t := RanTo(s, acts, cfg);
      && cfg.channel in t.b.channels && cfg.heard <= DeliveredOn(t.b.delivered, cfg.channel)
      && DeliveredHere(t, cfg) <= t.accepted
      && (QueueOf(t.a.queue, cfg.channel) == [] && t.got == |t.a.queue.handed| ==>
            t.b.channels[cfg.channel].state == IsOpen && DeliveredHere(t, cfg) == t.accepted)
  {
    RanInv(s, acts, cfg);
    var t, c := RanTo(s, acts, cfg), cfg.channel;
    hide Fair, Start, RanTo, Payloads, DeliveredOn, HandedOf, PartialsAt, LabelsOk, Mux.Valid, Count, Wires, Add32, WithinPolicy, IdsOk;
    PayloadsGrow(t.calls, t.at);
    if QueueOf(t.a.queue, c) == [] && t.got == |t.a.queue.handed| {
      assert t.a.queue.handed[..t.got] == t.a.queue.handed;
      WiresLength(t.calls, c);
      CursorAtEnd(t.calls, t.at, t.piece);
    }
  }

  /**
   What B refuses, exactly. In any state of any fair run the channel's next frame is answered Done, but for the first
   fragment of a message that is longer than B's limit, or comes while B holds as many partials as it may: that one is
   answered with an error, and the channel is gone at B with nothing delivered. A payload in one DATA frame is never checked.
   */
  lemma RefusedExactlyWhen(s: System, acts: seq<Act>, cfg: Config, nowMs: int)
    requires Start(s, cfg) && Fair(s, acts, cfg)
    requires var t := RanTo(s, acts, cfg);
      t.got < |t.a.queue.handed| && t.a.queue.handed[t.got].channel == cfg.channel
    ensures var t := RanTo(s, acts, cfg);
      && Mux.Valid(t.b) && cfg.channel in t.b.channels
      && var ch := t.b.channels[cfg.channel];
      var (b, verdict) := AfterInbound(t.b, cfg.capB, t.a.queue.handed[t.got].wire, nowMs);
      && (verdict == Failed <==>
            && ReadSoFar(t, cfg.channel) >= |cfg.early| && t.piece == 0
            && t.at < |t.calls| && t.calls[t.at].Pieces?
            && (|t.calls[t.at].payload| > ch.limits.maxMessage || |ch.partials| >= ch.limits.maxPartials))
      && (verdict == Failed ==> cfg.channel !in b.channels && b.delivered == t.b.delivered)
  {
    RanInv(s, acts, cfg);
    hide Fair, Start, RanTo;
    NextFrame(RanTo(s, acts, cfg), cfg, nowMs);
  }

  lemma NextFrame(t: System, cfg: Config, nowMs: int)
    requires Inv(t, cfg)
    requires t.got < |t.a.queue.handed| && t.a.queue.handed[t.got].channel == cfg.channel
    ensures Mux.Valid(t.b) && cfg.channel in t.b.channels
    ensures var (b, verdict) := AfterInbound(t.b, cfg.capB, t.a.queue.handed[t.got].wire, nowMs);
      && (verdict == Failed <==> !Welcome(t, cfg))
      && (verdict == Failed ==> cfg.channel !in b.channels && b.delivered == t.b.delivered)
  {
    assert t.a.queue.handed[t.got].qos.Reliable?;
    hide HandedOf, LabelsOk, Mux.Valid, Count, SenderInv, ReceiverInv, AfterInbound, Standing, FitsNow;
    InvHasChannel(t, cfg);
    if ReadSoFar(t, cfg.channel) < |cfg.early| {
      AnswerArrives(t, cfg, nowMs);
    } else if Welcome(t, cfg) {
      OwnArrival(t, cfg, nowMs);
    } else {
      OwnRefused(t, cfg, nowMs);
    }
  }

  lemma OwnRefused(t: System, cfg: Config, nowMs: int)
    requires Inv(t, cfg) && !Welcome(t, cfg) && t.a.queue.handed[t.got].qos.Reliable?
    ensures var (b, verdict) := AfterInbound(t.b, cfg.capB, t.a.queue.handed[t.got].wire, nowMs);
      verdict == Failed && cfg.channel !in b.channels && b.delivered == t.b.delivered
  {
    hide HandedOf, StreamOf, Wires, Payloads, AfterFrame, CallsOk, IdsOk, WithinPolicy, LabelsOk, Labelled, Decoded, Stranded, Count, FrameCount, FrameAt, Add32, At, Ready, FitsNow;
    CursorInside(t, cfg);
    FirstPieceRefused(t.b, cfg.capB, cfg.heard, t.calls, t.a.nextMsgId, t.at, cfg.channel, nowMs);
  }

  /** So with the sender's limit within the receiver's and room for one more partial, no frame of the channel is ever answered with an error. */
  lemma NeverRefused(s: System, acts: seq<Act>, cfg: Config, nowMs: int)
    requires Start(s, cfg) && Fair(s, acts, cfg)
    requires var t := RanTo(s, acts, cfg);
      && cfg.channel in t.a.channels && RoomLeft(t, cfg.channel)
      && t.a.channels[cfg.channel].limits.maxMessage <= t.b.channels[cfg.channel].limits.maxMessage
      && t.got < |t.a.queue.handed| && t.a.queue.handed[t.got].channel == cfg.channel
    ensures var t := RanTo(s, acts, cfg);
      Mux.Valid(t.b) && AfterInbound(t.b, cfg.capB, t.a.queue.handed[t.got].wire, nowMs).1 == Done
  {
    RanInv(s, acts, cfg);
    hide Fair, Start, RanTo, RoomLeft, Inv, Welcome, AfterInbound;
    WelcomeWithRoom(RanTo(s, acts, cfg), cfg);
    NextFrame(RanTo(s, acts, cfg), cfg, nowMs);
  }

  // ------------------------------------------------------------ how a channel starts

  /** Everything under the channel's number so far, the OPEN included, came off the transport. */
  ghost predicate AllRead(s: System, c: uint32) {
    s.got <= |s.a.queue.handed| && HandedOf(s.a.queue.handed[..s.got], c) == StreamOf(s.a.queue, c)
  }

  ghost predicate Fresh(s: System) {
    s.calls == [] && s.accepted == [] && s.at == 0 && s.piece == 0
  }

  function ConfigFrom(s: System, c: uint32, capA: nat, maxFrame: nat, capB: nat): Config {
    Config(c, capA, maxFrame, capB, StreamOf(s.a.queue, c), DeliveredOn(s.b.delivered, c))
  }

  /** B asked, A says yes: from there on what A sends on the channel comes through, its yes still queued or on the way. */
  lemma AcceptingStarts(s: System, f: Frame, maxMessage: nat, capA: nat, maxFrame: nat, capB: nat)
    requires maxFrame >= MIN_FRAME_BYTES && Mux.Valid(s.a) && Mux.Valid(s.b) && Fresh(s) && maxMessage > 0
    requires f.Open? && f == OpenFrame(f.channel, f.protocol, f.cls, maxMessage) && QosForClass(f.cls).Reliable?
    requires f.channel !in s.a.channels && RefusalOf(s.a, f) == 0 && AfterOpen(s.a, capA, f).1 == Done
    requires f.channel in s.b.channels && s.b.channels[f.channel] == NewChannel(f.cls, maxMessage, Opening)
    requires LabelsOk(s.a.queue, f.channel) && AllRead(s, f.channel)
    ensures var t := s.(a := AfterOpen(s.a, capA, f).0);
      Start(t, ConfigFrom(t, f.channel, capA, maxFrame, capB))
  {
    hide LabelsOk, HandedOf, StreamOf, AfterSendWire, WireOf, Mux.Valid, DeliveredOn, Decoded, QosForClass;
    var c, yes := f.channel, OpenAck(f.channel, 0, 0);
    var t := s.(a := AfterOpen(s.a, capA, f).0);
    OpenKeepsLabels(s.a, capA, f, c);
    SendWireExtends(s.a.queue, capA, c, WireOf(yes), c);
    HandedPrefixStays(s.a.queue, t.a.queue, s.got, c);
    WireLabelled(yes);
    OpenKeepsValid(s.a, capA, f);
  }

  /** A asked, B said yes, and its yes arrives: from there on what A sends on the channel comes through, as far as B's grant goes. */
  lemma AnsweredStarts(s: System, f: Frame, cls: uint8, maxMessage: nat, capA: nat, maxFrame: nat, capB: nat)
    requires maxFrame >= MIN_FRAME_BYTES && Mux.Valid(s.a) && Mux.Valid(s.b) && Fresh(s)
    requires maxMessage < U32 || maxFrame <= 0x1_0000
    requires f.OpenAck? && f.result == 0 && QosForClass(cls).Reliable?
    requires f.channel in s.a.channels && s.a.channels[f.channel] == NewChannel(cls, maxMessage, Opening)
    requires f.channel in s.b.channels && s.b.channels[f.channel] == NewChannel(cls, GrantedBytes(cls, Min(maxMessage, U32 - 1)), IsOpen)
    requires LabelsOk(s.a.queue, f.channel) && AllRead(s, f.channel)
    ensures var t := s.(a := AfterOpenAck(s.a, f).0);
      Start(t, ConfigFrom(t, f.channel, capA, maxFrame, capB))
  {
    hide LabelsOk, HandedOf, StreamOf, DeliveredOn, Decoded, QosForClass;
    NothingCounted([]);
  }
}
