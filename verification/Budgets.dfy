/**
 Budgets, composed: what a mux hands over fits the layer below, however deep carriers
 nest (src/L3/ChannelMux.cpp:482-544; src/link/PeerLink.cpp:333-341).
 */
module Budgets {
  import opened Words
  import opened Chunks
  import opened ChannelWire
  import opened SendQueue
  import opened Mux
  import LC = LaneCodec

  const MAX_DATAGRAM: nat := 1232
  const SEALED_HEADER: nat := 13
  const TAG: nat := 16
  const CARRIER_SEALED_HEADER: nat := 5
  const LANE_HEADER: nat := 5
  const DIRECT_BUDGET: nat := MAX_DATAGRAM - SEALED_HEADER - TAG
  const WRAPPING: nat := HEADER_BYTES + LANE_HEADER + CARRIER_SEALED_HEADER + TAG

  // ------------------------------------------------------------ every frame fits its mux's budget

  lemma DataFits(id: uint32, seqNo: uint32, payload: Bytes, maxFrame: nat)
    ensures |WireOf(Data(id, seqNo, payload))| <= maxFrame <==> |payload| + HEADER_BYTES <= maxFrame
  {
  }

  lemma FragmentFits(id: uint32, seqNo: uint32, msgId: uint64, payload: Bytes, maxFrame: nat, i: nat)
    requires maxFrame >= MIN_FRAME_BYTES
    requires var size := maxFrame - HEADER_BYTES - FRAG_FIELDS_BYTES; i < Needed(|payload|, size) <= MAX_FRAGMENTS
    ensures var size := maxFrame - HEADER_BYTES - FRAG_FIELDS_BYTES;
      |WireOf(FragOf(id, seqNo, msgId, payload, size, i))| <= maxFrame
  {
    ChunkSizes(payload, maxFrame - HEADER_BYTES - FRAG_FIELDS_BYTES, i);
  }

  // ------------------------------------------------------------ nested carriers

  /** CarrierMaxFrameBytes: what an inner frame may take so that its packet rides one outer DATA frame. */
  function CarrierMaxFrameBytes(outer: nat): nat {
    if outer > WRAPPING then outer - WRAPPING else 0
  }

  /** The budget of the mux `depth` carriers deep. */
  function Budget(depth: nat): nat {
    if depth == 0 then DIRECT_BUDGET else CarrierMaxFrameBytes(Budget(depth - 1))
  }

  /** A carrier packet's length: clear header, sealed frame and tag, in a lane frame when it is reliable and the lane is on. */
  function CarrierWireLength(frame: nat, laned: bool): nat {
    CARRIER_SEALED_HEADER + frame + TAG + if laned then LANE_HEADER else 0
  }

  /** The datagram a frame ends up in: at each carrier it is one DATA frame's payload. */
  function DatagramLength(frame: nat, depth: nat, laned: nat -> bool): nat
    decreases depth
  {
    if depth == 0 then SEALED_HEADER + frame + TAG
    else DatagramLength(HEADER_BYTES + CarrierWireLength(frame, laned(depth)), depth - 1, laned)
  }

  lemma {:induction false} BudgetIs(depth: nat)
    ensures Budget(depth) == Max(0, DIRECT_BUDGET - WRAPPING * depth) == Max(0, 1203 - 35 * depth)
  {
    if depth > 0 { BudgetIs(depth - 1); }
  }

  /** Carriers nest up to 32 deep and no deeper: SetMaxFrameBytes refuses the budget of the 33rd. */
  lemma NestingLimit(depth: nat)
    ensures Budget(depth) >= MIN_FRAME_BYTES <==> depth <= 32
  {
    BudgetIs(depth);
  }

  /** An inner packet within budget rides one DATA frame of the outer mux, laned or not; a byte more, laned, would not. */
  lemma RidesOneFrame(frame: nat, depth: nat, laned: bool)
    requires depth >= 1 && 1 <= Budget(depth)
    ensures frame <= Budget(depth) ==> CarrierWireLength(frame, laned) <= Budget(depth - 1) - HEADER_BYTES
    ensures frame > Budget(depth) ==> CarrierWireLength(frame, true) > Budget(depth - 1) - HEADER_BYTES
  {
    BudgetIs(depth);
    BudgetIs(depth - 1);
  }

  /** So the outer mux never fragments it: SendData takes the one-frame branch. */
  lemma OuterSendsOneFrame(s: MuxState, cap: nat, id: uint32, wire: Bytes, frame: nat, depth: nat, laned: bool)
    requires depth >= 1 && Budget(depth) >= MIN_FRAME_BYTES && frame <= Budget(depth) && |wire| == CarrierWireLength(frame, laned)
    requires id in s.channels && s.channels[id].state == IsOpen && |wire| <= s.channels[id].limits.maxMessage
    ensures Budget(depth - 1) >= MIN_FRAME_BYTES
    ensures var (t, verdict) := AfterSendData(s, cap, Budget(depth - 1), id, wire);
      var (queue, out) := AfterSendWire(s.queue, cap, id, s.channels[id].qos, WireOf(Data(id, s.channels[id].txSeq, wire)));
      t.queue == queue && t.nextMsgId == s.nextMsgId && (verdict == Done <==> out != Full)
  {
    BudgetIs(depth);
    BudgetIs(depth - 1);
    hide AfterSendWire, WireOf, Budget;
  }

  /** A frame within the budget of its depth leaves as a datagram no larger than the wire allows. */
  lemma {:induction false} FitsAtEveryDepth(frame: nat, depth: nat, laned: nat -> bool)
    requires 1 <= Budget(depth) && frame <= Budget(depth)
    ensures DatagramLength(frame, depth, laned) <= MAX_DATAGRAM == 1232
    decreases depth
  {
    if depth > 0 {
      RidesOneFrame(frame, depth, laned(depth));
      BudgetIs(depth);
      BudgetIs(depth - 1);
      FitsAtEveryDepth(HEADER_BYTES + CarrierWireLength(frame, laned(depth)), depth - 1, laned);
    }
  }

  /** The lane adds exactly its header. */
  lemma LaneLength(seqNo: uint32, inner: Bytes)
    ensures |LC.EncodeLaneData(seqNo, inner)| == LANE_HEADER + |inner|
  {
  }
}
