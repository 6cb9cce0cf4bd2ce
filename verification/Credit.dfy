/**
 A mux over an association or a carrier lane: its credit is the room in their send
 window (src/link/PeerLink.cpp:604-636), and what it hands over goes straight to them.
 Over any run neither ever answers that its window is full, and a frame in budget is
 never too large.
 */
module Credit {
  import opened Words
  import opened Chunks
  import opened ChannelWire
  import opened SendQueue
  import opened Mux
  import opened Budgets
  import R = Reassembly
  import Laws = ReassemblyLaws
  import A = Adp
  import Assoc = Association
  import L = Lane
  import LC = LaneCodec

  // ------------------------------------------------------------ what an operation of the mux hands over

  /** OPEN and CLOSE carry text of any length; every other frame is cut to the budget. */
  predicate Fits(w: Bytes, budget: nat) {
    |w| <= budget || (w != [] && (w[0] == 0 || w[0] == 3))
  }

  ghost predicate AllFit(q: SendState, budget: nat) {
    && (forall i :: 0 <= i < |q.handed| ==> Fits(q.handed[i].wire, budget))
    && (forall id, i :: id in q.queues && 0 <= i < |q.queues[id]| ==> Fits(q.queues[id][i], budget))
  }

  /** From `s` to `t` frames were only added to those handed over; the reliable ones cost a slot each; all fit. */
  ghost predicate Moves(s: SendState, t: SendState, budget: nat) {
    && s.handed <= t.handed && |Served(s.handed)| <= |Served(t.handed)|
    && (s.credits.Slots? ==> t.credits.Slots? && t.credits.n + |Served(t.handed)| == s.credits.n + |Served(s.handed)|)
    && (AllFit(s, budget) ==> AllFit(t, budget))
  }

  lemma TransportMoves(s: SendState, h: Handed, budget: nat)
    requires Fits(h.wire, budget) && (h.qos.Reliable? ==> HasCredit(s.credits))
    ensures Moves(s, Transported(s, h), budget)
  {
    hide Served, Fits;
    ServedSnoc(s.handed, h);
  }

  lemma EnqueueMoves(s: SendState, id: uint32, w: Bytes, budget: nat)
    requires Fits(w, budget)
    ensures Moves(s, Enqueued(s, id, w), budget)
  {
    hide Served, Fits;
    var t := Enqueued(s, id, w);
    forall c, i | AllFit(s, budget) && c in t.queues && 0 <= i < |t.queues[c]|
      ensures Fits(t.queues[c][i], budget)
    {
      assert c != id ==> t.queues[c] == s.queues[c];
      assert c == id ==> t.queues[c] == QueueOf(s, id) + [w];
    }
  }

  lemma TurnMoves(s: SendState, budget: nat)
    requires s.order != [] && HasCredit(s.credits)
    ensures Moves(s, Turn(s), budget)
  {
    hide Served, Fits;
    var id := s.order[0];
    if id in s.queues && s.queues[id] != [] {
      ServedSnoc(s.handed, Handed(id, Reliable, s.queues[id][0]));
    }
  }

  lemma {:induction false} FlushMoves(s: SendState, budget: nat)
    ensures Moves(s, Flushed(s), budget)
    decreases QueuedCount(s.queues), |s.order|
  {
    hide AllFit, Served;
    if s.order != [] && HasCredit(s.credits) {
      TurnShrinks(s);
      TurnMoves(s, budget);
      FlushMoves(Turn(s), budget);
    }
  }

  lemma DropMoves(s: SendState, id: uint32, budget: nat)
    ensures Moves(s, AfterDrop(s, id), budget)
  {
    hide Served, Fits;
  }

  lemma SendMoves(s: SendState, cap: nat, id: uint32, qos: Qos, w: Bytes, budget: nat)
    requires Fits(w, budget)
    ensures Moves(s, AfterSendWire(s, cap, id, qos, w).0, budget)
  {
    hide Served, Flushed, Fits, AllFit, Transported, Enqueued;
    FlushMoves(s, budget);
    if qos.BestEffort? {
      TransportMoves(s, Handed(id, qos, w), budget);
    } else {
      var t := Flushed(s);
      if HasCredit(t.credits) { TransportMoves(t, Handed(id, qos, w), budget); }
      EnqueueMoves(t, id, w, budget);
    }
  }

  lemma FrameSendMoves(s: SendState, cap: nat, qos: Qos, f: Frame, budget: nat)
    requires budget >= MIN_FRAME_BYTES && Encodable(f) && (f.Data? || f.Frag? ==> |WireOf(f)| <= budget)
    ensures Moves(s, AfterSendWire(s, cap, f.channel, qos, WireOf(f)).0, budget)
  {
    FrameFits(f, budget);
    SendMoves(s, cap, f.channel, qos, WireOf(f), budget);
  }

  lemma FrameFits(f: Frame, budget: nat)
    requires budget >= MIN_FRAME_BYTES && Encodable(f) && (f.Data? || f.Frag? ==> |WireOf(f)| <= budget)
    ensures Fits(WireOf(f), budget)
  {
    HeaderRoundTrip(f);
    hide Header;
  }

  lemma {:induction false} SentMoves(s: SendState, cap: nat, id: uint32, qos: Qos, txSeq: uint32, msgId: uint64, payload: Bytes, budget: nat, i: nat)
    requires budget >= MIN_FRAME_BYTES
    requires var size := budget - HEADER_BYTES - FRAG_FIELDS_BYTES; i <= Needed(|payload|, size) <= MAX_FRAGMENTS
    ensures var size := budget - HEADER_BYTES - FRAG_FIELDS_BYTES;
      Moves(s, SentFrom(s, cap, id, qos, txSeq, msgId, payload, size, i).0, budget)
    decreases Needed(|payload|, budget - HEADER_BYTES - FRAG_FIELDS_BYTES) - i
  {
    hide AllFit, Served, AfterSendWire, WireOf, FragOf, Needed, Add32;
    var size := budget - HEADER_BYTES - FRAG_FIELDS_BYTES;
    if i < Needed(|payload|, size) {
      var f := FragOf(id, txSeq, msgId, payload, size, i);
      FragmentFits(id, txSeq, msgId, payload, budget, i);
      IsFragment(id, txSeq, msgId, payload, size, i);
      FrameSendMoves(s, cap, qos, f, budget);
      SentMoves(AfterSendWire(s, cap, id, qos, WireOf(f)).0, cap, id, qos, Add32(txSeq, 1), msgId, payload, budget, i + 1);
    }
  }

  lemma IsFragment(id: uint32, seqNo: uint32, msgId: uint64, payload: Bytes, size: nat, i: nat)
    requires size >= 1 && i < Needed(|payload|, size) <= MAX_FRAGMENTS
    ensures FragOf(id, seqNo, msgId, payload, size, i).Frag?
  {
  }

  // ------------------------------------------------------------ the mux's operations

  datatype MuxOp =
    | SendOp(id: uint32, payload: Bytes)
    | FlushOp
    | OpenOp(protocol: Bytes, cls: uint8, maxMessage: nat, fixedId: Option<uint32>)
    | CloseOp(id: uint32, reason: Bytes)
    | ResetOp(id: uint32)
    | InboundOp(wire: Bytes, nowMs: int)
    | SweepOp(id: uint32, nowMs: int, timeoutMs: int)
    | SettingsOp(opens: Openings)

  ghost function AfterMuxOp(s: MuxState, cap: nat, budget: nat, op: MuxOp): MuxState
    requires budget >= MIN_FRAME_BYTES && Mux.Valid(s)
  {
    match op
    case SendOp(id, payload) => AfterSendData(s, cap, budget, id, payload).0
    case FlushOp => s.(queue := Flushed(s.queue))
    case OpenOp(protocol, cls, maxMessage, fixedId) => AfterOpenOutbound(s, cap, protocol, cls, maxMessage, fixedId).0
    case CloseOp(id, reason) => AfterClose(s, cap, id, reason).0
    case ResetOp(id) => if id in s.channels then AfterReset(s, cap, id) else s
    case InboundOp(wire, nowMs) => AfterInbound(s, cap, wire, nowMs).0
    case SweepOp(id, nowMs, timeoutMs) => AfterSweep(s, id, nowMs, timeoutMs)
    case SettingsOp(opens) => s.(opens := opens)
  }

  lemma DataMoves(s: MuxState, cap: nat, budget: nat, id: uint32, payload: Bytes)
    requires budget >= MIN_FRAME_BYTES && Mux.Valid(s)
    ensures var t := AfterSendData(s, cap, budget, id, payload).0;
      Moves(s.queue, t.queue, budget) && Mux.Valid(t)
  {
    hide Moves, AfterSendWire, SentFrom, WireOf, Needed, Add32;
    Stays(s.queue, budget);
    if id in s.channels {
      var channel, size := s.channels[id], budget - HEADER_BYTES - FRAG_FIELDS_BYTES;
      if |payload| <= budget - HEADER_BYTES {
        DataFits(id, channel.txSeq, payload, budget);
        FrameSendMoves(s.queue, cap, channel.qos, Data(id, channel.txSeq, payload), budget);
      } else if Needed(|payload|, size) <= MAX_FRAGMENTS {
        SentMoves(s.queue, cap, id, channel.qos, channel.txSeq, s.nextMsgId, payload, budget, 0);
      }
    }
  }

  lemma Stays(s: SendState, budget: nat)
    ensures Moves(s, s, budget)
  {
  }

  lemma ThenMoves(s: SendState, t: SendState, u: SendState, budget: nat)
    requires Moves(s, t, budget) && Moves(t, u, budget)
    ensures Moves(s, u, budget)
  {
    hide AllFit, Served;
  }

  lemma ResetMoves(s: MuxState, cap: nat, budget: nat, id: uint32)
    requires budget >= MIN_FRAME_BYTES && Mux.Valid(s) && id in s.channels
    ensures var t := AfterReset(s, cap, id);
      Moves(s.queue, t.queue, budget) && Mux.Valid(t)
  {
    hide Moves, AfterSendWire, WireOf, AfterDrop;
    var f := Reset(id, s.channels[id].txSeq, RESET_CODE);
    DropMoves(s.queue, id, budget);
    FrameSendMoves(AfterDrop(s.queue, id), cap, s.channels[id].qos, f, budget);
    ThenMoves(s.queue, AfterDrop(s.queue, id), AfterReset(s, cap, id).queue, budget);
  }

  lemma OpenMoves(s: MuxState, cap: nat, budget: nat, f: Frame)
    requires budget >= MIN_FRAME_BYTES && Mux.Valid(s) && f.Open?
    ensures var t := AfterOpen(s, cap, f).0;
      Moves(s.queue, t.queue, budget) && Mux.Valid(t)
  {
    hide Moves, AfterSendWire, WireOf;
    Stays(s.queue, budget);
    FrameSendMoves(s.queue, cap, QosForClass(f.cls), OpenAck(f.channel, 0, RefusalOf(s, f)), budget);
  }

  lemma OutboundMoves(s: MuxState, cap: nat, budget: nat, protocol: Bytes, cls: uint8, maxMessage: nat, fixedId: Option<uint32>)
    requires budget >= MIN_FRAME_BYTES && Mux.Valid(s)
    ensures var t := AfterOpenOutbound(s, cap, protocol, cls, maxMessage, fixedId).0;
      Moves(s.queue, t.queue, budget) && Mux.Valid(t)
  {
    hide Moves, AfterSendWire, WireOf;
    Stays(s.queue, budget);
    var id := if fixedId.Some? then fixedId.value else NextIds(s.opens.nextId).0;
    var f := OpenFrame(id, protocol, cls, maxMessage);
    if Encodable(f) { FrameSendMoves(s.queue, cap, QosForClass(cls), f, budget); }
  }

  lemma CloseMoves(s: MuxState, cap: nat, budget: nat, id: uint32, reason: Bytes)
    requires budget >= MIN_FRAME_BYTES && Mux.Valid(s)
    ensures var t := AfterClose(s, cap, id, reason).0;
      Moves(s.queue, t.queue, budget) && Mux.Valid(t)
  {
    hide Moves, AfterSendWire, WireOf;
    Stays(s.queue, budget);
    if id in s.channels && |reason| < U32 {
      FrameSendMoves(s.queue, cap, s.channels[id].qos, Close(id, s.channels[id].txSeq, reason), budget);
    }
  }

  lemma InboundMoves(s: MuxState, cap: nat, budget: nat, f: Frame, nowMs: int)
    requires budget >= MIN_FRAME_BYTES && Mux.Valid(s)
    ensures var t := AfterFrame(s, cap, f, nowMs).0;
      Moves(s.queue, t.queue, budget) && Mux.Valid(t)
  {
    hide Moves, AfterReset, AfterDrop, AfterOpen, R.AfterPush;
    var id := f.channel;
    Stays(s.queue, budget);
    DropMoves(s.queue, id, budget);
    if f.Open? { OpenMoves(s, cap, budget, f); }
    if f.Frag? && id in s.channels {
      var channel := Counted(s.channels[id]);
      var partials := R.AfterPush(channel.partials, f.piece, nowMs, channel.limits).0;
      Laws.PushKeepsValid(channel.partials, f.piece, nowMs, channel.limits);
      ResetMoves(s.(channels := s.channels[id := channel.(partials := partials)]), cap, budget, id);
    }
  }

  lemma OpMoves(s: MuxState, cap: nat, budget: nat, op: MuxOp)
    requires budget >= MIN_FRAME_BYTES && Mux.Valid(s)
    ensures var t := AfterMuxOp(s, cap, budget, op);
      Moves(s.queue, t.queue, budget) && Mux.Valid(t)
  {
    hide Moves, AfterSendData, AfterOpenOutbound, AfterClose, AfterReset, AfterFrame, Decoded;
    Stays(s.queue, budget);
    match op {
      case SendOp(id, payload) => DataMoves(s, cap, budget, id, payload);
      case FlushOp => FlushMoves(s.queue, budget);
      case OpenOp(protocol, cls, maxMessage, fixedId) => OutboundMoves(s, cap, budget, protocol, cls, maxMessage, fixedId);
      case CloseOp(id, reason) => CloseMoves(s, cap, budget, id, reason);
      case ResetOp(id) => if id in s.channels { ResetMoves(s, cap, budget, id); }
      case InboundOp(wire, nowMs) => if Decoded(wire).Some? { InboundMoves(s, cap, budget, Decoded(wire).value, nowMs); }
      case SweepOp(_, _, _) =>
      case SettingsOp(_) =>
    }
  }

  lemma {:induction false} ServedSplit(a: seq<Handed>, b: seq<Handed>)
    ensures Served(a + b) == Served(a) + Served(b)
  {
    if b == [] {
      assert a + b == a;
    } else {
      assert (a + b)[..|a + b| - 1] == a + b[..|b| - 1];
      ServedSplit(a, b[..|b| - 1]);
    }
  }

  /** What an operation handed over: no more reliable frames than there was credit, and all of them fit. */
  lemma HandedByOp(s: MuxState, cap: nat, budget: nat, op: MuxOp, room: nat)
    requires budget >= MIN_FRAME_BYTES && Mux.Valid(s) && AllFit(s.queue, budget) && s.queue.credits == Slots(room)
    ensures var t := AfterMuxOp(s, cap, budget, op);
      && Mux.Valid(t) && AllFit(t.queue, budget) && s.queue.handed <= t.queue.handed
      && |Served(t.queue.handed[|s.queue.handed|..])| <= room
      && forall i :: |s.queue.handed| <= i < |t.queue.handed| ==> Fits(t.queue.handed[i].wire, budget)
  {
    hide AfterMuxOp, Served, Fits;
    OpMoves(s, cap, budget, op);
    var t := AfterMuxOp(s, cap, budget, op);
    var more := t.queue.handed[|s.queue.handed|..];
    assert t.queue.handed == s.queue.handed + more;
    ServedSplit(s.queue.handed, more);
  }

  // ------------------------------------------------------------ over an association

  /** ReliableCreditsRemaining. */
  function RoomOf(c: Assoc.Conn, p: A.Params): nat {
    Max(0, p.reliableWindow - |c.outstanding|)
  }

  /** An answer the mux must never get for a frame it hands over. */
  predicate Unwelcome(r: A.SendResult, w: Bytes, budget: nat) {
    r == A.ErrWindowFull || (r == A.ErrPayloadTooLarge && |w| <= budget)
  }

  ghost predicate Sealing(c: Assoc.Conn) {
    c.timer.backoff >= 0 && c.keys.sealing
  }

  /** The association after it is given these frames in turn, and whether it ever gave an unwelcome answer. */
  ghost function Given(c: Assoc.Conn, frames: seq<Handed>, nowMs: int, p: A.Params): (r: (Assoc.Conn, bool))
    requires Sealing(c)
    ensures Sealing(r.0)
  {
    if frames == [] then (c, false)
    else
      var (before, bad) := Given(c, frames[..|frames| - 1], nowMs, p);
      var h := frames[|frames| - 1];
      var (t, answer) := Assoc.AfterSend(before, h.qos.Reliable?, h.wire, nowMs, p);
      (t, bad || Unwelcome(answer, h.wire, DIRECT_BUDGET))
  }

  lemma {:induction false} GivenIsWelcome(c: Assoc.Conn, frames: seq<Handed>, nowMs: int, p: A.Params)
    requires Sealing(c) && |Served(frames)| <= RoomOf(c, p)
    ensures var (t, bad) := Given(c, frames, nowMs, p);
      !bad && |t.outstanding| <= |c.outstanding| + |Served(frames)|
  {
    hide A.RetransmitIntervalMs, A.Emit;
    if frames != [] { GivenIsWelcome(c, frames[..|frames| - 1], nowMs, p); }
  }

  /** A mux, the association below it, and whether that ever gave an unwelcome answer. */
  datatype Linked = Linked(mux: MuxState, conn: Assoc.Conn, bad: bool)

  /** The mux does something at some time, or the association comes to be another way: acks, timers, whatever. */
  datatype LinkStep = Above(op: MuxOp, nowMs: int) | Below(conn: Assoc.Conn)

  ghost function Linkwise(l: Linked, step: LinkStep, cap: nat, p: A.Params): (r: Linked)
    requires Mux.Valid(l.mux) && Sealing(l.conn)
    ensures Mux.Valid(r.mux) && ((step.Below? ==> Sealing(step.conn)) ==> Sealing(r.conn))
  {
    match step
    case Below(conn) => l.(conn := conn)
    case Above(op, nowMs) =>
      var before := WithCredit(l.mux, RoomOf(l.conn, p));
      var after := AfterMuxOp(before, cap, DIRECT_BUDGET, op);
      OpMoves(before, cap, DIRECT_BUDGET, op);
      var (conn, bad) := Given(l.conn, after.queue.handed[|before.queue.handed|..], nowMs, p);
      Linked(after, conn, l.bad || bad)
  }

  function WithCredit(s: MuxState, room: nat): MuxState {
    s.(queue := s.queue.(credits := Slots(room)))
  }

  ghost predicate LinkInv(l: Linked) {
    AllFit(l.mux.queue, DIRECT_BUDGET) && !l.bad
  }

  lemma LinkStepKeeps(l: Linked, step: LinkStep, cap: nat, p: A.Params)
    requires Mux.Valid(l.mux) && Sealing(l.conn) && LinkInv(l)
    ensures LinkInv(Linkwise(l, step, cap, p))
  {
    hide AfterMuxOp, Mux.Valid, AllFit, Served, Fits, Given;
    if step.Above? {
      var before := WithCredit(l.mux, RoomOf(l.conn, p));
      CreditIsNothing(l.mux, RoomOf(l.conn, p), DIRECT_BUDGET);
      HandedByOp(before, cap, DIRECT_BUDGET, step.op, RoomOf(l.conn, p));
      var after := AfterMuxOp(before, cap, DIRECT_BUDGET, step.op);
      GivenIsWelcome(l.conn, after.queue.handed[|before.queue.handed|..], step.nowMs, p);
    }
  }

  lemma CreditIsNothing(s: MuxState, room: nat, budget: nat)
    ensures var t := WithCredit(s, room);
      Mux.Valid(t) == Mux.Valid(s) && AllFit(t.queue, budget) == AllFit(s.queue, budget)
  {
  }

  /** The link after a run; a step below may leave the association any way that still seals. */
  ghost function LinkRan(l: Linked, steps: seq<LinkStep>, cap: nat, p: A.Params): (r: Linked)
    requires Mux.Valid(l.mux) && Sealing(l.conn)
    ensures Mux.Valid(r.mux) && Sealing(r.conn)
  {
    if steps == [] then l
    else
      var before, step := LinkRan(l, steps[..|steps| - 1], cap, p), steps[|steps| - 1];
      if step.Below? && !Sealing(step.conn) then before else Linkwise(before, step, cap, p)
  }

  function NewMux(credits: Credits, opens: Openings): MuxState {
    MuxState(map[], Empty(credits), 1, [], opens)
  }

  /**
   Over any run of a mux on an association, from the start: Connection::Send never answers a frame of the mux that its
   window is full, nor one within budget (every frame but an OPEN or CLOSE with a long text) that it is too large.
   */
  lemma {:induction false} NeverOverfills(credits: Credits, opens: Openings, conn: Assoc.Conn, steps: seq<LinkStep>, cap: nat, p: A.Params)
    requires Sealing(conn)
    ensures Mux.Valid(NewMux(credits, opens))
    ensures var l := LinkRan(Linked(NewMux(credits, opens), conn, false), steps, cap, p);
      !l.bad && AllFit(l.mux.queue, DIRECT_BUDGET)
  {
    hide Linkwise, Mux.Valid, AllFit;
    NothingHanded(credits, opens, DIRECT_BUDGET);
    if steps != [] {
      NeverOverfills(credits, opens, conn, steps[..|steps| - 1], cap, p);
      var before := LinkRan(Linked(NewMux(credits, opens), conn, false), steps[..|steps| - 1], cap, p);
      LinkStepKeeps(before, steps[|steps| - 1], cap, p);
    }
  }

  lemma NothingHanded(credits: Credits, opens: Openings, budget: nat)
    ensures Mux.Valid(NewMux(credits, opens)) && AllFit(NewMux(credits, opens).queue, budget)
  {
  }

  // ------------------------------------------------------------ over a carrier lane

  /** SealCarrierFrame, for its length: the clear header, the frame, the tag. `n` stands for the packet number. */
  ghost predicate SealsTo(seal: (nat, Bytes) -> Bytes) {
    forall n, w :: |seal(n, w)| == CARRIER_SEALED_HEADER + |w| + TAG
  }

  function LaneRoom(l: L.LaneState, cfg: L.LaneConfig): nat {
    Max(0, cfg.window - |l.outstanding|)
  }

  /**
   The lane after these frames, the best-effort ones going past it, and whether it ever refused one or made
   of a frame in budget a wire that does not ride one DATA frame of the outer mux.
   */
  ghost function Laned(l: L.LaneState, frames: seq<Handed>, nowMs: int, cfg: L.LaneConfig, depth: nat, seal: (nat, Bytes) -> Bytes): (L.LaneState, bool)
    requires depth >= 1
  {
    if frames == [] then (l, false)
    else
      var (before, bad) := Laned(l, frames[..|frames| - 1], nowMs, cfg, depth, seal);
      var h := frames[|frames| - 1];
      if h.qos.BestEffort? then (before, bad)
      else
        var (t, wire) := L.AfterWrap(before, seal(|frames|, h.wire), nowMs, cfg);
        (t, bad || wire.None? || (|h.wire| <= Budget(depth) && |wire.value| > Budget(depth - 1) - HEADER_BYTES))
  }

  lemma {:induction false} LanedIsWelcome(l: L.LaneState, frames: seq<Handed>, nowMs: int, cfg: L.LaneConfig, depth: nat, seal: (nat, Bytes) -> Bytes)
    requires depth >= 1 && Budget(depth) >= MIN_FRAME_BYTES && SealsTo(seal) && |Served(frames)| <= LaneRoom(l, cfg)
    ensures var (t, bad) := Laned(l, frames, nowMs, cfg, depth, seal);
      !bad && |t.outstanding| == |l.outstanding| + |Served(frames)|
  {
    hide Budget, LC.EncodeLaneData;
    if frames != [] {
      LanedIsWelcome(l, frames[..|frames| - 1], nowMs, cfg, depth, seal);
      var h := frames[|frames| - 1];
      var before := Laned(l, frames[..|frames| - 1], nowMs, cfg, depth, seal).0;
      LaneLength(before.nextTx, seal(|frames|, h.wire));
      RidesOneFrame(|h.wire|, depth, true);
    }
  }

  datatype LaneLinked = LaneLinked(mux: MuxState, lane: L.LaneState, bad: bool)
  datatype LaneStep = OnMux(op: MuxOp, nowMs: int) | OnLane(lane: L.LaneState)

  ghost function Lanewise(l: LaneLinked, step: LaneStep, cap: nat, cfg: L.LaneConfig, depth: nat, seal: (nat, Bytes) -> Bytes): (r: LaneLinked)
    requires Mux.Valid(l.mux) && depth >= 1 && Budget(depth) >= MIN_FRAME_BYTES
    ensures Mux.Valid(r.mux)
  {
    match step
    case OnLane(lane) => l.(lane := lane)
    case OnMux(op, nowMs) =>
      var before := WithCredit(l.mux, LaneRoom(l.lane, cfg));
      var after := AfterMuxOp(before, cap, Budget(depth), op);
      OpMoves(before, cap, Budget(depth), op);
      var (lane, bad) := Laned(l.lane, after.queue.handed[|before.queue.handed|..], nowMs, cfg, depth, seal);
      LaneLinked(after, lane, l.bad || bad)
  }

  lemma LaneStepKeeps(l: LaneLinked, step: LaneStep, cap: nat, cfg: L.LaneConfig, depth: nat, seal: (nat, Bytes) -> Bytes)
    requires Mux.Valid(l.mux) && depth >= 1 && Budget(depth) >= MIN_FRAME_BYTES && SealsTo(seal)
    requires AllFit(l.mux.queue, Budget(depth)) && !l.bad
    ensures var t := Lanewise(l, step, cap, cfg, depth, seal);
      AllFit(t.mux.queue, Budget(depth)) && !t.bad
  {
    hide AfterMuxOp, Mux.Valid, AllFit, Served, Fits, Laned, Budget, SealsTo;
    if step.OnMux? {
      var before := WithCredit(l.mux, LaneRoom(l.lane, cfg));
      CreditIsNothing(l.mux, LaneRoom(l.lane, cfg), Budget(depth));
      HandedByOp(before, cap, Budget(depth), step.op, LaneRoom(l.lane, cfg));
      var after := AfterMuxOp(before, cap, Budget(depth), step.op);
      LanedIsWelcome(l.lane, after.queue.handed[|before.queue.handed|..], step.nowMs, cfg, depth, seal);
    }
  }

  ghost function LaneRan(l: LaneLinked, steps: seq<LaneStep>, cap: nat, cfg: L.LaneConfig, depth: nat, seal: (nat, Bytes) -> Bytes): (r: LaneLinked)
    requires Mux.Valid(l.mux) && depth >= 1 && Budget(depth) >= MIN_FRAME_BYTES
    ensures Mux.Valid(r.mux)
  {
    if steps == [] then l
    else Lanewise(LaneRan(l, steps[..|steps| - 1], cap, cfg, depth, seal), steps[|steps| - 1], cap, cfg, depth, seal)
  }

  /**
   Likewise a carrier, however deep: Wrap never refuses a frame of the mux, and every frame in budget, sealed and laned,
   rides one DATA frame of the outer mux.
   */
  lemma {:induction false} LaneNeverOverfills(
    credits: Credits, opens: Openings, lane: L.LaneState, steps: seq<LaneStep>, cap: nat, cfg: L.LaneConfig, depth: nat, seal: (nat, Bytes) -> Bytes)
    requires depth >= 1 && Budget(depth) >= MIN_FRAME_BYTES && SealsTo(seal)
    ensures Mux.Valid(NewMux(credits, opens))
    ensures var l := LaneRan(LaneLinked(NewMux(credits, opens), lane, false), steps, cap, cfg, depth, seal);
      !l.bad && AllFit(l.mux.queue, Budget(depth))
  {
    hide Lanewise, Mux.Valid, AllFit, Budget, SealsTo;
    NothingHanded(credits, opens, Budget(depth));
    if steps != [] {
      LaneNeverOverfills(credits, opens, lane, steps[..|steps| - 1], cap, cfg, depth, seal);
      var before := LaneRan(LaneLinked(NewMux(credits, opens), lane, false), steps[..|steps| - 1], cap, cfg, depth, seal);
      LaneStepKeeps(before, steps[|steps| - 1], cap, cfg, depth, seal);
    }
  }

  // ------------------------------------------------------------ the credit is no less than the room

  /** An association that is open and has numbers left takes a reliable packet that fits exactly while there is credit, and each takes one. */
  lemma RoomIsExact(c: Assoc.Conn, payload: Bytes, nowMs: int, p: A.Params)
    requires c.timer.backoff >= 0 && !c.closed && |payload| <= 1199 && c.txRel < 0xFFFF_FFFF
    ensures var (t, answer) := Assoc.AfterSend(c, true, payload, nowMs, p);
      && (answer == A.Ok <==> RoomOf(c, p) > 0) && (answer == A.ErrWindowFull <==> RoomOf(c, p) == 0)
      && (answer == A.Ok ==> RoomOf(t, p) == RoomOf(c, p) - 1)
  {
    hide A.RetransmitIntervalMs, A.Emit;
  }

  lemma LaneRoomIsExact(l: L.LaneState, inner: Bytes, nowMs: int, cfg: L.LaneConfig)
    ensures var (t, wire) := L.AfterWrap(l, inner, nowMs, cfg);
      && (wire.Some? <==> LaneRoom(l, cfg) > 0) && (wire.None? ==> t == l)
      && (wire.Some? ==> LaneRoom(t, cfg) == LaneRoom(l, cfg) - 1)
  {
    hide LC.EncodeLaneData;
  }
}
