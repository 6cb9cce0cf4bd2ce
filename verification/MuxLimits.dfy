/**
 Where transparency ends, with runs that get there: a receiver checks a fragmented message against the limit it granted
 and against the partials it holds (src/L3/MessageReassembly.cpp:20-52), and resets the channel; its sender was told
 neither, and SendData answers it as any other message (src/L3/ChannelMux.cpp:305-334, 473-536).
 */
module MuxLimits {
  import opened Words
  import opened Chunks
  import opened ChannelWire
  import opened SendQueue
  import opened Mux
  import opened MuxProtocol
  import opened MuxTransparency
  import opened MuxStranding
  import opened MuxDelivery
  import R = Reassembly
  import F = MuxFragments

  // ------------------------------------------------------------ runs, step by step

  ghost predicate FairStep(t: System, act: Act, cfg: Config) {
    && cfg.maxFrame >= MIN_FRAME_BYTES && Mux.Valid(t.a) && Mux.Valid(t.b)
    && Allowed(t, act, cfg) && (act.BArrival? ==> Welcome(t, cfg)) && t.a.nextMsgId + 1 < U64
  }

  lemma OneFairStepMore(s: System, acts: seq<Act>, act: Act, cfg: Config)
    requires Fair(s, acts, cfg) && FairStep(RanTo(s, acts, cfg), act, cfg)
    ensures Fair(s, acts + [act], cfg) && RanTo(s, acts + [act], cfg) == Next(RanTo(s, acts, cfg), act, cfg)
  {
    hide Allowed, Welcome, Next;
    assert (acts + [act])[..|acts|] == acts;
  }

  /** Everything handed over has arrived, and nothing waits. */
  ghost predicate Quiescent(s: System, cfg: Config) {
    && s.a.queue.queues == map[] && s.a.queue.order == [] && s.a.queue.queuedBytes == 0
    && s.got == |s.a.queue.handed| && ReadSoFar(s, cfg.channel) >= |cfg.early|
  }

  lemma QuiescentIsInv(s: System, cfg: Config)
    requires Quiescent(s, cfg)
    ensures SendQueue.Inv(s.a.queue, cfg.capA) && Flushed(s.a.queue) == s.a.queue
  {
  }

  // ------------------------------------------------------------ a message B must refuse

  /** With an empty queue and credit the first fragment is handed over at once. */
  lemma FirstFragmentGoes(q: SendState, cap: nat, c: uint32, txSeq: uint32, msgId: uint64, payload: Bytes, size: nat)
    requires q.queues == map[] && q.order == [] && HasCredit(q.credits) && LabelsOk(q, c)
    requires size >= 1 && 0 < Needed(|payload|, size) <= MAX_FRAGMENTS
    ensures var t := SentFrom(q, cap, c, Reliable, txSeq, msgId, payload, size, 0).0;
      |q.handed| < |t.handed| && t.handed[|q.handed|].channel == c && t.handed[|q.handed|].qos.Reliable?
  {
    hide Needed, WireOf, FragOf, LabelsOk, Add32;
    var f := FragOf(c, txSeq, msgId, payload, size, 0);
    var h := Handed(c, Reliable, WireOf(f));
    var after := Transported(q, h);
    assert AfterSendWire(q, cap, c, Reliable, WireOf(f)) == (after, Passed);
    SendKeepsLabels(q, cap, Reliable, f, c);
    SentKeepsLabels(after, cap, c, Reliable, Add32(txSeq, 1), msgId, payload, size, 1, c);
    assert after.handed[|q.handed|] == h;
  }

  /**
   In a quiet state of any fair run: a fragmented message that goes out in full, and that B has no room for, is accepted
   by SendData and ends the channel at B with its first fragment.
   */
  lemma AcceptedThenReset(s: System, acts: seq<Act>, cfg: Config, payload: Bytes, nowMs: int)
    requires Start(s, cfg) && Fair(s, acts, cfg)
    requires var t := RanTo(s, acts, cfg);
      && Quiescent(t, cfg) && t.a.queue.credits.Unlimited? && t.a.nextMsgId + 1 < U64 && t.at == |t.calls| && t.piece == 0
      && LongSend(t.a, cfg, payload) && |payload| <= cfg.capA && cfg.channel in t.b.channels
      && (|| |payload| > t.b.channels[cfg.channel].limits.maxMessage
          || |t.b.channels[cfg.channel].partials| >= t.b.channels[cfg.channel].limits.maxPartials)
    ensures var t := RanTo(s, acts, cfg);
      var sent := RanTo(s, acts + [ASend(cfg.channel, payload)], cfg);
      var u := RanTo(s, acts + [ASend(cfg.channel, payload)] + [BArrival(nowMs)], cfg);
      && Fair(s, acts + [ASend(cfg.channel, payload)], cfg)
      && sent.accepted == t.accepted + [payload]
      && u.accepted == sent.accepted && cfg.channel !in u.b.channels && u.b.delivered == t.b.delivered
  {
    RanInv(s, acts, cfg);
    var t := RanTo(s, acts, cfg);
    var send := ASend(cfg.channel, payload);
    InvIsValid(t, cfg);
    hide Start, Fair, RanTo, Next, MuxDelivery.Inv, Mux.Valid, LabelsOk, LongSend, Quiescent, AfterInbound, ReadSoFar, AfterSendData, IdsOk, CallsOk;
    CalmIsFair(t, send, cfg);
    OneFairStepMore(s, acts, send, cfg);
    AcceptedInFull(t, cfg, payload);
    QuiescentMeans(t, cfg);
    RefusedExactlyWhen(s, acts + [send], cfg, nowMs);
    RanInv(s, acts + [send], cfg);
    InvIsValid(RanTo(s, acts + [send], cfg), cfg);
    LastArrival(s, acts + [send], cfg, nowMs);
  }

  lemma QuiescentMeans(t: System, cfg: Config)
    requires Quiescent(t, cfg)
    ensures t.got <= |t.a.queue.handed| && ReadSoFar(t, cfg.channel) >= |cfg.early|
  {
  }

  lemma CalmIsFair(t: System, act: Act, cfg: Config)
    requires cfg.maxFrame >= MIN_FRAME_BYTES && Mux.Valid(t.a) && Mux.Valid(t.b) && t.a.nextMsgId + 1 < U64
    requires act.ACredit? || act.ASend? || act.AFlush?
    ensures FairStep(t, act, cfg)
  {
    hide Next, Mux.Valid;
  }

  lemma InvIsValid(t: System, cfg: Config)
    requires MuxDelivery.Inv(t, cfg)
    ensures Mux.Valid(t.a) && Mux.Valid(t.b) && LabelsOk(t.a.queue, cfg.channel) && cfg.channel in t.a.channels && cfg.channel in t.b.channels
    ensures IdsOk(t.calls, t.a.nextMsgId) && CallsOk(t.calls)
  {
  }

  lemma LastArrival(s: System, acts: seq<Act>, cfg: Config, nowMs: int)
    requires var t := RanTo(s, acts, cfg);
      cfg.maxFrame >= MIN_FRAME_BYTES && Mux.Valid(t.a) && Mux.Valid(t.b) && t.got < |t.a.queue.handed|
    ensures var t, u := RanTo(s, acts, cfg), RanTo(s, acts + [BArrival(nowMs)], cfg);
      u.b == AfterInbound(t.b, cfg.capB, t.a.queue.handed[t.got].wire, nowMs).0 && u.accepted == t.accepted
  {
    hide AfterInbound;
    assert (acts + [BArrival(nowMs)])[..|acts|] == acts;
  }

  /** What the SendData step leaves: the payload accepted, one call more, its first fragment next off the transport. */
  lemma AcceptedInFull(t: System, cfg: Config, payload: Bytes)
    requires Quiescent(t, cfg) && t.a.queue.credits.Unlimited? && Mux.Valid(t.a) && Mux.Valid(t.b) && LabelsOk(t.a.queue, cfg.channel)
    requires LongSend(t.a, cfg, payload) && |payload| <= cfg.capA
    ensures var u := Next(t, ASend(cfg.channel, payload), cfg);
      && u.accepted == t.accepted + [payload] && u.b == t.b && u.got == t.got && u.at == t.at && u.piece == t.piece
      && |u.calls| == |t.calls| + 1 && u.calls[|t.calls|].Pieces? && u.calls[|t.calls|].payload == payload
      && u.got < |u.a.queue.handed| && u.a.queue.handed[u.got].channel == cfg.channel
      && ReadSoFar(u, cfg.channel) == ReadSoFar(t, cfg.channel)
  {
    hide Needed, SentFrom, Remaining, AfterSendWire, WireOf, ChunkAt, LabelsOk;
    var size := cfg.maxFrame - PER_FRAGMENT;
    var channel := t.a.channels[cfg.channel];
    QuiescentIsInv(t, cfg);
    WholeIsRemaining(payload, size);
    SentExactlyWhen(t.a.queue, cfg.capA, cfg.channel, channel.txSeq, t.a.nextMsgId, payload, size, 0);
    FirstFragmentGoes(t.a.queue, cfg.capA, cfg.channel, channel.txSeq, t.a.nextMsgId, payload, size);
    SentKeepsLabels(t.a.queue, cfg.capA, cfg.channel, Reliable, channel.txSeq, t.a.nextMsgId, payload, size, 0, cfg.channel);
    var u := Next(t, ASend(cfg.channel, payload), cfg);
    assert u.a.queue.handed[..t.got] == t.a.queue.handed[..t.got];
  }

  // ------------------------------------------------------------ above the grant

  const CONTROL: uint8 := 1
  const NO_OPENINGS := Openings(1, {}, {}, false, 256)

  function NewEnd(nextId: uint32): MuxState {
    MuxState(map[], Empty(Unlimited), 1, [], NO_OPENINGS.(nextId := nextId))
  }

  function Opener(protocol: Bytes, cap: nat): MuxState {
    AfterOpenOutbound(NewEnd(1), cap, protocol, CONTROL, 300_000, None).0
  }

  function Accepter(protocol: Bytes, cap: nat): MuxState {
    AfterOpen(NewEnd(2), cap, OpenFrame(1, protocol, CONTROL, 300_000)).0
  }

  /** Two new ends, after A's OPEN of a control channel with a limit of 300000 bytes, B's yes, and its arrival. */
  function JustOpened(protocol: Bytes, cap: nat): System
    requires 1 in Opener(protocol, cap).channels
  {
    System(AfterOpenAck(Opener(protocol, cap), OpenAck(1, 0, 0)).0, Accepter(protocol, cap), 1, [], [], 0, 0)
  }

  function ControlChannel(maxMessage: nat): Channel {
    Channel(Reliable, IsOpen, R.Limits(maxMessage, MAX_PARTIALS, false), 1, 1, map[])
  }

  /** Channel 1, open at both ends with nothing sent on it yet, `h` its OPEN. */
  ghost predicate IsOpened(s: System, h: Handed) {
    && s.a.channels == map[1 := ControlChannel(300_000)] && s.b.channels == map[1 := ControlChannel(MAX_CHAT_BYTES)]
    && s.a.queue == SendState(map[], [], 0, Unlimited, [h]) && h.channel == 1 && h.qos.Reliable? && Labelled(h.wire, 1)
    && s.a.nextMsgId == 1 && s.b.delivered == [] && s.got == 1 && Fresh(s)
  }

  lemma OpenerIs(protocol: Bytes, cap: nat) returns (h: Handed)
    requires |protocol| < U32
    ensures var a := Opener(protocol, cap);
      && a.channels == map[1 := ControlChannel(300_000).(state := Opening)] && a.nextMsgId == 1
      && a.queue == SendState(map[], [], 0, Unlimited, [h]) && h.channel == 1 && h.qos.Reliable? && Labelled(h.wire, 1)
  {
    var f := OpenFrame(1, protocol, CONTROL, 300_000);
    WireLabelled(f);
    h := Handed(1, Reliable, WireOf(f));
    SentOnEmpty(cap, 1, WireOf(f));
    hide WireOf, Labelled, AfterSendWire;
  }

  lemma SentOnEmpty(cap: nat, id: uint32, w: Bytes)
    ensures AfterSendWire(Empty(Unlimited), cap, id, Reliable, w) == (SendState(map[], [], 0, Unlimited, [Handed(id, Reliable, w)]), Passed)
  {
    assert Flushed(Empty(Unlimited)) == Empty(Unlimited);
    assert [] + [Handed(id, Reliable, w)] == [Handed(id, Reliable, w)];
  }

  lemma AccepterIs(protocol: Bytes, cap: nat)
    ensures var b := Accepter(protocol, cap);
      b.channels == map[1 := ControlChannel(MAX_CHAT_BYTES)] && b.delivered == []
  {
    hide AfterSendWire, WireOf;
  }

  lemma JustOpenedIs(protocol: Bytes, cap: nat) returns (h: Handed)
    requires |protocol| < U32
    ensures 1 in Opener(protocol, cap).channels && IsOpened(JustOpened(protocol, cap), h)
  {
    h := OpenerIs(protocol, cap);
    AccepterIs(protocol, cap);
    hide Opener, Accepter, Labelled;
  }

  function ConfigOpened(s: System, h: Handed, cap: nat, maxFrame: nat): Config {
    Config(1, cap, maxFrame, cap, [h.wire], [])
  }

  lemma OpenedStarts(s: System, h: Handed, cap: nat, maxFrame: nat)
    requires IsOpened(s, h) && maxFrame >= MIN_FRAME_BYTES
    ensures var cfg := ConfigOpened(s, h, cap, maxFrame);
      Start(s, cfg) && Quiescent(s, cfg)
  {
    hide Labelled;
    assert s.a.queue.handed[..1] == [h];
    HandedOfSnoc([], h, 1);
    assert [] + [h] == [h] && [h.wire] + [] == [h.wire];
    NothingCounted([]);
  }

  lemma OpenedThenReset(s: System, h: Handed, payload: Bytes, cap: nat, nowMs: int)
    requires IsOpened(s, h) && MAX_CHAT_BYTES < |payload| <= 300_000 && cap >= 300_000
    ensures var cfg := ConfigOpened(s, h, cap, 1203);
      var u := RanTo(s, [ASend(1, payload)] + [BArrival(nowMs)], cfg);
      Start(s, cfg) && u.accepted == [payload] && 1 !in u.b.channels && u.b.delivered == []
  {
    var cfg := ConfigOpened(s, h, cap, 1203);
    OpenedStarts(s, h, cap, 1203);
    assert Needed(|payload|, 1203 - PER_FRAGMENT) <= MAX_FRAGMENTS;
    hide Start, Next, Quiescent, Needed, Mux.Valid, Allowed, Welcome, ReadSoFar, Labelled;
    assert RanTo(s, [], cfg) == s && Fair(s, [], cfg);
    assert LongSend(s.a, cfg, payload);
    hide RanTo, Fair, LongSend;
    AcceptedThenReset(s, [], cfg, payload, nowMs);
    assert [] + [ASend(1, payload)] == [ASend(1, payload)];
  }

  /** Any payload above B's grant and within A's limit: SendData answers Done, and B ends the channel with its first fragment. */
  lemma AboveTheGrant(protocol: Bytes, payload: Bytes, cap: nat, nowMs: int) returns (cfg: Config)
    requires |protocol| < U32 && MAX_CHAT_BYTES < |payload| <= 300_000 && cap >= 300_000
    ensures 1 in Opener(protocol, cap).channels
    ensures var s := JustOpened(protocol, cap);
      var u := RanTo(s, [ASend(1, payload)] + [BArrival(nowMs)], cfg);
      && Start(s, cfg) && cfg.capA == cap && cfg.channel == 1
      && u.accepted == [payload] && 1 !in u.b.channels && u.b.delivered == []
  {
    hide Opener, Accepter, Start, RanTo, IsOpened;
    var h := JustOpenedIs(protocol, cap);
    cfg := ConfigOpened(JustOpened(protocol, cap), h, cap, 1203);
    OpenedThenReset(JustOpened(protocol, cap), h, payload, cap, nowMs);
  }

  // ------------------------------------------------------------ one partial too many

  function Text(n: nat): Bytes {
    seq(n, _ => 7)
  }

  /** Quiet, with B holding the beginnings of exactly `n` messages, all cut short; a queue of 100 bytes and a budget of 64. */
  ghost predicate Loaded(s: System, cfg: Config, n: nat) {
    && MuxDelivery.Inv(s, cfg) && Quiescent(s, cfg) && cfg.capA == 100 && cfg.maxFrame == 64
    && s.at == |s.calls| && s.piece == 0
    && s.b.channels[cfg.channel].partials.Keys == Stranded(s.calls) && |Stranded(s.calls)| == n
    && s.a.channels[cfg.channel].limits.maxMessage >= 100 && s.b.channels[cfg.channel].limits.maxMessage >= 100
  }

  lemma NextFragment(q: SendState, c: uint32, txSeq: uint32, msgId: uint64, i: nat)
    requires i <= 3
    ensures Needed(100, 39) == 3
    ensures i < 3 ==>
      var w := WireOf(FragOf(c, txSeq, msgId, Text(100), 39, i));
      var (after, out) := AfterSendWire(q, 100, c, Reliable, w);
      && |w| == (if i == 2 then 47 else 64)
      && SentFrom(q, 100, c, Reliable, txSeq, msgId, Text(100), 39, i) ==
           if out == Full then (after, i, Failed)
           else SentFrom(after, 100, c, Reliable, Add32(txSeq, 1), msgId, Text(100), 39, i + 1)
  {
    hide WireOf, AfterSendWire, Add32, FragOf;
    if i < 3 {
      FragmentLength(c, txSeq, msgId, Text(100), 39, i);
      ChunkSizes(Text(100), 39, i);
    }
  }

  lemma OneGoes(q: SendState, c: uint32, w: Bytes)
    requires q.queues == map[] && q.order == [] && q.credits == Slots(1)
    ensures AfterSendWire(q, 100, c, Reliable, w) == (q.(credits := Slots(0), handed := q.handed + [Handed(c, Reliable, w)]), Passed)
  {
  }

  lemma OneWaits(q: SendState, c: uint32, w: Bytes)
    requires q.queues == map[] && q.order == [] && q.queuedBytes == 0 && q.credits == Slots(0) && |w| == 64
    ensures AfterSendWire(q, 100, c, Reliable, w) == (q.(queues := map[c := [w]], order := [c], queuedBytes := 64), Waiting)
  {
    assert [] + [c] == [c] && [] + [w] == [w];
    assert q.queues[c := [w]] == map[c := [w]];
  }

  lemma NoRoom(q: SendState, c: uint32, w: Bytes)
    requires q.queuedBytes == 64 && q.credits == Slots(0) && |w| == 47
    ensures AfterSendWire(q, 100, c, Reliable, w) == (q, Full)
  {
  }

  /** Credit for one frame, three fragments: one goes, one waits, and for the last there is no room. */
  lemma CutSend(q: SendState, c: uint32, txSeq: uint32, msgId: uint64) returns (w0: Bytes, w1: Bytes)
    requires q.queues == map[] && q.order == [] && q.queuedBytes == 0 && q.credits == Slots(1)
    ensures Needed(100, 39) == 3 && |w1| == 64
    ensures SentFrom(q, 100, c, Reliable, txSeq, msgId, Text(100), 39, 0) ==
            (SendState(map[c := [w1]], [c], 64, Slots(0), q.handed + [Handed(c, Reliable, w0)]), 2, Failed)
  {
    NextFragment(q, c, txSeq, msgId, 0);
    w0 := WireOf(FragOf(c, txSeq, msgId, Text(100), 39, 0));
    w1 := WireOf(FragOf(c, Add32(txSeq, 1), msgId, Text(100), 39, 1));
    var w2 := WireOf(FragOf(c, Add32(Add32(txSeq, 1), 1), msgId, Text(100), 39, 2));
    hide WireOf, FragOf, Add32, Needed, SentFrom, AfterSendWire;
    var q1 := SendState(map[], [], 0, Slots(0), q.handed + [Handed(c, Reliable, w0)]);
    OneGoes(q, c, w0);
    NextFragment(q1, c, Add32(txSeq, 1), msgId, 1);
    OneWaits(q1, c, w1);
    var q2 := SendState(map[c := [w1]], [c], 64, Slots(0), q1.handed);
    NextFragment(q2, c, Add32(Add32(txSeq, 1), 1), msgId, 2);
    NoRoom(q2, c, w2);
  }

  lemma FlushOne(c: uint32, w: Bytes, handed: seq<Handed>)
    ensures Flushed(SendState(map[c := [w]], [c], |w|, Slots(1), handed)) ==
            SendState(map[], [], 0, Slots(0), handed + [Handed(c, Reliable, w)])
  {
    var q := SendState(map[c := [w]], [c], |w|, Slots(1), handed);
    assert Turn(q) == SendState(map[], [], 0, Slots(0), handed + [Handed(c, Reliable, w)]);
  }

  /** After the four steps of end A: one more call, two of its three fragments on the way, the queue empty again. */
  ghost predicate OneMoreCut(s: System, t: System, cfg: Config) {
    && t.b == s.b && t.got == s.got && t.at == s.at && t.piece == s.piece
    && t.calls == s.calls + [Pieces(Text(100), s.a.nextMsgId, 39, 2)]
    && t.a.queue.queues == map[] && t.a.queue.order == [] && t.a.queue.queuedBytes == 0
    && |t.a.queue.handed| == |s.a.queue.handed| + 2 && s.a.queue.handed <= t.a.queue.handed
    && (forall i :: |s.a.queue.handed| <= i < |t.a.queue.handed| ==>
          t.a.queue.handed[i].channel == cfg.channel && t.a.queue.handed[i].qos.Reliable?)
    && t.a.nextMsgId == s.a.nextMsgId + 1 && cfg.channel in s.a.channels && cfg.channel in t.a.channels
    && t.a.channels[cfg.channel].limits == s.a.channels[cfg.channel].limits
  }

  /** A SendData of 100 bytes with a quiet queue and credit for one frame. */
  lemma CutSendData(a: MuxState, cfg: Config) returns (w0: Bytes, w1: Bytes)
    requires cfg.maxFrame == 64 && cfg.capA == 100 && cfg.channel in a.channels && a.nextMsgId + 1 < U64
    requires a.channels[cfg.channel].state == IsOpen && a.channels[cfg.channel].qos.Reliable? && a.channels[cfg.channel].limits.maxMessage >= 100
    requires a.queue.queues == map[] && a.queue.order == [] && a.queue.queuedBytes == 0 && a.queue.credits == Slots(1)
    ensures |w1| == 64
    ensures var c := cfg.channel;
      var queue := SendState(map[c := [w1]], [c], 64, Slots(0), a.queue.handed + [Handed(c, Reliable, w0)]);
      AfterSendData(a, 100, 64, c, Text(100)) == (WithTx(a.(nextMsgId := a.nextMsgId + 1), c, queue, 2), Failed)
  {
    w0, w1 := CutSend(a.queue, cfg.channel, a.channels[cfg.channel].txSeq, a.nextMsgId);
    F.LongSend(a, 100, 64, cfg.channel, Text(100));
    assert |Text(100)| == 100;
    hide SentFrom, Needed, AfterSendData, Text, FragOf, WireOf, AfterSendWire, Mux.Valid;
  }

  lemma CutCall(a: MuxState, cfg: Config)
    requires cfg.maxFrame == 64 && cfg.capA == 100 && cfg.channel in a.channels && a.nextMsgId + 1 < U64
    requires a.channels[cfg.channel].state == IsOpen && a.channels[cfg.channel].qos.Reliable? && a.channels[cfg.channel].limits.maxMessage >= 100
    requires a.queue.queues == map[] && a.queue.order == [] && a.queue.queuedBytes == 0 && a.queue.credits == Slots(1)
    ensures CallOf(a, cfg, cfg.channel, Text(100)) == [Pieces(Text(100), a.nextMsgId, 39, 2)]
  {
    var w0, w1 := CutSend(a.queue, cfg.channel, a.channels[cfg.channel].txSeq, a.nextMsgId);
    hide SentFrom, Needed, AfterSendData;
  }

  /** The four steps of end A: credit for a frame, the message, credit for one more, a flush. */
  function Cut(s: System, cfg: Config): System
    requires cfg.maxFrame >= MIN_FRAME_BYTES
  {
    var c := cfg.channel;
    var a1 := s.a.(queue := s.a.queue.(credits := Slots(1)));
    var a2 := AfterSendData(a1, cfg.capA, cfg.maxFrame, c, Text(100)).0;
    var a3 := a2.(queue := a2.queue.(credits := Slots(1)));
    s.(a := a3.(queue := Flushed(a3.queue)), calls := s.calls + CallOf(a1, cfg, c, Text(100)))
  }

  lemma CutMeans(s: System, cfg: Config)
    requires cfg.maxFrame == 64 && cfg.capA == 100 && cfg.channel in s.a.channels && s.a.nextMsgId + 1 < U64
    requires s.a.channels[cfg.channel].state == IsOpen && s.a.channels[cfg.channel].qos.Reliable? && s.a.channels[cfg.channel].limits.maxMessage >= 100
    requires s.a.queue.queues == map[] && s.a.queue.order == [] && s.a.queue.queuedBytes == 0
    ensures OneMoreCut(s, Cut(s, cfg), cfg)
  {
    var c := cfg.channel;
    var a1 := s.a.(queue := s.a.queue.(credits := Slots(1)));
    var w0, w1 := CutSendData(a1, cfg);
    CutCall(a1, cfg);
    FlushOne(c, w1, a1.queue.handed + [Handed(c, Reliable, w0)]);
    hide AfterSendData, CallOf, Flushed, Add32;
  }

  /** These are steps of a fair run. */
  lemma CutRuns(s0: System, acts: seq<Act>, cfg: Config) returns (more: seq<Act>)
    requires Start(s0, cfg) && Fair(s0, acts, cfg) && cfg.maxFrame == 64 && cfg.capA == 100
    requires var s := RanTo(s0, acts, cfg);
      s.a.nextMsgId + 1 < U64 - 1 && Quiescent(s, cfg) && cfg.channel in s.a.channels && s.a.channels[cfg.channel].limits.maxMessage >= 100
    ensures Fair(s0, more, cfg) && RanTo(s0, more, cfg) == Cut(RanTo(s0, acts, cfg), cfg)
    ensures OneMoreCut(RanTo(s0, acts, cfg), Cut(RanTo(s0, acts, cfg), cfg), cfg)
  {
    hide Start, Fair, RanTo, AfterSendData, CallOf, Flushed, MuxDelivery.Inv, Mux.Valid, OneMoreCut, ReadSoFar, AfterFrame, AfterReset, AfterInbound, AfterSweep, AfterOpenOutbound, AfterClose, Add32;
    var s := RanTo(s0, acts, cfg);
    RanInv(s0, acts, cfg);
    InvIsOpen(s, cfg);
    CutMeans(s, cfg);
    more := FairOn(s0, acts, ACredit(Slots(1)), cfg);
    var w0, w1 := CutSendData(RanTo(s0, more, cfg).a, cfg);
    more := FairOn(s0, more, ASend(cfg.channel, Text(100)), cfg);
    more := FairOn(s0, more, ACredit(Slots(1)), cfg);
    more := FairOn(s0, more, AFlush, cfg);
  }

  lemma InvIsOpen(s: System, cfg: Config)
    requires MuxDelivery.Inv(s, cfg)
    ensures cfg.channel in s.a.channels && s.a.channels[cfg.channel].state == IsOpen && s.a.channels[cfg.channel].qos.Reliable?
  {
  }

  /** A step of end A that cannot hurt the channel goes on from any fair run. */
  lemma FairOn(s0: System, acts: seq<Act>, act: Act, cfg: Config) returns (more: seq<Act>)
    requires Start(s0, cfg) && Fair(s0, acts, cfg) && cfg.maxFrame >= MIN_FRAME_BYTES && (act.ACredit? || act.ASend? || act.AFlush?)
    requires RanTo(s0, acts, cfg).a.nextMsgId + 1 < U64
    ensures Mux.Valid(RanTo(s0, acts, cfg).a) && Mux.Valid(RanTo(s0, acts, cfg).b)
    ensures Fair(s0, more, cfg) && RanTo(s0, more, cfg) == Next(RanTo(s0, acts, cfg), act, cfg)
  {
    hide Fair, RanTo, Start, MuxDelivery.Inv, Next, FairStep, Mux.Valid, LabelsOk, IdsOk, CallsOk;
    RanInv(s0, acts, cfg);
    InvIsValid(RanTo(s0, acts, cfg), cfg);
    CalmIsFair(RanTo(s0, acts, cfg), act, cfg);
    OneFairStepMore(s0, acts, act, cfg);
    more := acts + [act];
  }

  // ------------------------------------------------------------ B's side of it

  /** A fragment taken, its message not whole yet: B holds that message too, and the others as before. */
  lemma FragmentHeld(b: MuxState, capB: nat, heard: seq<Bytes>, calls: seq<Call>, next: uint64, k: nat, j: nat, c: uint32, nowMs: int)
    requires Mux.Valid(b) && ReceiverInv(b, heard, calls, k, j, c) && b.channels[c].state == IsOpen
    requires CallsOk(calls) && IdsOk(calls, next) && k < |calls| && calls[k].Pieces? && j < calls[k].sent
    requires (j == 0 ==> FitsNow(b.channels[c], calls[k])) && CallOk(calls[k]) && j + 1 < Needed(|calls[k].payload|, calls[k].size)
    ensures var t := AfterFrame(b, capB, FrameAt(calls[k], c, Count(calls[..k]) + j, j), nowMs).0;
      && c in t.channels && t.channels[c].limits == b.channels[c].limits
      && t.channels[c].partials.Keys == b.channels[c].partials.Keys + {calls[k].msgId}
  {
    hide Count, Payloads, InFull, Stranded, DeliveredOn, Add32, Needed, CallsOk, IdsOk, R.AfterPush, HasFirst, CallOk, AfterReset, AfterOpen, FrameAt;
    var ch, call, n := b.channels[c], calls[k], Count(calls[..k]) + j;
    PieceHeader(call, c, n, j);
    var f := FrameAt(call, c, n, j);
    var partials := R.AfterPush(ch.partials, f.piece, nowMs, ch.limits).0;
    PieceArrives(ch, calls, k, j, next, n, c, nowMs);
    assert call.msgId in partials by { HeldIsThere(partials, call, j + 1); }
    KeysOf(ch.partials, partials, call.msgId);
    hide PartialsAt;
  }

  lemma HeldIsThere(partials: R.Partials, call: Call, j: nat)
    requires call.Pieces? && CallOk(call) && HasFirst(partials, call, j)
    ensures call.msgId in partials
  {
  }

  lemma KeysOf(a: R.Partials, b: R.Partials, id: uint64)
    requires b - {id} == a - {id} && id in b
    ensures b.Keys == a.Keys + {id}
  {
    forall x
      ensures x in b <==> x in a || x == id
    {
      assert x != id ==> (x in b <==> x in b - {id}) && (x in a <==> x in a - {id});
    }
  }

  /** The next fragment off the transport, of a message of 100 bytes that B goes on waiting for. */
  lemma FragmentArrives(s: System, cfg: Config, nowMs: int)
    requires MuxDelivery.Inv(s, cfg) && Welcome(s, cfg) && cfg.maxFrame >= MIN_FRAME_BYTES
    requires s.got < |s.a.queue.handed| && ReadSoFar(s, cfg.channel) >= |cfg.early|
    requires s.a.queue.handed[s.got].channel == cfg.channel && s.a.queue.handed[s.got].qos.Reliable?
    requires s.at < |s.calls| && s.calls[s.at].Pieces? && s.piece < 2 && Needed(|s.calls[s.at].payload|, s.calls[s.at].size) == 3
    requires s.calls[s.at].size >= 1
    ensures Mux.Valid(s.a) && Mux.Valid(s.b) && cfg.channel in s.b.channels
    ensures var t := Next(s, BArrival(nowMs), cfg);
      && t.a == s.a && t.calls == s.calls && t.got == s.got + 1 && t.accepted == s.accepted
      && (t.at, t.piece) == MuxDelivery.Place(s.calls, s.at, s.piece) && cfg.channel in t.b.channels
      && t.b.channels[cfg.channel].limits == s.b.channels[cfg.channel].limits
      && t.b.channels[cfg.channel].partials.Keys == s.b.channels[cfg.channel].partials.Keys + {s.calls[s.at].msgId}
      && ReadSoFar(t, cfg.channel) == ReadSoFar(s, cfg.channel) + 1
  {
    hide StreamOf, Wires, Payloads, AfterFrame, CallsOk, IdsOk, WithinPolicy, LabelsOk, Labelled, Decoded, Stranded, Count, FrameAt, Add32, At, Ready, HandedOf, FitsNow, Needed;
    CursorInside(s, cfg);
    OneIsOk(s.calls, s.at);
    assert s.piece == 0 ==> FitsNow(s.b.channels[cfg.channel], s.calls[s.at]);
    FragmentHeld(s.b, cfg.capB, cfg.heard, s.calls, s.a.nextMsgId, s.at, s.piece, cfg.channel, nowMs);
    NextOfStream(s.a.queue, s.got, cfg.channel);
  }

  /** Messages cut short had ids that were given out. */
  lemma {:induction false} StrandedGivenOut(calls: seq<Call>, next: uint64)
    requires IdsOk(calls, next) && CallsOk(calls)
    ensures forall id :: id in Stranded(calls) ==> id < next
  {
    if calls != [] {
      var front := calls[..|calls| - 1];
      assert forall k :: 0 <= k < |front| ==> front[k] == calls[k];
      StrandedGivenOut(front, next);
    }
  }

  /** One round: A's four steps and two arrivals leave B with one beginning more. */
  lemma OneMoreBeginning(s0: System, acts: seq<Act>, cfg: Config, n: nat) returns (more: seq<Act>)
    requires Start(s0, cfg) && Fair(s0, acts, cfg) && Loaded(RanTo(s0, acts, cfg), cfg, n)
    requires n < RanTo(s0, acts, cfg).b.channels[cfg.channel].limits.maxPartials
    requires RanTo(s0, acts, cfg).a.nextMsgId + 1 < U64 - 1
    ensures Fair(s0, more, cfg) && Loaded(RanTo(s0, more, cfg), cfg, n + 1)
    ensures RanTo(s0, more, cfg).a.nextMsgId == RanTo(s0, acts, cfg).a.nextMsgId + 1
    ensures RanTo(s0, more, cfg).b.channels[cfg.channel].limits == RanTo(s0, acts, cfg).b.channels[cfg.channel].limits
  {
    hide Start, Fair, RanTo, MuxDelivery.Inv, Cut, Next, Loaded, Mux.Valid, Welcome, OneMoreCut, Quiescent;
    var s := RanTo(s0, acts, cfg);
    LoadedMeans(s, cfg, n);
    more := CutRuns(s0, acts, cfg);
    var t := RanTo(s0, more, cfg);
    RanInv(s0, more, cfg);
    FirstIsWelcome(s, t, cfg, n);
    more := ArrivesFairly(s0, more, cfg);
    var u := RanTo(s0, more, cfg);
    RanInv(s0, more, cfg);
    SecondIsWelcome(s, t, cfg, n);
    SecondTakenHere(s, t, u, cfg, n);
    more := ArrivesFairly(s0, more, cfg);
    RanInv(s0, more, cfg);
    LoadedOnceMore(s, t, u, RanTo(s0, more, cfg), cfg, n);
  }

  lemma LoadedMeans(s: System, cfg: Config, n: nat)
    requires Loaded(s, cfg, n)
    ensures Quiescent(s, cfg) && cfg.capA == 100 && cfg.maxFrame == 64
    ensures cfg.channel in s.a.channels && s.a.channels[cfg.channel].limits.maxMessage >= 100 && cfg.channel in s.b.channels
  {
  }

  lemma CallIs(s: System, t: System, cfg: Config, n: nat)
    requires Loaded(s, cfg, n) && OneMoreCut(s, t, cfg)
    ensures t.at == |s.calls| < |t.calls| && t.calls[t.at] == Pieces(Text(100), s.a.nextMsgId, 39, 2) && Needed(100, 39) == 3
    ensures ReadSoFar(s, cfg.channel) >= |cfg.early| && ReadSoFar(t, cfg.channel) == ReadSoFar(s, cfg.channel)
    ensures t.got + 2 == |t.a.queue.handed|
    ensures forall i :: t.got <= i < |t.a.queue.handed| ==> t.a.queue.handed[i].channel == cfg.channel && t.a.queue.handed[i].qos.Reliable?
  {
    hide MuxDelivery.Inv, Stranded, HandedOf;
    ReadStays(s, t, cfg);
    NextFragment(s.a.queue, cfg.channel, 0, 0, 3);
  }

  lemma FirstIsWelcome(s: System, t: System, cfg: Config, n: nat)
    requires Loaded(s, cfg, n) && n < s.b.channels[cfg.channel].limits.maxPartials && OneMoreCut(s, t, cfg) && MuxDelivery.Inv(t, cfg)
    ensures Welcome(t, cfg) && t.a.nextMsgId == s.a.nextMsgId + 1
  {
    CallIs(s, t, cfg, n);
    hide MuxDelivery.Inv, Stranded, ReadSoFar;
    assert |s.b.channels[cfg.channel].partials| == |s.b.channels[cfg.channel].partials.Keys|;
  }

  /** One fragment of the call B stands at was taken; the message is not whole yet. */
  ghost predicate Took(t: System, u: System, cfg: Config) {
    && u.a == t.a && u.calls == t.calls && u.got == t.got + 1
    && cfg.channel in t.b.channels && cfg.channel in u.b.channels
    && u.b.channels[cfg.channel].limits == t.b.channels[cfg.channel].limits
    && t.at < |t.calls| && t.calls[t.at].Pieces?
    && u.b.channels[cfg.channel].partials.Keys == t.b.channels[cfg.channel].partials.Keys + {t.calls[t.at].msgId}
    && t.got <= |t.a.queue.handed| && u.got <= |u.a.queue.handed| && ReadSoFar(u, cfg.channel) == ReadSoFar(t, cfg.channel) + 1
  }

  lemma SecondIsWelcome(s: System, t: System, cfg: Config, n: nat)
    requires Loaded(s, cfg, n) && OneMoreCut(s, t, cfg) && MuxDelivery.Inv(t, cfg) && Welcome(t, cfg)
    ensures Mux.Valid(t.a) && Mux.Valid(t.b)
    ensures var u := Next(t, BArrival(0), cfg);
      Welcome(u, cfg) && Took(t, u, cfg) && u.at == t.at && u.piece == 1
  {
    CallIs(s, t, cfg, n);
    StandsAt(s, t, cfg, n);
    hide OneMoreCut, Loaded, MuxDelivery.Inv, Stranded, ReadSoFar, Next, Needed, Welcome, Mux.Valid, Quiescent;
    FragmentArrives(t, cfg, 0);
    PastFirst(Next(t, BArrival(0), cfg), cfg);
  }

  lemma StandsAt(s: System, t: System, cfg: Config, n: nat)
    requires Loaded(s, cfg, n) && OneMoreCut(s, t, cfg)
    ensures t.piece == 0 && cfg.maxFrame == 64
  {
  }

  lemma PastFirst(u: System, cfg: Config)
    requires u.piece != 0
    ensures Welcome(u, cfg)
  {
  }

  lemma SecondTaken(u: System, cfg: Config, id: uint64)
    requires MuxDelivery.Inv(u, cfg) && Welcome(u, cfg) && cfg.maxFrame == 64 && Needed(100, 39) == 3
    requires u.at < |u.calls| && u.calls[u.at] == Pieces(Text(100), id, 39, 2) && u.piece == 1
    requires u.got < |u.a.queue.handed| && ReadSoFar(u, cfg.channel) >= |cfg.early|
    requires u.a.queue.handed[u.got].channel == cfg.channel && u.a.queue.handed[u.got].qos.Reliable?
    ensures Mux.Valid(u.a) && Mux.Valid(u.b)
    ensures var v := Next(u, BArrival(0), cfg);
      Took(u, v, cfg) && v.at == u.at + 1 && v.piece == 0
  {
    hide MuxDelivery.Inv, Stranded, ReadSoFar, Next, Needed, Welcome, Mux.Valid;
    FragmentArrives(u, cfg, 0);
  }

  lemma SecondTakenHere(s: System, t: System, u: System, cfg: Config, n: nat)
    requires Loaded(s, cfg, n) && OneMoreCut(s, t, cfg) && Took(t, u, cfg) && u.at == t.at && u.piece == 1
    requires MuxDelivery.Inv(u, cfg) && Welcome(u, cfg)
    ensures Mux.Valid(u.a) && Mux.Valid(u.b)
    ensures var v := Next(u, BArrival(0), cfg);
      Took(u, v, cfg) && v.at == |s.calls| + 1 && v.piece == 0
  {
    hide MuxDelivery.Inv, Stranded, ReadSoFar, Next, Needed, Welcome, Mux.Valid, Loaded, OneMoreCut;
    CallIs(s, t, cfg, n);
    StandsAt(s, t, cfg, n);
    SecondTaken(u, cfg, s.a.nextMsgId);
  }

  lemma LoadedOnceMore(s: System, t: System, u: System, v: System, cfg: Config, n: nat)
    requires Loaded(s, cfg, n) && OneMoreCut(s, t, cfg) && Took(t, u, cfg) && Took(u, v, cfg) && u.at == t.at
    requires MuxDelivery.Inv(v, cfg) && v.at == |s.calls| + 1 && v.piece == 0
    ensures Loaded(v, cfg, n + 1) && v.a == t.a && cfg.channel in s.b.channels && v.b.channels[cfg.channel].limits == s.b.channels[cfg.channel].limits
  {
    CallIs(s, t, cfg, n);
    IdsGivenOut(s, cfg);
    StrandedMore(s.calls, s.a.nextMsgId);
    hide MuxDelivery.Inv, Stranded, ReadSoFar, Needed;
  }

  lemma IdsGivenOut(s: System, cfg: Config)
    requires MuxDelivery.Inv(s, cfg)
    ensures s.a.nextMsgId !in Stranded(s.calls)
  {
    InvIsValid(s, cfg);
    StrandedGivenOut(s.calls, s.a.nextMsgId);
  }

  lemma StrandedMore(calls: seq<Call>, id: uint64)
    requires id !in Stranded(calls)
    ensures var more := calls + [Pieces(Text(100), id, 39, 2)];
      Stranded(more) == Stranded(calls) + {id} && |Stranded(more)| == |Stranded(calls)| + 1
  {
    assert (calls + [Pieces(Text(100), id, 39, 2)])[..|calls|] == calls;
  }

  lemma ReadStays(s: System, t: System, cfg: Config)
    requires t.got == s.got <= |s.a.queue.handed| && s.a.queue.handed <= t.a.queue.handed
    ensures ReadSoFar(t, cfg.channel) == ReadSoFar(s, cfg.channel)
  {
    assert t.a.queue.handed[..t.got] == s.a.queue.handed[..s.got];
  }

  lemma ArrivesFairly(s0: System, acts: seq<Act>, cfg: Config) returns (more: seq<Act>)
    requires Start(s0, cfg) && Fair(s0, acts, cfg) && cfg.maxFrame >= MIN_FRAME_BYTES
    requires Welcome(RanTo(s0, acts, cfg), cfg) && RanTo(s0, acts, cfg).a.nextMsgId + 1 < U64
    ensures Mux.Valid(RanTo(s0, acts, cfg).a) && Mux.Valid(RanTo(s0, acts, cfg).b)
    ensures Fair(s0, more, cfg) && RanTo(s0, more, cfg) == Next(RanTo(s0, acts, cfg), BArrival(0), cfg)
  {
    hide Fair, RanTo, Start, MuxDelivery.Inv, Next, Mux.Valid, LabelsOk, IdsOk, CallsOk, Welcome;
    RanInv(s0, acts, cfg);
    InvIsValid(RanTo(s0, acts, cfg), cfg);
    OneFairStepMore(s0, acts, BArrival(0), cfg);
    more := acts + [BArrival(0)];
  }

  /** Any number of beginnings up to B's cap can pile up, by messages that SendData itself cut short. */
  lemma {:induction false} BeginningsPileUp(s0: System, cfg: Config, n: nat) returns (acts: seq<Act>)
    requires Start(s0, cfg) && Loaded(s0, cfg, 0) && n <= s0.b.channels[cfg.channel].limits.maxPartials && s0.a.nextMsgId + n < U64 - 2
    ensures Fair(s0, acts, cfg) && Loaded(RanTo(s0, acts, cfg), cfg, n)
    ensures RanTo(s0, acts, cfg).a.nextMsgId == s0.a.nextMsgId + n
    ensures RanTo(s0, acts, cfg).b.channels[cfg.channel].limits == s0.b.channels[cfg.channel].limits
  {
    hide Start, Loaded;
    if n == 0 {
      acts := [];
    } else {
      acts := BeginningsPileUp(s0, cfg, n - 1);
      acts := OneMoreBeginning(s0, acts, cfg, n - 1);
    }
  }

  /** And then the next message, sent whole with all the credit there is and accepted by SendData, ends the channel. */
  lemma OnePartialTooMany(s0: System, cfg: Config, nowMs: int) returns (acts: seq<Act>)
    requires Start(s0, cfg) && Loaded(s0, cfg, 0) && s0.a.nextMsgId + s0.b.channels[cfg.channel].limits.maxPartials < U64 - 2
    ensures Fair(s0, acts, cfg) && cfg.channel in RanTo(s0, acts, cfg).b.channels
    ensures var t := RanTo(s0, acts, cfg);
      var u := RanTo(s0, acts + [ASend(cfg.channel, Text(100))] + [BArrival(nowMs)], cfg);
      && 100 <= t.b.channels[cfg.channel].limits.maxMessage
      && u.accepted == t.accepted + [Text(100)] && cfg.channel !in u.b.channels && u.b.delivered == t.b.delivered
  {
    hide Start, RanTo, Fair, MuxDelivery.Inv, Next, Needed, Loaded, LongSend, Quiescent;
    LoadedMeans(s0, cfg, 0);
    acts := BeginningsPileUp(s0, cfg, s0.b.channels[cfg.channel].limits.maxPartials);
    var s := RanTo(s0, acts, cfg);
    LoadedIsFull(s, cfg, s0.b.channels[cfg.channel].limits.maxPartials);
    acts := FreeCredit(s0, acts, cfg);
    AcceptedThenReset(s0, acts, cfg, Text(100), nowMs);
  }

  lemma LoadedIsFull(s: System, cfg: Config, n: nat)
    requires Loaded(s, cfg, n)
    ensures Quiescent(s, cfg) && s.at == |s.calls| && s.piece == 0 && cfg.capA == 100 && cfg.maxFrame == 64
    ensures cfg.channel in s.b.channels && |s.b.channels[cfg.channel].partials| == n && s.b.channels[cfg.channel].limits.maxMessage >= 100
    ensures LongSend(s.a, cfg, Text(100)) && LongSend(s.a.(queue := s.a.queue.(credits := Unlimited)), cfg, Text(100))
  {
    InvIsOpen(s, cfg);
    NextFragment(s.a.queue, cfg.channel, 0, 0, 3);
    hide Needed;
    assert |s.b.channels[cfg.channel].partials| == |s.b.channels[cfg.channel].partials.Keys|;
  }

  lemma FreeCredit(s0: System, acts: seq<Act>, cfg: Config) returns (more: seq<Act>)
    requires Start(s0, cfg) && Fair(s0, acts, cfg) && cfg.maxFrame >= MIN_FRAME_BYTES && RanTo(s0, acts, cfg).a.nextMsgId + 1 < U64
    requires Quiescent(RanTo(s0, acts, cfg), cfg)
    ensures Fair(s0, more, cfg) && Quiescent(RanTo(s0, more, cfg), cfg)
    ensures var s := RanTo(s0, acts, cfg);
      RanTo(s0, more, cfg) == s.(a := s.a.(queue := s.a.queue.(credits := Unlimited)))
  {
    more := FairOn(s0, acts, ACredit(Unlimited), cfg);
    hide Start, RanTo, Fair;
  }

  lemma OpenedIsLoaded(s: System, h: Handed)
    requires IsOpened(s, h)
    ensures var cfg := ConfigOpened(s, h, 100, 64);
      Start(s, cfg) && Loaded(s, cfg, 0) && s.b.channels[1].limits.maxPartials == MAX_PARTIALS && s.a.nextMsgId == 1
  {
    OpenedStarts(s, h, 100, 64);
    StartInv(s, ConfigOpened(s, h, 100, 64));
    hide Start, MuxDelivery.Inv, Quiescent, Labelled;
  }

  /** Two new ends with a queue of 100 bytes and a budget of 64: 64 messages cut short, and the 65th, sent whole, ends the channel. */
  lemma SixtyFifthMessage(protocol: Bytes, nowMs: int) returns (cfg: Config, acts: seq<Act>)
    requires |protocol| < U32
    ensures 1 in Opener(protocol, 100).channels
    ensures var s := JustOpened(protocol, 100);
      && Start(s, cfg) && Fair(s, acts, cfg) && cfg.channel == 1
      && var t := RanTo(s, acts, cfg);
      var u := RanTo(s, acts + [ASend(1, Text(100))] + [BArrival(nowMs)], cfg);
      u.accepted == t.accepted + [Text(100)] && 1 !in u.b.channels && u.b.delivered == t.b.delivered
  {
    hide Opener, Accepter, Start, RanTo, Fair, IsOpened, Loaded;
    var h := JustOpenedIs(protocol, 100);
    var s := JustOpened(protocol, 100);
    cfg := ConfigOpened(s, h, 100, 64);
    OpenedIsLoaded(s, h);
    LoadedMeans(s, cfg, 0);
    acts := OnePartialTooMany(s, cfg, nowMs);
  }
}
