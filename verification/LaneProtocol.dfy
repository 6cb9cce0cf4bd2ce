/**
 Two CarrierLanes over a network that drops, duplicates and reorders.

 The network towards a lane is everything its peer ever sent: a step may hand it
 any element, any number of times, or never. Each side also remembers, as ghost
 history, the inner wires `Wrap` accepted and the ones `OnData` released.
 */
module LaneProtocol {
  import opened Words
  import opened LaneCodec
  import opened Lane

  /** `out` counts every transmission of every wire. */
  datatype Side = Side(lane: LaneState, sent: seq<Bytes>, delivered: seq<Bytes>, out: multiset<Bytes>)
  datatype System = System(x: Side, y: Side)
  datatype Configs = Configs(x: LaneConfig, y: LaneConfig)
  {
    predicate Valid() {
      x.Valid() && y.Valid()
    }
  }

  datatype Action =
    | Wrap(inner: Bytes, nowMs: int)
    | Resend(nowMs: int)
    | Probe
    | Receive(wire: Bytes, nowMs: int)

  function FreshSide(cfg: LaneConfig): Side {
    Side(Fresh(cfg), [], [], multiset{})
  }

  /** One operation at one end, as PeerLink drives its lane. */
  function Act(me: Side, act: Action, cfg: LaneConfig): Side
    requires cfg.Valid()
  {
    match act
    case Wrap(inner, nowMs) =>
      var (lane, wire) := AfterWrap(me.lane, inner, nowMs, cfg);
      if wire.None? then me
      else me.(lane := lane, sent := me.sent + [inner], out := me.out + multiset{wire.value})
    case Resend(nowMs) =>
      me.(lane := AfterResends(me.lane, nowMs, cfg),
          out := me.out + multiset(DueWires(me.lane.outstanding, nowMs, cfg)))
    case Probe =>
      me.(out := me.out + multiset{EncodeLaneAck(LaneAck(0, 0))})
    case Receive(wire, nowMs) =>
      var ack := DecodeLaneAck(wire);
      var data := DecodeLaneData(wire);
      if ack.Some? then me.(lane := AfterAck(me.lane, ack.value, nowMs, cfg))
      else if data.Some? then
        var (lane, deliver) := AfterData(me.lane, data.value.seqNo, data.value.inner, cfg);
        me.(lane := lane, delivered := me.delivered + deliver,
            out := me.out + multiset{EncodeLaneAck(AckFor(lane.rxCumulative, lane.rxHold))})
      else me
  }

  predicate Possible(peer: Side, act: Action) {
    act.Receive? ==> act.wire in peer.out
  }

  ghost predicate Next(s: System, t: System, cfg: Configs)
    requires cfg.Valid()
  {
    exists act: Action ::
      || (Possible(s.y, act) && t == System(Act(s.x, act, cfg.x), s.y))
      || (Possible(s.x, act) && t == System(s.x, Act(s.y, act, cfg.y)))
  }

  ghost predicate Run(run: seq<System>, cfg: Configs)
    requires cfg.Valid()
  {
    && |run| > 0
    && run[0] == System(FreshSide(cfg.x), FreshSide(cfg.y))
    && forall i :: 0 <= i < |run| - 1 ==> Next(run[i], run[i + 1], cfg)
  }

  // ------------------------------------------------------------ what one direction keeps

  /** The receiver has taken frame `q`: delivered it, or holds it. */
  ghost predicate Has(lane: LaneState, q: int) {
    q <= lane.rxCumulative || q in lane.rxHold
  }

  ghost predicate AckSound(ack: LaneAck, lane: LaneState) {
    forall q: uint32 :: Acked(ack, q) ==> Has(lane, q)
  }

  function Cap(cfg: LaneConfig): int {
    Max(1, cfg.maxAttempts)
  }

  /** Frame `q` as it goes on the wire. */
  function Frame(sent: seq<Bytes>, q: int): Bytes
    requires 1 <= q <= |sent| < U32
  {
    EncodeLaneData(q, sent[q - 1])
  }

  ghost predicate FrameOk(o: Outstanding, sent: seq<Bytes>, out: multiset<Bytes>, cfg: LaneConfig)
    requires |sent| < U32
  {
    && 1 <= o.seqNo <= |sent|
    && o.wire == Frame(sent, o.seqNo)
    && out[o.wire] == o.attempts <= Cap(cfg)
  }

  ghost predicate FramesOk(frames: seq<Outstanding>, sent: seq<Bytes>, out: multiset<Bytes>, cfg: LaneConfig)
    requires |sent| < U32
  {
    && (forall i :: 0 <= i < |frames| ==> FrameOk(frames[i], sent, out, cfg))
    && Ascending(frames)
  }

  ghost predicate Ascending(frames: seq<Outstanding>) {
    forall i, j :: 0 <= i < j < |frames| ==> frames[i].seqNo < frames[j].seqNo
  }

  function Seqs(frames: seq<Outstanding>): set<uint32> {
    set o | o in frames :: o.seqNo
  }

  ghost predicate IsFrame(w: Bytes, sent: seq<Bytes>)
    requires |sent| < U32
  {
    exists q :: 1 <= q <= |sent| && w == Frame(sent, q)
  }

  /** Every lane data wire on the network is a frame of `sent`. */
  ghost predicate DataOk(out: multiset<Bytes>, sent: seq<Bytes>)
    requires |sent| < U32
  {
    forall w :: w in out && w != [] && w[0] == LANE_DATA ==> IsFrame(w, sent)
  }

  /** Transmissions of frame `q` so far. */
  function TimesSent(out: multiset<Bytes>, sent: seq<Bytes>, q: int): nat
    requires 1 <= q <= |sent| < U32
  {
    out[Frame(sent, q)]
  }

  ghost predicate AttemptsBounded(out: multiset<Bytes>, sent: seq<Bytes>, cfg: LaneConfig)
    requires |sent| < U32
  {
    forall q :: 1 <= q <= |sent| ==> 1 <= TimesSent(out, sent, q) <= Cap(cfg)
  }

  ghost predicate AcksOk(out: multiset<Bytes>, lane: LaneState) {
    forall w :: w in out && DecodeLaneAck(w).Some? ==> AckSound(DecodeLaneAck(w).value, lane)
  }

  /** Held frames are the sender's own, each at its number, none past the window. */
  ghost predicate HoldOk(cumulative: nat, hold: map<uint32, Bytes>, sent: seq<Bytes>, window: nat) {
    forall k :: k in hold ==> cumulative < k <= cumulative + window && k <= |sent| && hold[k] == sent[k - 1]
  }

  ghost predicate Delivered(rcv: Side, sent: seq<Bytes>) {
    && rcv.lane.rxCumulative == |rcv.delivered| <= |sent|
    && rcv.delivered == sent[..|rcv.delivered|]
  }

  /** Every frame wrapped is still in flight, or its receiver has it. */
  ghost predicate Accounted(frames: seq<Outstanding>, count: nat, rcv: LaneState) {
    forall q :: 1 <= q <= count ==> q in Seqs(frames) || Has(rcv, q)
  }

  ghost predicate SenderOk(snd: Side, cfg: LaneConfig)
    requires |snd.sent| < U32
  {
    && snd.lane.nextTx == Add32(|snd.sent|, 1)
    && FramesOk(snd.lane.outstanding, snd.sent, snd.out, cfg)
    && DataOk(snd.out, snd.sent)
    && AttemptsBounded(snd.out, snd.sent, cfg)
  }

  ghost predicate ReceiverOk(rcv: Side, sent: seq<Bytes>, cfg: LaneConfig) {
    && Delivered(rcv, sent)
    && HoldOk(rcv.lane.rxCumulative, rcv.lane.rxHold, sent, cfg.window)
    && rcv.lane.rxCumulative + 1 !in rcv.lane.rxHold
    && AcksOk(rcv.out, rcv.lane)
  }

  /** What the direction from `snd` to `rcv` keeps while its numbers last. */
  ghost predicate Flow(snd: Side, rcv: Side, cfgSnd: LaneConfig, cfgRcv: LaneConfig)
    requires |snd.sent| < U32
  {
    && SenderOk(snd, cfgSnd)
    && ReceiverOk(rcv, snd.sent, cfgRcv)
    && Accounted(snd.lane.outstanding, |snd.sent|, rcv.lane)
  }

  /** Frames in flight never look like acks. */
  ghost predicate DataWires(frames: seq<Outstanding>) {
    forall i :: 0 <= i < |frames| ==> frames[i].wire != [] && frames[i].wire[0] == LANE_DATA
  }

  ghost predicate Inv(s: System, cfg: Configs) {
    && DataWires(s.x.lane.outstanding) && DataWires(s.y.lane.outstanding)
    && (|s.x.sent| < U32 ==> Flow(s.x, s.y, cfg.x, cfg.y))
    && (|s.y.sent| < U32 ==> Flow(s.y, s.x, cfg.y, cfg.x))
  }

  // ------------------------------------------------------------ sender lemmas

  /** Where each frame an ack leaves behind came from; the ack touches only its skips and its timer. */
  lemma {:induction false} UnackedFrom(
    frames: seq<Outstanding>, ack: LaneAck, hi: uint32, nowMs: int, skips: int) returns (from: seq<nat>)
    ensures var kept := Unacked(frames, ack, hi, nowMs, skips);
      && |from| == |kept|
      && (forall j :: 0 <= j < |kept| ==>
            && from[j] < |frames| && !Acked(ack, frames[from[j]].seqNo)
            && kept[j] == PassedBy(frames[from[j]], hi, nowMs, skips))
      && (forall i, j :: 0 <= i < j < |kept| ==> from[i] < from[j])
      && (forall i :: 0 <= i < |frames| && !Acked(ack, frames[i].seqNo) ==> i in from)
  {
    from := [];
    if frames != [] {
      var n := |frames| - 1;
      from := UnackedFrom(frames[..n], ack, hi, nowMs, skips);
      if !Acked(ack, frames[n].seqNo) {
        from := from + [n];
      }
    }
  }

  lemma UnackedFrames(
    frames: seq<Outstanding>, ack: LaneAck, hi: uint32, nowMs: int, skips: int,
    sent: seq<Bytes>, out: multiset<Bytes>, cfg: LaneConfig)
    requires |sent| < U32 && FramesOk(frames, sent, out, cfg)
    ensures FramesOk(Unacked(frames, ack, hi, nowMs, skips), sent, out, cfg)
    ensures forall q :: q in Seqs(frames) && !Acked(ack, q) ==> q in Seqs(Unacked(frames, ack, hi, nowMs, skips))
  {
    hide EncodeLaneData, Acked;
    var from := UnackedFrom(frames, ack, hi, nowMs, skips);
    var kept := Unacked(frames, ack, hi, nowMs, skips);
    forall j | 0 <= j < |kept|
      ensures FrameOk(kept[j], sent, out, cfg)
    {
      assert FrameOk(frames[from[j]], sent, out, cfg);
    }
    forall q | q in Seqs(frames) && !Acked(ack, q)
      ensures q in Seqs(kept)
    {
      var i :| 0 <= i < |frames| && frames[i].seqNo == q;
      var j :| 0 <= j < |from| && from[j] == i;
      assert kept[j] in kept;
    }
  }

  /** A resend transmits each due frame exactly once, and nothing else. */
  lemma {:induction false} DueCounts(frames: seq<Outstanding>, nowMs: int, cfg: LaneConfig, at: nat)
    requires at < |frames|
    requires forall i, j :: 0 <= i < j < |frames| ==> frames[i].wire != frames[j].wire
    ensures multiset(DueWires(frames, nowMs, cfg))[frames[at].wire] ==
            if Due(frames[at], nowMs) && frames[at].attempts < cfg.maxAttempts then 1 else 0
  {
    var n := |frames| - 1;
    var wire := frames[at].wire;
    if at == n {
      if wire in DueWires(frames[..n], nowMs, cfg) {
        DueWiresFromFrames(frames[..n], nowMs, cfg, wire);
        assert false;
      }
    } else {
      DueCounts(frames[..n], nowMs, cfg, at);
    }
  }

  lemma {:induction false} RetriedAt(frames: seq<Outstanding>, nowMs: int, rtoMs: int, cfg: LaneConfig)
    ensures |RetriedAll(frames, nowMs, rtoMs, cfg)| == |frames|
    ensures forall i :: 0 <= i < |frames| ==>
      RetriedAll(frames, nowMs, rtoMs, cfg)[i] == Retried(frames[i], nowMs, rtoMs, cfg)
  {
    if frames != [] {
      RetriedAt(frames[..|frames| - 1], nowMs, rtoMs, cfg);
    }
  }

  lemma {:induction false} DueWiresFromFrames(frames: seq<Outstanding>, nowMs: int, cfg: LaneConfig, w: Bytes)
    requires w in DueWires(frames, nowMs, cfg)
    ensures exists i :: 0 <= i < |frames| && frames[i].wire == w
  {
    var n := |frames| - 1;
    if w in DueWires(frames[..n], nowMs, cfg) {
      DueWiresFromFrames(frames[..n], nowMs, cfg, w);
      var i :| 0 <= i < n && frames[..n][i].wire == w;
      assert frames[i].wire == w;
    } else {
      assert frames[n].wire == w;
    }
  }

  // ------------------------------------------------------------ receiver lemmas

  /** Released `d` from `hold`: the frames that follow on from `cumulative`, in order; `h` is what stays. */
  ghost predicate Releases(
    cumulative: uint32, hold: map<uint32, Bytes>, d: seq<Bytes>, c: uint32, h: map<uint32, Bytes>)
  {
    && c == cumulative + |d|
    && (forall k :: cumulative < k <= c ==> k in hold && d[k - cumulative - 1] == hold[k])
    && (forall k :: k in h <==> k in hold && k > c)
    && (forall k :: k in h ==> h[k] == hold[k])
    && c + 1 !in h
  }

  lemma {:induction false} DrainedReleases(cumulative: uint32, hold: map<uint32, Bytes>)
    requires forall k :: k in hold ==> k > cumulative
    ensures var (d, c, h) := Drained(cumulative, hold); Releases(cumulative, hold, d, c, h)
    decreases hold.Keys
  {
    var next := Add32(cumulative, 1);
    if next in hold {
      assert next == cumulative + 1;
      var (rest, c, h) := Drained(next, hold - {next});
      DrainedReleases(next, hold - {next});
      assert Drained(cumulative, hold) == ([hold[next]] + rest, c, h);
      hide Drained;
      forall k | cumulative < k <= c
        ensures k in hold && ([hold[next]] + rest)[k - cumulative - 1] == hold[k]
      {
        if k > next { assert k in hold - {next} && rest[k - next - 1] == hold[k]; }
      }
    }
  }

  // ------------------------------------------------------------ steps of the sending end

  lemma SeqsAppend(frames: seq<Outstanding>, o: Outstanding)
    ensures Seqs(frames + [o]) == Seqs(frames) + {o.seqNo}
  {
    var longer := frames + [o];
    assert forall p :: p in longer <==> p in frames || p == o;
    assert o in longer;
  }

  lemma FrameHead(sent: seq<Bytes>, q: int)
    requires 1 <= q <= |sent| < U32
    ensures Frame(sent, q) != [] && Frame(sent, q)[0] == LANE_DATA
  {
  }

  lemma FramesDiffer(sent: seq<Bytes>, p: int, q: int)
    requires 1 <= p <= |sent| < U32 && 1 <= q <= |sent| && Frame(sent, p) == Frame(sent, q)
    ensures p == q
  {
    LaneDataInjective(p, sent[p - 1], q, sent[q - 1]);
  }

  /** The wire of a frame just numbered was never sent before. */
  lemma NewFrameUnsent(out: multiset<Bytes>, sent: seq<Bytes>, inner: Bytes)
    requires |sent| + 1 < U32 && DataOk(out, sent)
    ensures var longer := sent + [inner];
      && out[Frame(longer, |longer|)] == 0
      && DataOk(out, longer)
      && (forall q :: 1 <= q <= |sent| ==> Frame(longer, q) == Frame(sent, q) != Frame(longer, |longer|))
  {
    hide EncodeLaneData;
    var longer := sent + [inner];
    FrameHead(longer, |longer|);
    forall q | 1 <= q <= |sent|
      ensures Frame(longer, q) == Frame(sent, q) != Frame(longer, |longer|)
    {
      if Frame(longer, q) == Frame(longer, |longer|) { FramesDiffer(longer, q, |longer|); }
    }
    forall w | w in out && w != [] && w[0] == LANE_DATA
      ensures IsFrame(w, longer)
    {
      var q :| 1 <= q <= |sent| && w == Frame(sent, q);
      assert w == Frame(longer, q);
    }
  }

  lemma WrapKeepsSender(snd: Side, inner: Bytes, nowMs: int, cfg: LaneConfig)
    requires cfg.Valid() && |snd.sent| + 1 < U32 && SenderOk(snd, cfg)
    ensures var t := Act(snd, Wrap(inner, nowMs), cfg);
      && SenderOk(t, cfg)
      && (t.sent == snd.sent || t.sent == snd.sent + [inner])
      && (forall q :: q in Seqs(snd.lane.outstanding) ==> q in Seqs(t.lane.outstanding))
      && (|t.sent| > |snd.sent| ==> |t.sent| in Seqs(t.lane.outstanding))
  {
    hide EncodeLaneData, FramesOk, DataOk, AttemptsBounded, Seqs;
    var t := Act(snd, Wrap(inner, nowMs), cfg);
    if |snd.lane.outstanding| < cfg.window {
      var o := t.lane.outstanding[|t.lane.outstanding| - 1];
      assert o.wire == Frame(t.sent, |t.sent|);
      NewFrameKept(snd.lane.outstanding, o, snd.sent, inner, snd.out, cfg);
      NewFrameCounted(snd.out, snd.sent, inner, cfg);
    }
  }

  lemma NewFrameCounted(out: multiset<Bytes>, sent: seq<Bytes>, inner: Bytes, cfg: LaneConfig)
    requires |sent| + 1 < U32 && DataOk(out, sent) && AttemptsBounded(out, sent, cfg)
    ensures var longer := sent + [inner];
      var after := out + multiset{Frame(longer, |longer|)};
      DataOk(after, longer) && AttemptsBounded(after, longer, cfg)
  {
    hide EncodeLaneData;
    var longer := sent + [inner];
    var after := out + multiset{Frame(longer, |longer|)};
    NewFrameUnsent(out, sent, inner);
    forall q | 1 <= q <= |longer|
      ensures 1 <= TimesSent(after, longer, q) <= Cap(cfg)
    {
      if q <= |sent| { assert 1 <= TimesSent(out, sent, q) <= Cap(cfg); }
    }
    assert IsFrame(Frame(longer, |longer|), longer);
  }

  lemma NewFrameKept(
    frames: seq<Outstanding>, o: Outstanding, sent: seq<Bytes>, inner: Bytes, out: multiset<Bytes>, cfg: LaneConfig)
    requires |sent| + 1 < U32 && FramesOk(frames, sent, out, cfg) && DataOk(out, sent)
    requires o.seqNo == |sent| + 1 && o.wire == Frame(sent + [inner], |sent| + 1) && o.attempts == 1
    ensures FramesOk(frames + [o], sent + [inner], out + multiset{o.wire}, cfg)
    ensures Seqs(frames + [o]) == Seqs(frames) + {o.seqNo}
  {
    hide EncodeLaneData;
    NewFrameUnsent(out, sent, inner);
    SeqsAppend(frames, o);
    forall i | 0 <= i < |frames|
      ensures FrameOk((frames + [o])[i], sent + [inner], out + multiset{o.wire}, cfg) && frames[i].seqNo < o.seqNo
    {
      assert FrameOk(frames[i], sent, out, cfg);
    }
  }

  lemma ResendKeepsSender(snd: Side, nowMs: int, cfg: LaneConfig)
    requires cfg.Valid() && |snd.sent| < U32 && SenderOk(snd, cfg)
    ensures var t := Act(snd, Resend(nowMs), cfg);
      SenderOk(t, cfg) && forall q :: q in Seqs(snd.lane.outstanding) ==> q in Seqs(t.lane.outstanding)
  {
    var frames, rtoMs := snd.lane.outstanding, snd.lane.rtt.rtoMs;
    ResendKeepsFrames(frames, nowMs, rtoMs, snd.sent, snd.out, cfg);
    ResendKeepsSeqs(frames, nowMs, rtoMs, cfg);
    ResendKeepsBound(frames, nowMs, rtoMs, snd.sent, snd.out, cfg);
    ResendKeepsData(frames, nowMs, snd.sent, snd.out, cfg);
    hide FramesOk, DataOk, AttemptsBounded, Seqs, RetriedAll, DueWires;
  }

  lemma ResendKeepsBound(
    frames: seq<Outstanding>, nowMs: int, rtoMs: int, sent: seq<Bytes>, out: multiset<Bytes>, cfg: LaneConfig)
    requires |sent| < U32 && FramesOk(frames, sent, out, cfg) && AttemptsBounded(out, sent, cfg)
    ensures AttemptsBounded(out + multiset(DueWires(frames, nowMs, cfg)), sent, cfg)
  {
    hide EncodeLaneData;
    ResendKeepsFrames(frames, nowMs, rtoMs, sent, out, cfg);
    RetriedAt(frames, nowMs, rtoMs, cfg);
    var wires := DueWires(frames, nowMs, cfg);
    forall q | 1 <= q <= |sent|
      ensures 1 <= TimesSent(out + multiset(wires), sent, q) <= Cap(cfg)
    {
      assert 1 <= TimesSent(out, sent, q) <= Cap(cfg);
      if Frame(sent, q) in wires {
        DueWiresFromFrames(frames, nowMs, cfg, Frame(sent, q));
        var i :| 0 <= i < |frames| && frames[i].wire == Frame(sent, q);
        assert FrameOk(RetriedAll(frames, nowMs, rtoMs, cfg)[i], sent, out + multiset(wires), cfg);
      }
    }
  }

  lemma ResendKeepsData(
    frames: seq<Outstanding>, nowMs: int, sent: seq<Bytes>, out: multiset<Bytes>, cfg: LaneConfig)
    requires |sent| < U32 && FramesOk(frames, sent, out, cfg) && DataOk(out, sent)
    ensures DataOk(out + multiset(DueWires(frames, nowMs, cfg)), sent)
  {
    hide EncodeLaneData;
    forall w | w in DueWires(frames, nowMs, cfg)
      ensures IsFrame(w, sent)
    {
      DueWiresFromFrames(frames, nowMs, cfg, w);
      var i :| 0 <= i < |frames| && frames[i].wire == w;
      assert FrameOk(frames[i], sent, out, cfg);
    }
  }

  lemma ResendKeepsFrames(
    frames: seq<Outstanding>, nowMs: int, rtoMs: int, sent: seq<Bytes>, out: multiset<Bytes>, cfg: LaneConfig)
    requires |sent| < U32 && FramesOk(frames, sent, out, cfg)
    ensures FramesOk(RetriedAll(frames, nowMs, rtoMs, cfg), sent, out + multiset(DueWires(frames, nowMs, cfg)), cfg)
  {
    hide EncodeLaneData;
    var after := RetriedAll(frames, nowMs, rtoMs, cfg);
    RetriedAt(frames, nowMs, rtoMs, cfg);
    DistinctWires(frames, sent, out, cfg);
    forall i | 0 <= i < |after|
      ensures FrameOk(after[i], sent, out + multiset(DueWires(frames, nowMs, cfg)), cfg)
    {
      assert FrameOk(frames[i], sent, out, cfg);
      DueCounts(frames, nowMs, cfg, i);
    }
  }

  lemma ResendKeepsSeqs(frames: seq<Outstanding>, nowMs: int, rtoMs: int, cfg: LaneConfig)
    ensures forall q :: q in Seqs(frames) ==> q in Seqs(RetriedAll(frames, nowMs, rtoMs, cfg))
  {
    var after := RetriedAll(frames, nowMs, rtoMs, cfg);
    RetriedAt(frames, nowMs, rtoMs, cfg);
    forall q | q in Seqs(frames)
      ensures q in Seqs(after)
    {
      var i :| 0 <= i < |frames| && frames[i].seqNo == q;
      assert after[i] in after;
    }
  }

  lemma DistinctWires(frames: seq<Outstanding>, sent: seq<Bytes>, out: multiset<Bytes>, cfg: LaneConfig)
    requires |sent| < U32 && FramesOk(frames, sent, out, cfg)
    ensures forall i, j :: 0 <= i < j < |frames| ==> frames[i].wire != frames[j].wire
  {
    forall i, j | 0 <= i < j < |frames|
      ensures frames[i].wire != frames[j].wire
    {
      var a, b := frames[i], frames[j];
      assert FrameOk(a, sent, out, cfg) && FrameOk(b, sent, out, cfg);
      if a.wire == b.wire { LaneDataInjective(a.seqNo, sent[a.seqNo - 1], b.seqNo, sent[b.seqNo - 1]); }
    }
  }

  /** An ack the peer sent settles only frames the peer has. */
  lemma AckKeepsSender(snd: Side, rcv: LaneState, wire: Bytes, nowMs: int, cfg: LaneConfig)
    requires cfg.Valid() && |snd.sent| < U32 && SenderOk(snd, cfg)
    requires DecodeLaneAck(wire).Some? && AckSound(DecodeLaneAck(wire).value, rcv)
    requires Accounted(snd.lane.outstanding, |snd.sent|, rcv)
    ensures var t := Act(snd, Receive(wire, nowMs), cfg);
      SenderOk(t, cfg) && t.out == snd.out && Accounted(t.lane.outstanding, |t.sent|, rcv)
  {
    hide EncodeLaneData, Acked, DecodeLaneData;
    var ack := DecodeLaneAck(wire).value;
    var hi := HighestAcked(ack, SELECTIVE_BITS);
    UnackedFrames(snd.lane.outstanding, ack, hi, nowMs, cfg.fastSkips, snd.sent, snd.out, cfg);
  }

  /** A wire that is no lane data leaves the sending side of a direction as it was. */
  lemma QuietKeepsSender(snd: Side, t: Side, extra: Bytes, cfg: LaneConfig)
    requires |snd.sent| < U32 && SenderOk(snd, cfg)
    requires extra != [] && extra[0] != LANE_DATA
    requires t.sent == snd.sent && t.out == snd.out + multiset{extra}
    requires t.lane.nextTx == snd.lane.nextTx && t.lane.outstanding == snd.lane.outstanding
    ensures SenderOk(t, cfg)
  {
    forall q | 1 <= q <= |t.sent|
      ensures TimesSent(t.out, t.sent, q) == TimesSent(snd.out, snd.sent, q)
    {
      FrameHead(t.sent, q);
    }
    forall i | 0 <= i < |t.lane.outstanding|
      ensures FrameOk(t.lane.outstanding[i], t.sent, t.out, cfg)
    {
      assert FrameOk(snd.lane.outstanding[i], snd.sent, snd.out, cfg);
      FrameHead(t.sent, t.lane.outstanding[i].seqNo);
    }
  }

  // ------------------------------------------------------------ steps of the receiving end

  /** What the receiver has, it keeps having: acks once sound stay sound. */
  lemma HavingKeepsAcks(out: multiset<Bytes>, lane: LaneState, next: LaneState)
    requires AcksOk(out, lane)
    requires forall q: uint32 :: Has(lane, q) ==> Has(next, q)
    ensures AcksOk(out, next)
  {
    forall w | w in out && DecodeLaneAck(w).Some?
      ensures AckSound(DecodeLaneAck(w).value, next)
    {
      assert AckSound(DecodeLaneAck(w).value, lane);
    }
  }

  lemma AckForSound(lane: LaneState)
    ensures AckSound(AckFor(lane.rxCumulative, lane.rxHold), lane)
  {
    var ack := AckFor(lane.rxCumulative, lane.rxHold);
    forall q: uint32 | Acked(ack, q)
      ensures Has(lane, q)
    {
      AckedMeans(ack, q);
      if q > ack.cumulative { AckForMeans(lane.rxCumulative, lane.rxHold, q - ack.cumulative - 2); }
    }
  }

  lemma ProbeKeepsReceiver(rcv: Side, sent: seq<Bytes>, cfg: LaneConfig)
    requires cfg.Valid() && ReceiverOk(rcv, sent, cfg)
    ensures ReceiverOk(Act(rcv, Probe, cfg), sent, cfg) && Act(rcv, Probe, cfg).lane == rcv.lane
  {
    var probe := LaneAck(0, 0);
    LaneAckRoundTrip(probe);
    hide EncodeLaneAck, DecodeLaneAck, Acked;
    forall q: uint32 | Acked(probe, q)
      ensures Has(rcv.lane, q)
    {
      AckedMeans(probe, q);
      if q > 0 { NoBitsInZero(q - 2); }
    }
  }

  lemma DrainedDelivers(cumulative: uint32, hold: map<uint32, Bytes>, sent: seq<Bytes>, window: nat)
    requires cumulative <= |sent| && HoldOk(cumulative, hold, sent, window)
    ensures var (d, c, h) := Drained(cumulative, hold);
      && c <= |sent| && sent[..cumulative] + d == sent[..c]
      && HoldOk(c, h, sent, window) && c + 1 !in h
      && forall q: uint32 :: q <= cumulative || q in hold ==> q <= c || q in h
  {
    var (d, c, h) := Drained(cumulative, hold);
    DrainedReleases(cumulative, hold);
    if c > cumulative { assert c in hold; }
    forall i | 0 <= i < |d|
      ensures d[i] == sent[cumulative + i]
    {
      var k := cumulative + 1 + i;
      assert k in hold && d[k - cumulative - 1] == hold[k];
    }
  }

  /** A frame of the sender's, taken in: delivery goes on where it stood. */
  lemma TakingDelivers(lane: LaneState, sent: seq<Bytes>, q: uint32, cfg: LaneConfig)
    requires 1 <= q <= |sent| < U32 && lane.rxCumulative <= |sent|
    requires HoldOk(lane.rxCumulative, lane.rxHold, sent, cfg.window)
    ensures var (t, d) := AfterData(lane, q, sent[q - 1], cfg);
      && t.rxCumulative <= |sent| && sent[..lane.rxCumulative] + d == sent[..t.rxCumulative]
      && HoldOk(t.rxCumulative, t.rxHold, sent, cfg.window) && t.rxCumulative + 1 !in t.rxHold
      && (forall p: uint32 :: Has(lane, p) ==> Has(t, p))
  {
    var hold := if Takes(lane.rxCumulative, lane.rxHold, q, cfg.window) then lane.rxHold[q := sent[q - 1]] else lane.rxHold;
    DrainedDelivers(lane.rxCumulative, hold, sent, cfg.window);
    hide Drained;
  }

  /** ... and the answering ack is sound. */
  lemma DataKeepsReceiver(rcv: Side, sent: seq<Bytes>, q: int, wire: Bytes, nowMs: int, cfg: LaneConfig)
    requires cfg.Valid() && ReceiverOk(rcv, sent, cfg)
    requires 1 <= q <= |sent| < U32 && wire == Frame(sent, q) && DecodeLaneData(wire).Some?
    ensures var t := Act(rcv, Receive(wire, nowMs), cfg);
      && ReceiverOk(t, sent, cfg)
      && (forall p: uint32 :: Has(rcv.lane, p) ==> Has(t.lane, p))
  {
    LaneDataRoundTrip(q, sent[q - 1]);
    var (lane, d) := AfterData(rcv.lane, q, sent[q - 1], cfg);
    var ack := AckFor(lane.rxCumulative, lane.rxHold);
    TakingDelivers(rcv.lane, sent, q, cfg);
    HavingKeepsAcks(rcv.out, rcv.lane, lane);
    AckForSound(lane);
    LaneAckRoundTrip(ack);
    hide EncodeLaneData, DecodeLaneData, DecodeLaneAck, AckSound, AckFor, EncodeLaneAck, AfterData, Has, HoldOk, AfterAck, AfterWrap, AfterResends, DueWires;
  }

  // ------------------------------------------------------------ one step, both directions

  /** What an act adds to the network that is no ack. */
  lemma DataWiresStay(me: Side, act: Action, cfg: LaneConfig)
    requires cfg.Valid() && DataWires(me.lane.outstanding)
    ensures DataWires(Act(me, act, cfg).lane.outstanding)
    ensures act.Resend? ==>
      forall w :: w in DueWires(me.lane.outstanding, act.nowMs, cfg) ==> w != [] && w[0] == LANE_DATA
  {
    var frames := me.lane.outstanding;
    match act
    case Wrap(_, _) =>
    case Probe =>
    case Resend(nowMs) =>
      RetriedAt(frames, nowMs, me.lane.rtt.rtoMs, cfg);
      forall w | w in DueWires(frames, nowMs, cfg)
        ensures w != [] && w[0] == LANE_DATA
      {
        DueWiresFromFrames(frames, nowMs, cfg, w);
      }
    case Receive(wire, nowMs) =>
      if DecodeLaneAck(wire).Some? {
        var ack := DecodeLaneAck(wire).value;
        var from := UnackedFrom(frames, ack, HighestAcked(ack, SELECTIVE_BITS), nowMs, cfg.fastSkips);
      }
  }

  lemma ActKeepsSending(me: Side, peer: Side, act: Action, cfg: LaneConfig, cfgPeer: LaneConfig)
    requires cfg.Valid() && Possible(peer, act)
    requires |Act(me, act, cfg).sent| < U32 && |me.sent| <= |Act(me, act, cfg).sent| && Flow(me, peer, cfg, cfgPeer)
    ensures Flow(Act(me, act, cfg), peer, cfg, cfgPeer)
  {
    hide SenderOk, Seqs, Has;
    var t := Act(me, act, cfg);
    match act
    case Wrap(inner, nowMs) =>
      if t != me { WrapKeepsSender(me, inner, nowMs, cfg); }
    case Resend(nowMs) => ResendKeepsSender(me, nowMs, cfg);
    case Probe => QuietKeepsSender(me, t, EncodeLaneAck(LaneAck(0, 0)), cfg);
    case Receive(wire, nowMs) =>
      if DecodeLaneAck(wire).Some? {
        AckKeepsSender(me, peer.lane, wire, nowMs, cfg);
      } else if DecodeLaneData(wire).Some? {
        QuietKeepsSender(me, t, EncodeLaneAck(AckFor(t.lane.rxCumulative, t.lane.rxHold)), cfg);
      }
  }

  lemma SenderFrames(snd: Side, cfg: LaneConfig, wire: Bytes)
    requires |snd.sent| < U32 && SenderOk(snd, cfg) && wire in snd.out && DecodeLaneData(wire).Some?
    ensures IsFrame(wire, snd.sent)
  {
  }

  lemma ActKeepsReceiving(me: Side, peer: Side, act: Action, cfg: LaneConfig, cfgPeer: LaneConfig)
    requires cfg.Valid() && Possible(peer, act) && DataWires(me.lane.outstanding)
    requires |peer.sent| < U32 && Flow(peer, me, cfgPeer, cfg)
    ensures Flow(peer, Act(me, act, cfg), cfgPeer, cfg)
  {
    hide SenderOk, Seqs, Has, ReceiverOk, Act, DataWires;
    var t := Act(me, act, cfg);
    match act {
      case Wrap(_, _) => SendingKeepsReceiver(me, act, peer.sent, cfg);
      case Resend(_) => SendingKeepsReceiver(me, act, peer.sent, cfg);
      case Probe => ProbeKeepsReceiver(me, peer.sent, cfg);
      case Receive(wire, nowMs) =>
        if DecodeLaneAck(wire).Some? {
          AckedKeepsReceiver(me, wire, nowMs, peer.sent, cfg);
        } else if DecodeLaneData(wire).Some? {
          SenderFrames(peer, cfgPeer, wire);
          var q :| 1 <= q <= |peer.sent| && wire == Frame(peer.sent, q);
          DataKeepsReceiver(me, peer.sent, q, wire, nowMs, cfg);
        } else {
          JunkIsIgnored(me, wire, nowMs, cfg);
        }
    }
    AccountedStays(peer.lane.outstanding, |peer.sent|, me.lane, t.lane);
  }

  lemma JunkIsIgnored(me: Side, wire: Bytes, nowMs: int, cfg: LaneConfig)
    requires cfg.Valid() && DecodeLaneAck(wire).None? && DecodeLaneData(wire).None?
    ensures Act(me, Receive(wire, nowMs), cfg) == me
  {
    hide DecodeLaneAck, DecodeLaneData;
  }

  lemma AccountedStays(frames: seq<Outstanding>, count: nat, a: LaneState, b: LaneState)
    requires Accounted(frames, count, a) && count < U32
    requires (a.rxCumulative == b.rxCumulative && a.rxHold == b.rxHold) || forall q: uint32 :: Has(a, q) ==> Has(b, q)
    ensures Accounted(frames, count, b)
  {
    hide Seqs;
  }

  /** Data going out is no ack, and touches nothing received. */
  lemma SendingKeepsReceiver(me: Side, act: Action, sent: seq<Bytes>, cfg: LaneConfig)
    requires cfg.Valid() && (act.Wrap? || act.Resend?) && DataWires(me.lane.outstanding) && ReceiverOk(me, sent, cfg)
    ensures var t := Act(me, act, cfg);
      ReceiverOk(t, sent, cfg) && t.lane.rxCumulative == me.lane.rxCumulative && t.lane.rxHold == me.lane.rxHold
  {
    DataWiresStay(me, act, cfg);
    hide AckSound, HoldOk, RetriedAll, DueWires, DecodeLaneAck, AcksOk;
    if act.Resend? {
      MoreData(me.out, DueWires(me.lane.outstanding, act.nowMs, cfg), me.lane);
    } else if |me.lane.outstanding| < cfg.window {
      var wire := EncodeLaneData(me.lane.nextTx, act.inner);
      assert multiset([wire]) == multiset{wire};
      MoreData(me.out, [wire], me.lane);
    }
    var t := Act(me, act, cfg);
    SameReceiving(t.out, me.lane, t.lane);
  }

  lemma MoreData(out: multiset<Bytes>, more: seq<Bytes>, lane: LaneState)
    requires AcksOk(out, lane) && forall w :: w in more ==> w != [] && w[0] == LANE_DATA
    ensures AcksOk(out + multiset(more), lane)
  {
    hide AckSound;
    assert forall w :: w in multiset(more) ==> w in more;
  }

  lemma SameReceiving(out: multiset<Bytes>, a: LaneState, b: LaneState)
    requires AcksOk(out, a) && a.rxCumulative == b.rxCumulative && a.rxHold == b.rxHold
    ensures AcksOk(out, b)
  {
    hide DecodeLaneAck, Acked;
    forall w | w in out && DecodeLaneAck(w).Some?
      ensures AckSound(DecodeLaneAck(w).value, b)
    {
      assert AckSound(DecodeLaneAck(w).value, a);
    }
  }

  lemma AckedKeepsReceiver(me: Side, wire: Bytes, nowMs: int, sent: seq<Bytes>, cfg: LaneConfig)
    requires cfg.Valid() && DecodeLaneAck(wire).Some? && ReceiverOk(me, sent, cfg)
    ensures var t := Act(me, Receive(wire, nowMs), cfg);
      ReceiverOk(t, sent, cfg) && t.lane.rxCumulative == me.lane.rxCumulative && t.lane.rxHold == me.lane.rxHold
  {
    hide DecodeLaneAck, DecodeLaneData, HoldOk, SampledAll, Unacked, HighestAcked, AcksOk;
    SameReceiving(me.out, me.lane, Act(me, Receive(wire, nowMs), cfg).lane);
  }
}
