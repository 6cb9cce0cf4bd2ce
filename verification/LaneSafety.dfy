/** What two CarrierLanes promise over every run (src/link/CarrierLane.cpp, include/amp/link/CarrierLane.h:27-41). */
module LaneSafety {
  import opened Words
  import opened LaneCodec
  import opened Lane
  import opened LaneProtocol

  // ------------------------------------------------------------ every run keeps the invariant

  lemma StepKeepsInv(s: System, t: System, cfg: Configs)
    requires cfg.Valid() && Inv(s, cfg) && Next(s, t, cfg)
    ensures Inv(t, cfg)
  {
    hide Flow, Act, DataWires;
    var act: Action :|
      || (Possible(s.y, act) && t == System(Act(s.x, act, cfg.x), s.y))
      || (Possible(s.x, act) && t == System(s.x, Act(s.y, act, cfg.y)));
    if Possible(s.y, act) && t == System(Act(s.x, act, cfg.x), s.y) {
      ActKeepsInv(s.x, s.y, act, cfg.x, cfg.y);
    } else {
      ActKeepsInv(s.y, s.x, act, cfg.y, cfg.x);
    }
  }

  lemma ActKeepsInv(me: Side, peer: Side, act: Action, cfg: LaneConfig, cfgPeer: LaneConfig)
    requires cfg.Valid() && Possible(peer, act)
    requires DataWires(me.lane.outstanding)
    requires |me.sent| < U32 ==> Flow(me, peer, cfg, cfgPeer)
    requires |peer.sent| < U32 ==> Flow(peer, me, cfgPeer, cfg)
    ensures var t := Act(me, act, cfg);
      && DataWires(t.lane.outstanding)
      && (|t.sent| < U32 ==> Flow(t, peer, cfg, cfgPeer))
      && (|peer.sent| < U32 ==> Flow(peer, t, cfgPeer, cfg))
  {
    DataWiresStay(me, act, cfg);
    SentGrows(me, act, cfg);
    var t := Act(me, act, cfg);
    if |t.sent| < U32 { ActKeepsSending(me, peer, act, cfg, cfgPeer); }
    if |peer.sent| < U32 { ActKeepsReceiving(me, peer, act, cfg, cfgPeer); }
    hide *;
  }

  /** Histories only grow: what was accepted or released stays accepted or released. */
  lemma SentGrows(me: Side, act: Action, cfg: LaneConfig)
    requires cfg.Valid()
    ensures me.sent <= Act(me, act, cfg).sent && me.delivered <= Act(me, act, cfg).delivered
  {
  }

  lemma {:induction false} RunKeepsInv(run: seq<System>, cfg: Configs)
    requires cfg.Valid() && Run(run, cfg)
    ensures Inv(run[|run| - 1], cfg)
  {
    if |run| > 1 {
      var front := run[..|run| - 1];
      assert forall i :: 0 <= i < |front| - 1 ==> Next(front[i], front[i + 1], cfg);
      RunKeepsInv(front, cfg);
      StepKeepsInv(front[|front| - 1], run[|run| - 1], cfg);
    }
  }

  // ------------------------------------------------------------ the theorems

  /** In order, once each, the right bytes: what one end released is a prefix of what the other accepted. */
  lemma DeliversInOrder(run: seq<System>, cfg: Configs)
    requires cfg.Valid() && Run(run, cfg)
    ensures var s := run[|run| - 1];
      && (|s.x.sent| < U32 ==> s.y.delivered <= s.x.sent)
      && (|s.y.sent| < U32 ==> s.x.delivered <= s.y.sent)
  {
    RunKeepsInv(run, cfg);
  }

  /** What waits in the hold is the peer's own frames, each at its number, inside (cumulative + 1, cumulative + window]. */
  lemma HoldsRightBytes(run: seq<System>, cfg: Configs, k: uint32)
    requires cfg.Valid() && Run(run, cfg)
    requires |run[|run| - 1].x.sent| < U32 && k in run[|run| - 1].y.lane.rxHold
    ensures var s := run[|run| - 1]; var lane := s.y.lane;
      && lane.rxCumulative + 1 < k <= lane.rxCumulative + cfg.y.window
      && k <= |s.x.sent| && lane.rxHold[k] == s.x.sent[k - 1]
  {
    RunKeepsInv(run, cfg);
  }

  /** Every frame accepted is still in flight, or held, or delivered. */
  lemma NothingForgotten(run: seq<System>, cfg: Configs, q: int)
    requires cfg.Valid() && Run(run, cfg)
    requires 1 <= q <= |run[|run| - 1].x.sent| < U32
    ensures var s := run[|run| - 1];
      || (exists o :: o in s.x.lane.outstanding && o.seqNo == q && o.wire == Frame(s.x.sent, q))
      || q in s.y.lane.rxHold
      || (q <= |s.y.delivered| && s.y.delivered[q - 1] == s.x.sent[q - 1])
  {
    RunKeepsInv(run, cfg);
    var s := run[|run| - 1];
    if q in Seqs(s.x.lane.outstanding) {
      var i :| 0 <= i < |s.x.lane.outstanding| && s.x.lane.outstanding[i].seqNo == q;
      assert FrameOk(s.x.lane.outstanding[i], s.x.sent, s.x.out, cfg.x);
      assert s.x.lane.outstanding[i] in s.x.lane.outstanding;
    }
  }

  /** A lane with nothing in flight: the peer has delivered everything. */
  lemma IdleMeansDelivered(run: seq<System>, cfg: Configs)
    requires cfg.Valid() && Run(run, cfg)
    requires |run[|run| - 1].x.sent| < U32 && run[|run| - 1].x.lane.outstanding == []
    ensures run[|run| - 1].y.delivered == run[|run| - 1].x.sent
  {
    RunKeepsInv(run, cfg);
    var s := run[|run| - 1];
    var q := s.y.lane.rxCumulative + 1;
    assert q <= |s.x.sent| ==> q in Seqs(s.x.lane.outstanding) || Has(s.y.lane, q);
  }

  /** No ack on the network ever claims a frame its sender had not taken. */
  lemma AcksAreSound(run: seq<System>, cfg: Configs, wire: Bytes, q: uint32)
    requires cfg.Valid() && Run(run, cfg) && |run[|run| - 1].x.sent| < U32
    requires wire in run[|run| - 1].y.out && DecodeLaneAck(wire).Some? && Acked(DecodeLaneAck(wire).value, q)
    ensures q <= |run[|run| - 1].y.delivered| || q in run[|run| - 1].y.lane.rxHold
  {
    RunKeepsInv(run, cfg);
    assert AckSound(DecodeLaneAck(wire).value, run[|run| - 1].y.lane);
  }

  /** No frame goes out more often than max_attempts allows (the first transmission is never refused). */
  lemma TransmissionsBounded(run: seq<System>, cfg: Configs, q: int)
    requires cfg.Valid() && Run(run, cfg)
    requires 1 <= q <= |run[|run| - 1].x.sent| < U32
    ensures var s := run[|run| - 1];
      s.x.out[EncodeLaneData(q, s.x.sent[q - 1])] <= Max(1, cfg.x.maxAttempts)
  {
    RunKeepsInv(run, cfg);
    var s := run[|run| - 1];
    assert TimesSent(s.x.out, s.x.sent, q) <= Cap(cfg.x);
  }

  // ------------------------------------------------------------ the timer

  /** Samples fed to the estimator one after another. */
  function SampledSeq(r: Rtt, samples: seq<int>, cfg: LaneConfig): Rtt
    requires cfg.Valid()
  {
    if samples == [] then r
    else Sampled(SampledSeq(r, samples[..|samples| - 1], cfg), samples[|samples| - 1], cfg)
  }

  /** The smoothed round trip stays between the least and the greatest sample, and the timeout in its bounds. */
  lemma {:induction false} SmoothedBetweenSamples(r: Rtt, samples: seq<int>, lo: int, hi: int, cfg: LaneConfig)
    requires cfg.Valid() && !r.haveRtt && samples != []
    requires 1 <= lo && forall i :: 0 <= i < |samples| ==> lo <= Max(samples[i], 1) <= hi
    ensures var t := SampledSeq(r, samples, cfg);
      && t.haveRtt && lo <= t.srttMs <= hi && 0 <= t.rttvarMs <= hi
      && cfg.minRtoMs <= t.rtoMs <= cfg.maxRtoMs
  {
    var n := |samples| - 1;
    if n > 0 {
      SmoothedBetweenSamples(r, samples[..n], lo, hi, cfg);
    } else {
      assert samples[..0] == [];
    }
    assert lo <= Max(samples[n], 1) <= hi;
  }

  /** Waits between resends never shrink and never pass max_rto_ms. */
  lemma BackoffMonotone(rtoMs: int, a: int, b: int, maxRtoMs: int)
    requires 0 <= rtoMs && 1 <= a <= b
    ensures Min(rtoMs, maxRtoMs) <= Backoff(rtoMs, a, maxRtoMs) <= Backoff(rtoMs, b, maxRtoMs) <= maxRtoMs
  {
    Pow2Sum(a - 1, b - a);
    Scaled(rtoMs, Pow2(a - 1), Pow2(b - a));
    Scaled(rtoMs, 1, Pow2(a - 1));
  }
}
