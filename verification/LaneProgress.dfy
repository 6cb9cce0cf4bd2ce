/** No state two lanes can reach is a dead end: the network alone, losing nothing further, can always finish the job. */
module LaneProgress {
  import opened Words
  import opened LaneCodec
  import opened Lane
  import opened LaneProtocol
  import opened LaneSafety

  /** `t` is reachable from `s`. */
  ghost predicate Leads(s: System, t: System, cfg: Configs)
    requires cfg.Valid()
  {
    exists path: seq<System> :: Path(path, s, t, cfg)
  }

  ghost predicate Path(path: seq<System>, s: System, t: System, cfg: Configs)
    requires cfg.Valid()
  {
    && |path| > 0 && path[0] == s && path[|path| - 1] == t
    && forall i :: 0 <= i < |path| - 1 ==> Next(path[i], path[i + 1], cfg)
  }

  lemma LeadsOn(s: System, t: System, u: System, cfg: Configs)
    requires cfg.Valid() && Leads(s, t, cfg) && Next(t, u, cfg)
    ensures Leads(s, u, cfg)
  {
    var path :| Path(path, s, t, cfg);
    var longer := path + [u];
    forall i | 0 <= i < |longer| - 1
      ensures Next(longer[i], longer[i + 1], cfg)
    {
      if i < |path| - 1 { assert Next(path[i], path[i + 1], cfg); }
    }
    assert Path(longer, s, u, cfg);
  }

  lemma LeadsToItself(s: System, cfg: Configs)
    requires cfg.Valid()
    ensures Leads(s, s, cfg)
  {
    assert Path([s], s, s, cfg);
  }

  lemma WaitedFrameReleased(lane: LaneState, inner: Bytes, cfg: LaneConfig)
    requires lane.rxCumulative + 1 < U32 && lane.rxCumulative + 1 !in lane.rxHold && 1 <= cfg.window
    ensures AfterData(lane, lane.rxCumulative + 1, inner, cfg).1 != []
  {
  }

  /** Delivering the frame the receiver waits for moves it on. */
  lemma WaitedFrameMovesOn(s: System, cfg: Configs) returns (t: System)
    requires cfg.Valid() && Inv(s, cfg) && 1 <= cfg.y.window
    requires |s.y.delivered| < |s.x.sent| < U32 && s.x.sent[|s.y.delivered|] != []
    ensures Next(s, t, cfg) && t.x == s.x && |t.y.delivered| > |s.y.delivered|
  {
    var q := |s.y.delivered| + 1;
    var act := Receive(Frame(s.x.sent, q), 0);
    assert TimesSent(s.x.out, s.x.sent, q) >= 1;
    LaneDataRoundTrip(q, s.x.sent[q - 1]);
    InOrder(s, cfg);
    WaitedFrameReleased(s.y.lane, s.x.sent[q - 1], cfg.y);
    hide EncodeLaneData, DecodeLaneData, DecodeLaneAck, EncodeLaneAck, AckFor, Flow, AfterData;
    assert Possible(s.x, act);
    t := System(s.x, Act(s.y, act, cfg.y));
  }

  lemma {:induction false} PeerCanCatchUp(s: System, cfg: Configs) returns (t: System)
    requires cfg.Valid() && Inv(s, cfg) && 1 <= cfg.y.window && |s.x.sent| < U32
    requires forall i :: 0 <= i < |s.x.sent| ==> s.x.sent[i] != []
    ensures Leads(s, t, cfg) && Inv(t, cfg) && t.x == s.x && t.y.delivered == s.x.sent
    decreases |s.x.sent| - |s.y.delivered|
  {
    hide Flow;
    LeadsToItself(s, cfg);
    t := s;
    InOrder(s, cfg);
    while |t.y.delivered| < |s.x.sent|
      invariant Leads(s, t, cfg) && Inv(t, cfg) && t.x == s.x && t.y.delivered <= s.x.sent
      decreases |s.x.sent| - |t.y.delivered|
    {
      var u := WaitedFrameMovesOn(t, cfg);
      StepKeepsInv(t, u, cfg);
      LeadsOn(s, t, u, cfg);
      InOrder(u, cfg);
      t := u;
    }
  }

  lemma InOrder(s: System, cfg: Configs)
    requires Inv(s, cfg) && |s.x.sent| < U32
    ensures s.y.delivered <= s.x.sent && s.y.lane.rxCumulative == |s.y.delivered|
    ensures s.y.lane.rxCumulative + 1 !in s.y.lane.rxHold
  {
  }

  lemma NoFrames(s: System, cfg: Configs)
    requires Inv(s, cfg) && s.x.sent == []
    ensures s.x.lane.outstanding == []
  {
    var frames := s.x.lane.outstanding;
    assert |frames| > 0 ==> FrameOk(frames[0], s.x.sent, s.x.out, cfg.x);
  }

  lemma {:induction false} AllAcked(frames: seq<Outstanding>, ack: LaneAck, hi: uint32, nowMs: int, skips: int)
    requires forall i :: 0 <= i < |frames| ==> Acked(ack, frames[i].seqNo)
    ensures Unacked(frames, ack, hi, nowMs, skips) == []
  {
    if frames != [] { AllAcked(frames[..|frames| - 1], ack, hi, nowMs, skips); }
  }

  lemma EverythingAcked(t: System, ack: LaneAck, cfg: Configs)
    requires cfg.Valid() && Inv(t, cfg) && |t.x.sent| < U32 && ack.cumulative == |t.x.sent|
    ensures AfterAck(t.x.lane, ack, 0, cfg.x).outstanding == []
  {
    var frames := t.x.lane.outstanding;
    assert forall i :: 0 <= i < |frames| ==> FrameOk(frames[i], t.x.sent, t.x.out, cfg.x);
    assert forall i :: 0 <= i < |frames| ==> Acked(ack, frames[i].seqNo);
    AllAcked(frames, ack, HighestAcked(ack, SELECTIVE_BITS), 0, cfg.x.fastSkips);
  }

  /** A peer that has everything, told of its last frame once more, answers with an ack of everything. */
  lemma LastFrameAgain(s: System, cfg: Configs) returns (t: System)
    requires cfg.Valid() && Inv(s, cfg) && 1 <= |s.x.sent| < U32 && s.y.delivered == s.x.sent
    requires s.x.sent[|s.x.sent| - 1] != []
    ensures Next(s, t, cfg) && Inv(t, cfg) && t.x == s.x && t.y.delivered == s.y.delivered
    ensures t.y.lane.rxCumulative == |s.x.sent|
    ensures EncodeLaneAck(AckFor(t.y.lane.rxCumulative, t.y.lane.rxHold)) in t.y.out
  {
    var n := |s.x.sent|;
    var again := Receive(Frame(s.x.sent, n), 0);
    assert TimesSent(s.x.out, s.x.sent, n) >= 1;
    assert Possible(s.x, again);
    t := System(s.x, Act(s.y, again, cfg.y));
    assert Next(s, t, cfg);
    StepKeepsInv(s, t, cfg);
    LaneDataRoundTrip(n, s.x.sent[n - 1]);
    hide EncodeLaneData, DecodeLaneData, DecodeLaneAck, EncodeLaneAck, AckFor, Flow;
    InOrder(t, cfg);
    InOrder(s, cfg);
  }

  /** And that ack, delivered, settles everything. */
  lemma LastAckSettles(t: System, cfg: Configs) returns (u: System)
    requires cfg.Valid() && Inv(t, cfg) && |t.x.sent| < U32 && t.y.lane.rxCumulative == |t.x.sent|
    requires EncodeLaneAck(AckFor(t.y.lane.rxCumulative, t.y.lane.rxHold)) in t.y.out
    ensures Next(t, u, cfg) && u.x.sent == t.x.sent && u.y == t.y && u.x.lane.outstanding == []
  {
    var ack := AckFor(t.y.lane.rxCumulative, t.y.lane.rxHold);
    var hear := Receive(EncodeLaneAck(ack), 0);
    LaneAckRoundTrip(ack);
    AckForMeans(t.y.lane.rxCumulative, t.y.lane.rxHold, 0);
    EverythingAcked(t, ack, cfg);
    hide EncodeLaneData, DecodeLaneData, DecodeLaneAck, EncodeLaneAck, Flow, AckFor, AfterAck;
    u := System(Act(t.x, hear, cfg.x), t.y);
    assert Possible(t.y, hear);
  }

  /**
   From every state of every run the network can bring the lane to rest: everything delivered,
   nothing in flight. Only deliveries are needed, no further transmission of data.
   */
  lemma NeverWedged(run: seq<System>, cfg: Configs) returns (t: System)
    requires cfg.Valid() && Run(run, cfg) && 1 <= cfg.y.window
    requires var s := run[|run| - 1];
      |s.x.sent| < U32 && forall i :: 0 <= i < |s.x.sent| ==> s.x.sent[i] != []
    ensures var s := run[|run| - 1];
      Leads(s, t, cfg) && t.x.sent == s.x.sent && t.y.delivered == s.x.sent && t.x.lane.outstanding == []
  {
    RunKeepsInv(run, cfg);
    var s := run[|run| - 1];
    t := PeerCanCatchUp(s, cfg);
    if |s.x.sent| > 0 {
      var u := LastFrameAgain(t, cfg);
      var v := LastAckSettles(u, cfg);
      LeadsOn(s, t, u, cfg);
      LeadsOn(s, u, v, cfg);
      t := v;
    } else {
      NoFrames(t, cfg);
    }
  }
}
