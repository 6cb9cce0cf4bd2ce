/**
 A lane has no wrap check (src/link/CarrierLane.cpp:16-31): after number 2^32 - 1 comes 0. Up to there an idle lane has
 delivered everything; from the 2^32nd frame on it need not have, and here are the runs.
 */
module LaneWrap {
  import opened Words
  import opened LaneCodec
  import opened Lane
  import opened LaneProtocol
  import opened LaneSafety
  import opened LaneProgress

  /** The frame after number 2^32 - 1 is numbered 0. */
  lemma WrapsToZero(me: Side, inner: Bytes, nowMs: int, cfg: LaneConfig)
    requires cfg.Valid() && me.lane.nextTx == 0 && me.lane.outstanding == [] && 0 < cfg.window
    ensures var t := Act(me, Wrap(inner, nowMs), cfg);
      && t.sent == me.sent + [inner] && |t.lane.outstanding| == 1 && t.lane.outstanding[0].seqNo == 0
      && forall w :: w in t.out && w !in me.out ==> w == EncodeLaneData(0, inner)
  {
    hide EncodeLaneData;
  }

  lemma ZeroIsRefused(peer: Side, inner: Bytes, nowMs: int, cfg: LaneConfig)
    requires cfg.Valid()
    ensures Act(peer, Receive(EncodeLaneData(0, inner), nowMs), cfg) == peer
  {
    LaneDataRoundTrip(0, inner);
    hide EncodeLaneData, DecodeLaneData, DecodeLaneAck;
  }

  /** Any ack settles number 0. */
  lemma ZeroIsAcked(me: Side, ack: LaneAck, nowMs: int, cfg: LaneConfig)
    requires cfg.Valid() && |me.lane.outstanding| == 1 && me.lane.outstanding[0].seqNo == 0
    ensures var u := Act(me, Receive(EncodeLaneAck(ack), nowMs), cfg);
      u.lane.outstanding == [] && u.sent == me.sent
  {
    LaneAckRoundTrip(ack);
    hide EncodeLaneAck, DecodeLaneAck, DecodeLaneData, HighestAcked, SampledAll;
    var frames := me.lane.outstanding;
    assert frames[..0] == [] && Acked(ack, 0);
    assert Unacked(frames, ack, HighestAcked(ack, SELECTIVE_BITS), nowMs, cfg.fastSkips) == [];
  }

  // ------------------------------------------------------------ runs that get there

  lemma OneStepMore(run: seq<System>, t: System, cfg: Configs)
    requires cfg.Valid() && Run(run, cfg) && Next(run[|run| - 1], t, cfg)
    ensures Run(run + [t], cfg)
  {
    var longer := run + [t];
    forall i | 0 <= i < |longer| - 1
      ensures Next(longer[i], longer[i + 1], cfg)
    {
      if i < |run| - 1 { assert Next(run[i], run[i + 1], cfg); }
    }
  }

  lemma RunLeads(run: seq<System>, t: System, cfg: Configs) returns (longer: seq<System>)
    requires cfg.Valid() && Run(run, cfg) && Leads(run[|run| - 1], t, cfg)
    ensures Run(longer, cfg) && longer[|longer| - 1] == t
  {
    var path :| Path(path, run[|run| - 1], t, cfg);
    longer := run + path[1..];
    forall i | 0 <= i < |longer| - 1
      ensures Next(longer[i], longer[i + 1], cfg)
    {
      if i < |run| - 1 {
        assert Next(run[i], run[i + 1], cfg);
      } else {
        var k := i - (|run| - 1);
        assert Next(path[k], path[k + 1], cfg) && longer[i] == path[k] && longer[i + 1] == path[k + 1];
      }
    }
  }

  /** Nothing in flight and everything delivered, after `n` frames. */
  ghost predicate AllDone(s: System, n: nat) {
    && |s.x.sent| == n && s.x.lane.outstanding == [] && s.y.delivered == s.x.sent
    && forall i :: 0 <= i < n ==> s.x.sent[i] != []
  }

  lemma WrapStep(s: System, cfg: Configs, inner: Bytes) returns (t: System)
    requires cfg.Valid() && 1 <= cfg.x.window && s.x.lane.outstanding == []
    ensures Next(s, t, cfg) && t.y == s.y && t.x.sent == s.x.sent + [inner] && |t.x.lane.outstanding| == 1
  {
    var act := Wrap(inner, 0);
    t := System(Act(s.x, act, cfg.x), s.y);
    assert Possible(s.y, act);
    hide EncodeLaneData;
  }

  /** Any number of frames short of 2^32 can be sent and delivered, one after the other. */
  lemma {:induction false} DoneAfter(n: nat, cfg: Configs) returns (run: seq<System>)
    requires cfg.Valid() && 1 <= cfg.x.window && 1 <= cfg.y.window && n < U32
    ensures Run(run, cfg) && AllDone(run[|run| - 1], n)
  {
    if n == 0 {
      run := [System(FreshSide(cfg.x), FreshSide(cfg.y))];
    } else {
      hide Act;
      run := DoneAfter(n - 1, cfg);
      var s := run[|run| - 1];
      var wrapped := WrapStep(s, cfg, [7]);
      OneStepMore(run, wrapped, cfg);
      run := run + [wrapped];
      var t := NeverWedged(run, cfg);
      run := RunLeads(run, t, cfg);
    }
  }

  /** The receiver is at the last number there is, and has said so. */
  ghost predicate AtTheEnd(s: System) {
    && s.x.lane.outstanding == [] && |s.y.delivered| == U32 - 1 && s.y.lane.rxCumulative == U32 - 1
    && EncodeLaneAck(AckFor(s.y.lane.rxCumulative, s.y.lane.rxHold)) in s.y.out
  }

  lemma ReachTheEnd(cfg: Configs) returns (run: seq<System>)
    requires cfg.Valid() && 1 <= cfg.x.window && 1 <= cfg.y.window
    ensures Run(run, cfg) && AtTheEnd(run[|run| - 1]) && |run[|run| - 1].x.sent| == U32 - 1
  {
    hide Act, EncodeLaneAck, AckFor;
    run := DoneAfter(U32 - 1, cfg);
    RunKeepsInv(run, cfg);
    var s := run[|run| - 1];
    var t := LastFrameAgain(s, cfg);
    OneStepMore(run, t, cfg);
    run := run + [t];
  }

  /** From there on the receiver's ack settles whatever frame goes out, and the receiver takes none. */
  lemma EndSettlesAll(s: System, cfg: Configs) returns (t: System)
    requires cfg.Valid() && s.y.lane.rxCumulative == U32 - 1
    requires EncodeLaneAck(AckFor(s.y.lane.rxCumulative, s.y.lane.rxHold)) in s.y.out
    ensures Next(s, t, cfg) && t.y == s.y && t.x.sent == s.x.sent && t.x.lane.outstanding == []
  {
    var ack := AckFor(s.y.lane.rxCumulative, s.y.lane.rxHold);
    var hear := Receive(EncodeLaneAck(ack), 0);
    LaneAckRoundTrip(ack);
    var frames := s.x.lane.outstanding;
    assert ack.cumulative == U32 - 1;
    assert forall i :: 0 <= i < |frames| ==> Acked(ack, frames[i].seqNo);
    AllAcked(frames, ack, HighestAcked(ack, SELECTIVE_BITS), 0, cfg.x.fastSkips);
    hide EncodeLaneData, DecodeLaneData, DecodeLaneAck, EncodeLaneAck, AckFor, HighestAcked, SampledAll;
    t := System(Act(s.x, hear, cfg.x), s.y);
    assert Possible(s.y, hear);
  }

  lemma {:induction false} IdleButUndelivered(n: nat, cfg: Configs) returns (run: seq<System>)
    requires cfg.Valid() && 1 <= cfg.x.window && 1 <= cfg.y.window && n >= U32 - 1
    ensures Run(run, cfg) && AtTheEnd(run[|run| - 1]) && |run[|run| - 1].x.sent| == n
  {
    hide Act, EncodeLaneAck, AckFor;
    if n == U32 - 1 {
      run := ReachTheEnd(cfg);
    } else {
      run := IdleButUndelivered(n - 1, cfg);
      var t := WrapStep(run[|run| - 1], cfg, [7]);
      OneStepMore(run, t, cfg);
      var u := EndSettlesAll(t, cfg);
      OneStepMore(run + [t], u, cfg);
      run := run + [t] + [u];
    }
  }

  /** In every run of `n` frames an idle lane has delivered them all. */
  ghost predicate IdleIsDelivered(n: nat, cfg: Configs)
    requires cfg.Valid()
  {
    forall run: seq<System> :: Run(run, cfg) && |run[|run| - 1].x.sent| == n && run[|run| - 1].x.lane.outstanding == [] ==>
      run[|run| - 1].y.delivered == run[|run| - 1].x.sent
  }

  /** The exact line: nothing in flight means everything was delivered for as many frames as there are numbers but 0, and for no more. */
  lemma IdleMeansDeliveredExactly(n: nat, cfg: Configs)
    requires cfg.Valid() && 1 <= cfg.x.window && 1 <= cfg.y.window
    ensures IdleIsDelivered(n, cfg) <==> n < U32
  {
    if n < U32 {
      forall run: seq<System> | Run(run, cfg) && |run[|run| - 1].x.sent| == n && run[|run| - 1].x.lane.outstanding == []
        ensures run[|run| - 1].y.delivered == run[|run| - 1].x.sent
      {
        IdleMeansDelivered(run, cfg);
      }
    } else {
      var run := IdleButUndelivered(n, cfg);
      assert |run[|run| - 1].y.delivered| < |run[|run| - 1].x.sent|;
    }
  }

  /**
   The frame that is lost first: the one after number 2^32 - 1 goes out under number 0. Its receiver refuses the wire, in
   any state, yet any ack at all settles it.
   */
  lemma WrappedFrameForgotten(cfg: Configs, inner: Bytes, nowMs: int) returns (run: seq<System>)
    requires cfg.Valid() && 1 <= cfg.x.window && 1 <= cfg.y.window
    ensures Run(run, cfg)
    ensures var s := run[|run| - 1];
      var t := Act(s.x, Wrap(inner, nowMs), cfg.x);
      && |s.x.sent| == U32 - 1 && s.y.delivered == s.x.sent && t.sent == s.x.sent + [inner]
      && (forall w :: w in t.out && w !in s.x.out ==> forall peer: Side :: Act(peer, Receive(w, nowMs), cfg.y) == peer)
      && (forall ack :: Act(t, Receive(EncodeLaneAck(ack), nowMs), cfg.x).lane.outstanding == [])
  {
    hide Act, EncodeLaneData, EncodeLaneAck;
    run := DoneAfter(U32 - 1, cfg);
    RunKeepsInv(run, cfg);
    var s := run[|run| - 1];
    AtTheLastNumber(s, cfg);
    WrapsToZero(s.x, inner, nowMs, cfg.x);
    var t := Act(s.x, Wrap(inner, nowMs), cfg.x);
    forall w, peer: Side | w in t.out && w !in s.x.out
      ensures Act(peer, Receive(w, nowMs), cfg.y) == peer
    {
      ZeroIsRefused(peer, inner, nowMs, cfg.y);
    }
    forall ack
      ensures Act(t, Receive(EncodeLaneAck(ack), nowMs), cfg.x).lane.outstanding == []
    {
      ZeroIsAcked(t, ack, nowMs, cfg.x);
    }
  }

  lemma AtTheLastNumber(s: System, cfg: Configs)
    requires cfg.Valid() && Inv(s, cfg) && |s.x.sent| == U32 - 1
    ensures s.x.lane.nextTx == 0
  {
  }
}
