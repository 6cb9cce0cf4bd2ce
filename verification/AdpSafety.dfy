/** What two associations promise over every run (src/L1/Connection.cpp; include/amp/L1/Connection.h:78-287). */
module AdpSafety {
  import opened Words
  import opened Replay
  import opened Adp
  import opened Association
  import opened AdpProtocol

  lemma ActKeepsInv(me: Side, peer: Side, act: Action, p: Params, pp: Params)
    requires Possible(peer, act) && Flow(me, peer, p, pp) && Flow(peer, me, pp, p)
    ensures var t := Act(me, act, p); Flow(t, peer, p, pp) && Flow(peer, t, pp, p)
  {
    assert |me.sent| < U32 && |peer.sent| < U32;
    match act
    case Send(reliable, payload, nowMs) => SendKeepsFlow(me, peer, reliable, payload, nowMs, p, pp);
    case Tick(nowMs) => TickKeepsFlow(me, peer, nowMs, p, pp);
    case Upgrade(key) =>
    case Protect =>
    case Control(close, payload, nowMs) =>
      if !me.c.closed {
        ControlKeepsSender(me, Emit(me.c.keys, if close then Close else Keepalive, 0, payload, nowMs, me.c.keys.binder), close, p);
      }
      hide SenderOk, Emit, Lockstep, InOrder;
    case Deliver(d, opens, from, nowMs) =>
      DeliverKeepsSender(me, d, opens, from, nowMs, peer.c.rx.window, p);
      DeliverKeepsReceiver(me, d, opens, from, nowMs, peer.sent, p);
      hide SenderOk, ReceiverOk, Act;
  }

  /** A packet that is neither reliable nor an ack. */
  lemma ControlKeepsSender(s: Side, d: Datagram, closed: bool, p: Params)
    requires SenderOk(s, p) && !IsReliable(d.kind)
    ensures SenderOk(s.(c := s.c.(wire := s.c.wire + [d], closed := closed)), p)
  {
    var wire := s.c.wire + [d];
    assert forall n: int :: Times(wire, n) == Times(s.c.wire, n) by { assert wire[..|wire| - 1] == s.c.wire; }
    assert forall i :: 0 <= i < |s.c.outstanding| ==> PacketOk(s.c.outstanding[i], s.sent, s.c.wire, p);
    hide Times;
  }

  lemma SendKeepsFlow(me: Side, peer: Side, reliable: bool, payload: Bytes, nowMs: int, p: Params, pp: Params)
    requires Flow(me, peer, p, pp) && Flow(peer, me, pp, p)
    ensures var t := Act(me, Send(reliable, payload, nowMs), p); Flow(t, peer, p, pp) && Flow(peer, t, pp, p)
  {
    hide RetransmitIntervalMs;
    var t := Act(me, Send(reliable, payload, nowMs), p);
    SendKeepsSender(me, reliable, payload, nowMs, p);
    LongerSent(peer, me.sent, t.sent, pp);
    SendIsNoAck(me, reliable, payload, nowMs, p);
    hide SenderOk, Lockstep, InOrder, AfterSend, InFlight;
  }

  lemma LongerSent(r: Side, sent: seq<Bytes>, longer: seq<Bytes>, p: Params)
    requires ReceiverOk(r, sent, p) && sent <= longer
    ensures ReceiverOk(r, longer, p)
  {
  }

  lemma SendIsNoAck(me: Side, reliable: bool, payload: Bytes, nowMs: int, p: Params)
    requires me.c.timer.backoff >= 0
    ensures var t := Act(me, Send(reliable, payload, nowMs), p);
      t.c.rx == me.c.rx && forall d :: d in t.c.wire && d.kind.Ack? ==> d in me.c.wire
  {
    hide RetransmitIntervalMs;
  }

  lemma TickKeepsFlow(me: Side, peer: Side, nowMs: int, p: Params, pp: Params)
    requires Flow(me, peer, p, pp) && Flow(peer, me, pp, p)
    ensures var t := Act(me, Tick(nowMs), p); Flow(t, peer, p, pp) && Flow(peer, t, pp, p)
  {
    TickKeepsSender(me, nowMs, p);
    TickIsNoAck(me, nowMs, p);
    hide SenderOk, Lockstep, InOrder, AfterTick, InFlight, GivenUpNow;
  }

  lemma TickIsNoAck(me: Side, nowMs: int, p: Params)
    requires SenderOk(me, p)
    ensures var t := Act(me, Tick(nowMs), p);
      t.c.rx == me.c.rx && forall d :: d in t.c.wire && d.kind.Ack? ==> d in me.c.wire
  {
    AllReliable(me.c.outstanding, me.sent, me.c.wire, p);
    forall d | d in ResendDatagrams(me.c.outstanding, nowMs, me.c.keys)
      ensures !d.kind.Ack?
    {
      ResendsFrom(me.c.outstanding, nowMs, me.c.keys, d);
    }
  }

  lemma FreshFlows(p: Params, pp: Params, key: nat, a: nat, b: nat)
    ensures Flow(FreshSide(p, key, a), FreshSide(pp, key, b), p, pp)
  {
    assert FreshSide(p, key, a).c.wire == [];
  }

  lemma StepKeepsInv(s: System, t: System, p: Both)
    requires Inv(s, p) && Next(s, t, p)
    ensures Inv(t, p)
  {
    hide Flow, Act;
    var act: Action :|
      || (Possible(s.y, act) && t == System(Act(s.x, act, p.x), s.y))
      || (Possible(s.x, act) && t == System(s.x, Act(s.y, act, p.y)));
    if Possible(s.y, act) && t == System(Act(s.x, act, p.x), s.y) {
      ActKeepsInv(s.x, s.y, act, p.x, p.y);
    } else {
      ActKeepsInv(s.y, s.x, act, p.y, p.x);
    }
  }

  lemma {:induction false} RunKeepsInv(run: seq<System>, p: Both)
    requires Run(run, p)
    ensures Inv(run[|run| - 1], p)
  {
    if |run| == 1 {
      var key, px, py :| run[0] == System(FreshSide(p.x, key, py), FreshSide(p.y, key, px));
      FreshFlows(p.x, p.y, key, py, px);
      FreshFlows(p.y, p.x, key, px, py);
    } else {
      var front := run[..|run| - 1];
      assert forall i :: 0 <= i < |front| - 1 ==> Next(front[i], front[i + 1], p);
      RunKeepsInv(front, p);
      StepKeepsInv(front[|front| - 1], run[|run| - 1], p);
    }
  }

  // ------------------------------------------------------------ the theorems

  /** What OnMessage was given is a prefix of what Send took, numbered 1, 2, 3, ..., through every key change. */
  lemma DeliversInOrder(run: seq<System>, p: Both, i: nat)
    requires Run(run, p) && i < |run[|run| - 1].y.c.rx.messages|
    ensures var s := run[|run| - 1];
      i < |s.x.sent| && s.y.c.rx.messages[i].payload == s.x.sent[i] && s.y.c.rx.messages[i].seqNo == i + 1
  {
    RunKeepsInv(run, p);
  }

  /** Every reliable packet taken is in flight, or its peer took it, or it was counted lost, once. */
  lemma NothingForgotten(run: seq<System>, p: Both, n: nat)
    requires Run(run, p) && 1 <= n <= |run[|run| - 1].x.sent|
    ensures var s := run[|run| - 1];
      && s.x.c.txRel == |s.x.sent| && |s.x.lost| == s.x.c.counts.reliableLost
      && (|| (exists i :: 0 <= i < |s.x.c.outstanding| && s.x.c.outstanding[i].seqNo == n && s.x.c.outstanding[i].payload == s.x.sent[n - 1])
          || n in s.x.lost
          || Seen(s.y.c.rx.window, n))
    ensures var s := run[|run| - 1]; forall i, j :: 0 <= i < j < |s.x.lost| ==> s.x.lost[i] != s.x.lost[j]
  {
    RunKeepsInv(run, p);
    var s := run[|run| - 1];
    if InFlight(s.x.c.outstanding, n) {
      var i :| 0 <= i < |s.x.c.outstanding| && s.x.c.outstanding[i].seqNo == n;
      assert PacketOk(s.x.c.outstanding[i], s.x.sent, s.x.c.wire, p.x);
    }
  }

  /** With nothing in flight and nothing lost, the peer's handler was given everything. */
  lemma IdleMeansDelivered(run: seq<System>, p: Both)
    requires Run(run, p) && run[|run| - 1].x.c.outstanding == [] && run[|run| - 1].x.c.counts.reliableLost == 0
    ensures |run[|run| - 1].y.c.rx.messages| == |run[|run| - 1].x.sent|
  {
    RunKeepsInv(run, p);
    var s := run[|run| - 1];
    var w := s.y.c.rx.window;
    assert w.last + 1 <= |s.x.sent| ==> Seen(w, w.last + 1);
  }

  /** No reliable packet goes out more than 1 + max_rtx times, whatever the association was allowed before it authenticated. */
  lemma TransmissionsBounded(run: seq<System>, p: Both, n: nat)
    requires Run(run, p) && n >= 1
    ensures Times(run[|run| - 1].x.c.wire, n) <= 1 + Max(0, p.x.maxRtx)
  {
    RunKeepsInv(run, p);
  }

  /** The replay window and the hold never part: same numbers, same place, and never more than the cap. */
  lemma WindowAndHoldInLockstep(run: seq<System>, p: Both)
    requires Run(run, p)
    ensures var rx := run[|run| - 1].y.c.rx;
      && (forall n :: n in rx.window.pending <==> n in rx.hold)
      && rx.next == Add32(rx.window.last, 1) && |rx.messages| == rx.window.last
      && |rx.hold| <= p.y.reliableWindow
  {
    RunKeepsInv(run, p);
  }

  /** No ack is ever sent for a packet that was not taken: an acked one is never dropped. */
  lemma AcksAreSound(run: seq<System>, p: Both, d: Datagram)
    requires Run(run, p) && d in run[|run| - 1].y.c.wire && d.kind.Ack?
    ensures var rx := run[|run| - 1].y.c.rx; d.seqNo <= |rx.messages| || d.seqNo in rx.hold
  {
    RunKeepsInv(run, p);
  }

  // ------------------------------------------------------------ what stale packets cannot do

  /** A packet under the pre-session key, forged or not, delivers nothing, keeps nobody alive, moves no path, changes no key or timer. */
  lemma PreUpgradeKeyHarmless(c: Conn, d: Datagram, nowMs: int, p: Params)
    requires c.keys.preUpgrade.Some?
    ensures var t := AfterPreUpgradeKey(c, d, nowMs, p);
      && t.rx == c.rx && t.rxBe == c.rxBe && t.bestEffort == c.bestEffort
      && t.path == c.path && t.keys == c.keys && t.timer == c.timer && t.closed == c.closed
      && (forall i :: 0 <= i < |c.outstanding| && !c.outstanding[i].beforeUpgrade ==> c.outstanding[i] in t.outstanding)
  {
    var only := WithoutOnlyBefore(c.outstanding, d.seqNo);
  }

  lemma {:induction false} WithoutOnlyBefore(q: seq<Outgoing>, seqNo: uint32) returns (kept: seq<Outgoing>)
    ensures kept == Without(q, seqNo, true)
    ensures forall i :: 0 <= i < |q| && !q[i].beforeUpgrade ==> q[i] in kept
  {
    kept := Without(q, seqNo, true);
    if q != [] {
      var front := WithoutOnlyBefore(q[..|q| - 1], seqNo);
      forall i | 0 <= i < |q| && !q[i].beforeUpgrade
        ensures q[i] in kept
      {
        if i < |q| - 1 { assert q[..|q| - 1][i] == q[i]; }
      }
    }
  }
}
