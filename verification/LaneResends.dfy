/**
 When a lane sends again (src/link/CarrierLane.cpp:16-80, 108-128), told in times, counts and copies on the network:
 a frame goes out once more exactly when its time has come and it has attempts left; its time comes a timeout after
 its last transmission, doubled for each before, or at once when enough acks have passed it by.
 */
module LaneResends {
  import opened Words
  import opened LaneCodec
  import opened Lane
  import opened LaneProtocol
  import opened LaneSafety

  // ------------------------------------------------------------ one call

  lemma FailsWhen(frames: seq<Outstanding>, nowMs: int, cfg: LaneConfig)
    ensures Exhausted(frames, nowMs, cfg) <==>
            exists i :: 0 <= i < |frames| && nowMs >= frames[i].nextResendMs && frames[i].attempts >= cfg.maxAttempts
  {
  }

  /** A call of DueResends at `nowMs`, on the frames in flight: which copies go out, and what each frame's timer is then. */
  lemma ResendExactly(snd: Side, nowMs: int, cfg: LaneConfig, i: nat)
    requires cfg.Valid() && |snd.sent| < U32 && SenderOk(snd, cfg) && i < |snd.lane.outstanding|
    ensures var o, t := snd.lane.outstanding[i], Act(snd, Resend(nowMs), cfg);
      var again := nowMs >= o.nextResendMs && o.attempts < cfg.maxAttempts;
      && |t.lane.outstanding| == |snd.lane.outstanding| && t.sent == snd.sent && t.lane.rtt == snd.lane.rtt
      && t.out[o.wire] == snd.out[o.wire] + (if again then 1 else 0)
      && t.lane.outstanding[i].seqNo == o.seqNo && t.lane.outstanding[i].wire == o.wire
      && t.lane.outstanding[i].attempts == o.attempts + (if again then 1 else 0)
      && t.lane.outstanding[i].nextResendMs ==
           (if again then nowMs + Min(snd.lane.rtt.rtoMs * Pow2(Max(0, o.attempts)), cfg.maxRtoMs) else o.nextResendMs)
      && t.lane.outstanding[i].skips == (if again then 0 else o.skips)
  {
    hide EncodeLaneData, Frame;
    var frames := snd.lane.outstanding;
    RetriedAt(frames, nowMs, snd.lane.rtt.rtoMs, cfg);
    DistinctWires(frames, snd.sent, snd.out, cfg);
    DueCounts(frames, nowMs, cfg, i);
    hide DueWires, RetriedAll, SenderOk;
  }

  /** Nothing but frames in flight goes out. */
  lemma NothingElseResent(snd: Side, nowMs: int, cfg: LaneConfig, w: Bytes)
    requires cfg.Valid() && forall i :: 0 <= i < |snd.lane.outstanding| ==> snd.lane.outstanding[i].wire != w
    ensures Act(snd, Resend(nowMs), cfg).out[w] == snd.out[w]
  {
    if w in DueWires(snd.lane.outstanding, nowMs, cfg) { DueWiresFromFrames(snd.lane.outstanding, nowMs, cfg, w); }
  }

  /**
   In every reachable state: DueResends sends one copy more of a frame in flight iff its time has come and it has attempts
   left, none of any other, and the lane fails iff some frame's time has come with none left.
   */
  lemma ResentExactlyWhen(run: seq<System>, cfg: Configs, nowMs: int, i: nat)
    requires cfg.Valid() && Run(run, cfg)
    requires |run[|run| - 1].x.sent| < U32 && i < |run[|run| - 1].x.lane.outstanding|
    ensures var x := run[|run| - 1].x;
      var o, t := x.lane.outstanding[i], Act(x, Resend(nowMs), cfg.x);
      && t.out[o.wire] - x.out[o.wire] == (if nowMs >= o.nextResendMs && o.attempts < cfg.x.maxAttempts then 1 else 0)
      && t.lane.failed == (
           || x.lane.failed
           || exists j :: 0 <= j < |x.lane.outstanding| && nowMs >= x.lane.outstanding[j].nextResendMs
                          && x.lane.outstanding[j].attempts >= cfg.x.maxAttempts)
      && forall w :: (forall j :: 0 <= j < |x.lane.outstanding| ==> x.lane.outstanding[j].wire != w) ==> t.out[w] == x.out[w]
  {
    RunKeepsInv(run, cfg);
    var x := run[|run| - 1].x;
    ResendExactly(x, nowMs, cfg.x, i);
    FailsWhen(x.lane.outstanding, nowMs, cfg.x);
    forall w | forall j :: 0 <= j < |x.lane.outstanding| ==> x.lane.outstanding[j].wire != w
      ensures Act(x, Resend(nowMs), cfg.x).out[w] == x.out[w]
    {
      NothingElseResent(x, nowMs, cfg.x, w);
    }
  }

  // ------------------------------------------------------------ a frame's timer

  /** Frame `q` is in flight, sent `k` times, its next time at `dueMs`, passed by `skips` acks since it last went out. */
  ghost predicate Waits(snd: Side, q: uint32, k: int, dueMs: int, skips: int) {
    exists i :: 0 <= i < |snd.lane.outstanding| && Is(snd.lane.outstanding[i], q, k, dueMs, skips)
  }

  predicate Is(o: Outstanding, q: uint32, k: int, dueMs: int, skips: int) {
    o.seqNo == q && o.attempts == k && o.nextResendMs == dueMs && o.skips == skips
  }

  function Copies(snd: Side, q: uint32): nat
    requires 1 <= q <= |snd.sent| < U32
  {
    TimesSent(snd.out, snd.sent, q)
  }

  lemma WaitsAt(snd: Side, q: uint32, k: int, dueMs: int, skips: int, cfg: LaneConfig) returns (i: nat)
    requires |snd.sent| < U32 && SenderOk(snd, cfg) && Waits(snd, q, k, dueMs, skips)
    ensures i < |snd.lane.outstanding| && Is(snd.lane.outstanding[i], q, k, dueMs, skips)
    ensures 1 <= q <= |snd.sent| && snd.lane.outstanding[i].wire == Frame(snd.sent, q) && Copies(snd, q) == k
  {
    i :| 0 <= i < |snd.lane.outstanding| && Is(snd.lane.outstanding[i], q, k, dueMs, skips);
    assert FrameOk(snd.lane.outstanding[i], snd.sent, snd.out, cfg);
  }

  /** A frame just wrapped went out once, and is due a timeout later. */
  lemma WrapStartsTimer(snd: Side, inner: Bytes, nowMs: int, cfg: LaneConfig)
    requires cfg.Valid() && |snd.sent| + 1 < U32 && SenderOk(snd, cfg) && |snd.lane.outstanding| < cfg.window
    ensures var t, q := Act(snd, Wrap(inner, nowMs), cfg), |snd.sent| + 1;
      && SenderOk(t, cfg) && |t.sent| == q && Copies(t, q) == 1 && Waits(t, q, 1, nowMs + snd.lane.rtt.rtoMs, 0)
  {
    WrapKeepsSender(snd, inner, nowMs, cfg);
    hide EncodeLaneData;
    var t, q := Act(snd, Wrap(inner, nowMs), cfg), |snd.sent| + 1;
    assert Is(t.lane.outstanding[|snd.lane.outstanding|], q, 1, nowMs + snd.lane.rtt.rtoMs, 0);
    var i := WaitsAt(t, q, 1, nowMs + snd.lane.rtt.rtoMs, 0, cfg);
  }

  /** An ack that says nothing of frame `q`: neither that it came, nor that a later one did. */
  ghost predicate SaysNothingOf(ack: LaneAck, q: uint32) {
    forall n: uint32 :: n >= q ==> !Acked(ack, n)
  }

  /** Such an action leaves the frame to wait. */
  ghost predicate LeavesWaiting(act: Action, q: uint32, dueMs: int) {
    && (act.Resend? ==> act.nowMs < dueMs)
    && (act.Receive? && DecodeLaneAck(act.wire).Some? ==> SaysNothingOf(DecodeLaneAck(act.wire).value, q))
  }

  lemma {:induction false} HighestIsAcked(ack: LaneAck, bits: nat)
    requires bits <= SELECTIVE_BITS
    ensures Acked(ack, HighestAcked(ack, bits))
  {
    if bits > 0 && !Bit(ack.selective, bits - 1) { HighestIsAcked(ack, bits - 1); }
  }

  /** Whatever an end does keeps its sending side in order, while its numbers last. */
  lemma ActKeepsSenderOk(snd: Side, act: Action, cfg: LaneConfig)
    requires cfg.Valid() && |snd.sent| < U32 && SenderOk(snd, cfg) && |Act(snd, act, cfg).sent| < U32
    ensures SenderOk(Act(snd, act, cfg), cfg) && snd.sent <= Act(snd, act, cfg).sent
  {
    var t := Act(snd, act, cfg);
    match act {
      case Wrap(inner, nowMs) => if t != snd { WrapKeepsSender(snd, inner, nowMs, cfg); }
      case Resend(nowMs) => ResendKeepsSender(snd, nowMs, cfg);
      case Probe => QuietKeepsSender(snd, t, EncodeLaneAck(LaneAck(0, 0)), cfg);
      case Receive(wire, nowMs) => ReceiveKeepsSenderOk(snd, wire, nowMs, cfg);
    }
  }

  lemma ReceiveKeepsSenderOk(snd: Side, wire: Bytes, nowMs: int, cfg: LaneConfig)
    requires cfg.Valid() && |snd.sent| < U32 && SenderOk(snd, cfg)
    ensures SenderOk(Act(snd, Receive(wire, nowMs), cfg), cfg) && Act(snd, Receive(wire, nowMs), cfg).sent == snd.sent
  {
    var t := Act(snd, Receive(wire, nowMs), cfg);
    if DecodeLaneAck(wire).Some? {
      var ack := DecodeLaneAck(wire).value;
      UnackedFrames(snd.lane.outstanding, ack, HighestAcked(ack, SELECTIVE_BITS), nowMs, cfg.fastSkips, snd.sent, snd.out, cfg);
      hide FramesOk, DataOk, AttemptsBounded, Unacked, HighestAcked, SampledAll, DecodeLaneAck, DecodeLaneData;
    } else if DecodeLaneData(wire).Some? {
      var lane := t.lane;
      var extra := EncodeLaneAck(AckFor(lane.rxCumulative, lane.rxHold));
      QuietKeepsSender(snd, t, extra, cfg);
      hide SenderOk;
    }
  }

  lemma AckLeavesWaiting(snd: Side, ack: LaneAck, nowMs: int, q: uint32, k: int, dueMs: int, skips: int, cfg: LaneConfig)
    requires cfg.Valid() && Waits(snd, q, k, dueMs, skips) && SaysNothingOf(ack, q)
    ensures Waits(snd.(lane := AfterAck(snd.lane, ack, nowMs, cfg)), q, k, dueMs, skips)
  {
    var frames, hi := snd.lane.outstanding, HighestAcked(ack, SELECTIVE_BITS);
    var i :| 0 <= i < |frames| && Is(frames[i], q, k, dueMs, skips);
    HighestIsAcked(ack, SELECTIVE_BITS);
    var from := UnackedFrom(frames, ack, hi, nowMs, cfg.fastSkips);
    assert !Acked(ack, frames[i].seqNo);
    var j :| 0 <= j < |from| && from[j] == i;
    var t := snd.(lane := AfterAck(snd.lane, ack, nowMs, cfg));
    assert Is(t.lane.outstanding[j], q, k, dueMs, skips);
  }

  lemma OneActLeavesWaiting(snd: Side, act: Action, q: uint32, k: int, dueMs: int, skips: int, cfg: LaneConfig)
    requires cfg.Valid() && |snd.sent| < U32 && SenderOk(snd, cfg) && Waits(snd, q, k, dueMs, skips)
    requires LeavesWaiting(act, q, dueMs)
    ensures Waits(Act(snd, act, cfg), q, k, dueMs, skips)
  {
    var t := Act(snd, act, cfg);
    var i := WaitsAt(snd, q, k, dueMs, skips, cfg);
    match act {
      case Wrap(inner, nowMs) =>
        assert t.lane.outstanding[i] == snd.lane.outstanding[i];
      case Resend(nowMs) =>
        ResendExactly(snd, nowMs, cfg, i);
        assert Is(t.lane.outstanding[i], q, k, dueMs, skips);
      case Probe =>
      case Receive(wire, nowMs) =>
        if DecodeLaneAck(wire).Some? {
          AckLeavesWaiting(snd, DecodeLaneAck(wire).value, nowMs, q, k, dueMs, skips, cfg);
        }
        hide AfterAck, Waits, SaysNothingOf, DecodeLaneAck, DecodeLaneData;
        assert DecodeLaneAck(wire).None? ==> t.lane.outstanding == snd.lane.outstanding;
        SameFramesWait(snd, t, q, k, dueMs, skips);
    }
  }

  lemma SameFramesWait(a: Side, b: Side, q: uint32, k: int, dueMs: int, skips: int)
    ensures a.lane.outstanding == b.lane.outstanding ==> (Waits(a, q, k, dueMs, skips) <==> Waits(b, q, k, dueMs, skips))
  {
  }

  /** One end's actions, one after another. */
  function Acted(snd: Side, acts: seq<Action>, cfg: LaneConfig): Side
    requires cfg.Valid()
  {
    if acts == [] then snd else Act(Acted(snd, acts[..|acts| - 1], cfg), acts[|acts| - 1], cfg)
  }

  lemma {:induction false} SentGrows(snd: Side, acts: seq<Action>, cfg: LaneConfig)
    requires cfg.Valid()
    ensures snd.sent <= Acted(snd, acts, cfg).sent
  {
    if acts != [] { SentGrows(snd, acts[..|acts| - 1], cfg); }
  }

  /** Nor is it resent before its time, whatever else the lane sends and hears, as long as no ack speaks of it. */
  lemma {:induction false} NotBeforeItsTime(snd: Side, acts: seq<Action>, q: uint32, k: int, dueMs: int, skips: int, cfg: LaneConfig)
    requires cfg.Valid() && |snd.sent| <= |Acted(snd, acts, cfg).sent| < U32 && SenderOk(snd, cfg) && Waits(snd, q, k, dueMs, skips)
    requires forall i :: 0 <= i < |acts| ==> LeavesWaiting(acts[i], q, dueMs)
    ensures var t := Acted(snd, acts, cfg);
      && SenderOk(t, cfg) && Waits(t, q, k, dueMs, skips) && 1 <= q <= |snd.sent| <= |t.sent| && Copies(t, q) == Copies(snd, q) == k
  {
    var i := WaitsAt(snd, q, k, dueMs, skips, cfg);
    if acts != [] {
      hide Act, SenderOk, Waits, LeavesWaiting, Is;
      var front, act := acts[..|acts| - 1], acts[|acts| - 1];
      var b := Acted(snd, front, cfg);
      SentGrows(snd, front, cfg);
      SentGrows(b, [act], cfg);
      assert Acted(b, [act], cfg) == Act(b, act, cfg) by { assert [act][..0] == []; }
      NotBeforeItsTime(snd, front, q, k, dueMs, skips, cfg);
      ActKeepsSenderOk(b, act, cfg);
      OneActLeavesWaiting(b, act, q, k, dueMs, skips, cfg);
      var j := WaitsAt(Act(b, act, cfg), q, k, dueMs, skips, cfg);
    }
  }

  /** And at the first call from then on it is, once, if it has attempts left; after its k-th transmission the wait is min(rto * 2^(k-1), max_rto). */
  lemma ResentAtItsTime(snd: Side, nowMs: int, q: uint32, k: int, dueMs: int, skips: int, cfg: LaneConfig)
    requires cfg.Valid() && |snd.sent| < U32 && SenderOk(snd, cfg) && Waits(snd, q, k, dueMs, skips) && 1 <= k
    requires nowMs >= dueMs
    ensures 1 <= q <= |snd.sent|
    ensures var t := Act(snd, Resend(nowMs), cfg);
      if k < cfg.maxAttempts then
        Copies(t, q) == k + 1 && Waits(t, q, k + 1, nowMs + Min(snd.lane.rtt.rtoMs * Pow2(k), cfg.maxRtoMs), 0)
      else
        Copies(t, q) == k && t.lane.failed
  {
    var i := WaitsAt(snd, q, k, dueMs, skips, cfg);
    ResendExactly(snd, nowMs, cfg, i);
    FailsWhen(snd.lane.outstanding, nowMs, cfg);
    hide RetriedAll, DueWires, EncodeLaneData, SenderOk;
    var t := Act(snd, Resend(nowMs), cfg);
    assert k < cfg.maxAttempts ==> Is(t.lane.outstanding[i], q, k + 1, nowMs + Min(snd.lane.rtt.rtoMs * Pow2(k), cfg.maxRtoMs), 0);
  }

  /**
   The life of a frame no ack speaks of: one copy until its timeout after Wrap, then one more at the first call from then
   on, and the next wait is twice as long.
   */
  lemma FirstResend(snd: Side, inner: Bytes, sentMs: int, acts: seq<Action>, nowMs: int, cfg: LaneConfig)
    requires cfg.Valid() && |snd.sent| + 1 < U32 && SenderOk(snd, cfg) && |snd.lane.outstanding| < cfg.window
    requires var w := Act(snd, Wrap(inner, sentMs), cfg); |Acted(w, acts, cfg).sent| < U32
    requires forall i :: 0 <= i < |acts| ==> LeavesWaiting(acts[i], |snd.sent| + 1, sentMs + snd.lane.rtt.rtoMs)
    requires nowMs >= sentMs + snd.lane.rtt.rtoMs && 1 < cfg.maxAttempts
    ensures var q, t := |snd.sent| + 1, Acted(Act(snd, Wrap(inner, sentMs), cfg), acts, cfg);
      && q <= |t.sent| < U32 && Copies(t, q) == 1
      && var u := Act(t, Resend(nowMs), cfg);
      |u.sent| == |t.sent| && Copies(u, q) == 2 && Waits(u, q, 2, nowMs + Min(2 * t.lane.rtt.rtoMs, cfg.maxRtoMs), 0)
  {
    hide SenderOk, Waits, LeavesWaiting, Copies, Act, Acted, TimesSent, Pow2;
    WrapStartsTimer(snd, inner, sentMs, cfg);
    var w, q := Act(snd, Wrap(inner, sentMs), cfg), |snd.sent| + 1;
    SentGrows(w, acts, cfg);
    NotBeforeItsTime(w, acts, q, 1, sentMs + snd.lane.rtt.rtoMs, 0, cfg);
    var t := Acted(w, acts, cfg);
    ResentAtItsTime(t, nowMs, q, 1, sentMs + snd.lane.rtt.rtoMs, 0, cfg);
    assert Pow2(1) == 2 by { PowerOfOne(); }
    ResendKeepsSent(t, nowMs, cfg);
  }

  lemma PowerOfOne()
    ensures Pow2(1) == 2
  {
  }

  lemma ResendKeepsSent(snd: Side, nowMs: int, cfg: LaneConfig)
    requires cfg.Valid()
    ensures Act(snd, Resend(nowMs), cfg).sent == snd.sent
  {
  }

  // ------------------------------------------------------------ fast resend

  /** An ack that passes frame `q` by: not for it, but for a later one. */
  ghost predicate Passes(ack: LaneAck, q: uint32) {
    !Acked(ack, q) && exists n: uint32 :: n > q && Acked(ack, n)
  }

  lemma {:induction false} HighestIsHighest(ack: LaneAck, bits: nat, n: uint32)
    requires bits <= SELECTIVE_BITS && ack.cumulative + 2 + SELECTIVE_BITS <= U32
    requires ack.cumulative + 2 <= n < ack.cumulative + 2 + bits && Bit(ack.selective, n - ack.cumulative - 2)
    ensures HighestAcked(ack, bits) >= n
  {
    if !Bit(ack.selective, bits - 1) { HighestIsHighest(ack, bits - 1, n); }
  }

  /** The frame's count of acks that passed it goes up; at fast_retransmit_skips it is due there and then. */
  lemma PassedByOne(snd: Side, ack: LaneAck, nowMs: int, q: uint32, k: int, dueMs: int, skips: int, cfg: LaneConfig)
    requires cfg.Valid() && Waits(snd, q, k, dueMs, skips) && Passes(ack, q) && ack.cumulative + 2 + SELECTIVE_BITS <= U32
    ensures Waits(snd.(lane := AfterAck(snd.lane, ack, nowMs, cfg)), q, k, if skips + 1 == cfg.fastSkips then nowMs else dueMs, skips + 1)
  {
    var frames, hi := snd.lane.outstanding, HighestAcked(ack, SELECTIVE_BITS);
    var i :| 0 <= i < |frames| && Is(frames[i], q, k, dueMs, skips);
    var n: uint32 :| n > q && Acked(ack, n);
    AckedMeans(ack, n);
    HighestIsHighest(ack, SELECTIVE_BITS, n);
    var from := UnackedFrom(frames, ack, hi, nowMs, cfg.fastSkips);
    var j :| 0 <= j < |from| && from[j] == i;
    var t := snd.(lane := AfterAck(snd.lane, ack, nowMs, cfg));
    assert Is(t.lane.outstanding[j], q, k, if skips + 1 == cfg.fastSkips then nowMs else dueMs, skips + 1);
  }

  /** These acks, one after another, heard at these times. */
  function Heard(snd: Side, acks: seq<(LaneAck, int)>, cfg: LaneConfig): Side
    requires cfg.Valid()
  {
    if acks == [] then snd
    else
      var before, last := Heard(snd, acks[..|acks| - 1], cfg), acks[|acks| - 1];
      before.(lane := AfterAck(before.lane, last.0, last.1, cfg))
  }

  /** Fewer acks than the reordering tolerance leave the timer alone; the one that reaches it makes the frame due. */
  lemma {:induction false} FastResend(snd: Side, acks: seq<(LaneAck, int)>, q: uint32, k: int, dueMs: int, cfg: LaneConfig)
    requires cfg.Valid() && Waits(snd, q, k, dueMs, 0) && 1 <= |acks| <= cfg.fastSkips
    requires forall i :: 0 <= i < |acks| ==> Passes(acks[i].0, q) && acks[i].0.cumulative + 2 + SELECTIVE_BITS <= U32
    ensures Waits(Heard(snd, acks, cfg), q, k, if |acks| == cfg.fastSkips then acks[|acks| - 1].1 else dueMs, |acks|)
  {
    hide Waits, Passes, AfterAck;
    var front, last := acks[..|acks| - 1], acks[|acks| - 1];
    if front == [] {
      assert Heard(snd, front, cfg) == snd;
    } else {
      FastResend(snd, front, q, k, dueMs, cfg);
    }
    PassedByOne(Heard(snd, front, cfg), last.0, last.1, q, k, dueMs, |front|, cfg);
  }

  // ------------------------------------------------------------ round trips

  /** Karn's rule: an ack is a sample only of frames that went out once. */
  lemma {:induction false} OnlyCleanSamples(frames: seq<Outstanding>, ack: LaneAck, nowMs: int, r: Rtt, cfg: LaneConfig)
    requires cfg.Valid() && forall i :: 0 <= i < |frames| && Acked(ack, frames[i].seqNo) ==> frames[i].attempts != 1
    ensures SampledAll(frames, ack, nowMs, r, cfg) == r
  {
    if frames != [] { OnlyCleanSamples(frames[..|frames| - 1], ack, nowMs, r, cfg); }
  }

  /** A clean round trip moves SRTT an eighth of the way to it and RTTVAR a quarter of the way to the error, rounded down; the first sets them. */
  lemma SampleMoves(frames: seq<Outstanding>, ack: LaneAck, nowMs: int, r: Rtt, cfg: LaneConfig)
    requires cfg.Valid() && |frames| == 1 && Acked(ack, frames[0].seqNo) && frames[0].attempts == 1
    requires nowMs - frames[0].sentMs >= 1 && r.srttMs >= 0 && r.rttvarMs >= 0
    ensures var t, sample := SampledAll(frames, ack, nowMs, r, cfg), nowMs - frames[0].sentMs;
      && t.haveRtt
      && (!r.haveRtt ==> t.srttMs == sample && 2 * t.rttvarMs <= sample <= 2 * t.rttvarMs + 1)
      && (r.haveRtt ==>
            && 0 <= 7 * r.srttMs + sample - 8 * t.srttMs < 8
            && 0 <= 3 * r.rttvarMs + Max(r.srttMs - sample, sample - r.srttMs) - 4 * t.rttvarMs < 4)
      && cfg.minRtoMs <= t.rtoMs <= cfg.maxRtoMs
      && (cfg.minRtoMs <= t.srttMs + 4 * t.rttvarMs <= cfg.maxRtoMs ==> t.rtoMs == t.srttMs + 4 * t.rttvarMs)
      && (t.srttMs + 4 * t.rttvarMs < cfg.minRtoMs ==> t.rtoMs == cfg.minRtoMs)
      && (t.srttMs + 4 * t.rttvarMs > cfg.maxRtoMs ==> t.rtoMs == cfg.maxRtoMs)
  {
    assert frames[..0] == [];
    assert SampledAll([], ack, nowMs, r, cfg) == r;
  }

  // ------------------------------------------------------------ selective repeat

  /** Every frame of the window that arrives is taken, in order or not; past the window none is. */
  lemma TakenWithinWindow(lane: LaneState, q: uint32, inner: Bytes, cfg: LaneConfig)
    requires lane.rxCumulative + 1 !in lane.rxHold && forall k :: k in lane.rxHold ==> k > lane.rxCumulative
    requires lane.rxCumulative < q && !Has(lane, q)
    ensures var t := AfterData(lane, q, inner, cfg).0;
      && (q <= lane.rxCumulative + cfg.window ==> Has(t, q))
      && (q > lane.rxCumulative + cfg.window ==> t == lane && AfterData(lane, q, inner, cfg).1 == [])
  {
    var hold := lane.rxHold[q := inner];
    DrainedReleases(lane.rxCumulative, hold);
    DrainedReleases(lane.rxCumulative, lane.rxHold);
    hide Drained;
  }
}
