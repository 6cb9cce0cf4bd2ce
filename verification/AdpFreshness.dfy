/**
 A packet counts at most once (src/L1/ReplayWindow.cpp:8-43; src/L1/Connection.cpp:187-211,
 504-551): over any run of an association, what moved the path, kept the peer alive or was
 delivered never does so again, however often and in whatever order copies of it arrive.
 Data goes by its replay window, control packets by their timestamps.
 */
module AdpFreshness {
  import opened Words
  import opened Replay
  import opened Adp
  import opened Association
  import opened AdpProtocol

  // ------------------------------------------------------------ one end's run, whatever arrives

  lemma ActKeepsBackoff(me: Side, act: Action, p: Params)
    requires me.c.timer.backoff >= 0
    ensures Act(me, act, p).c.timer.backoff >= 0
  {
    hide RetransmitIntervalMs, Resent, Emit;
    match act {
      case Tick(nowMs) => BackoffStays(me.c.outstanding, nowMs, me.c.keys, me.c.timer.backoff);
      case Deliver(d, opens, from, nowMs) =>
        DatagramEffect(me.c, d, opens, from, nowMs, p);
        SampledBackoff(me.c.outstanding, d.seqNo, nowMs, me.c.timer);
        hide AfterDatagram;
      case _ =>
    }
  }

  /** The end after these actions; the datagrams that arrive may be any at all. */
  function Acted(me: Side, acts: seq<Action>, p: Params): (r: Side)
    requires me.c.timer.backoff >= 0
    ensures r.c.timer.backoff >= 0
  {
    if acts == [] then me
    else
      var before := Acted(me, acts[..|acts| - 1], p);
      ActKeepsBackoff(before, acts[|acts| - 1], p);
      Act(before, acts[|acts| - 1], p)
  }

  lemma ActedStep(me: Side, acts: seq<Action>, i: nat, p: Params)
    requires me.c.timer.backoff >= 0 && i < |acts|
    ensures Acted(me, acts[..i + 1], p) == Act(Acted(me, acts[..i], p), acts[i], p)
  {
    assert acts[..i + 1][..i] == acts[..i];
  }

  /** An end of a run of two is such an end, and what arrived at it is what its peer had sent. */
  lemma {:induction false} RunIsActed(run: seq<System>, p: Both) returns (acts: seq<Action>)
    requires Run(run, p)
    ensures run[0].y.c.timer.backoff >= 0 && run[|run| - 1].y == Acted(run[0].y, acts, p.y)
    ensures forall i :: 0 <= i < |acts| && acts[i].Deliver? ==> acts[i].d in run[|run| - 1].x.c.wire
  {
    hide Act, Starts;
    FreshBackoff(run[0], p);
    if |run| == 1 {
      acts := [];
    } else {
      var front := run[..|run| - 1];
      assert forall i :: 0 <= i < |front| - 1 ==> Next(front[i], front[i + 1], p);
      acts := RunIsActed(front, p);
      acts := OneMoreActed(run[0].y, acts, run[|run| - 2], run[|run| - 1], p);
    }
  }

  /** Whichever end comes first: a run with its ends swapped is a run. */
  lemma SwappedIsRun(run: seq<System>, p: Both) returns (swapped: seq<System>)
    requires Run(run, p)
    ensures |swapped| == |run| && forall i :: 0 <= i < |run| ==> swapped[i] == System(run[i].y, run[i].x)
    ensures Run(swapped, Both(p.y, p.x))
  {
    hide Act;
    var q := Both(p.y, p.x);
    swapped := seq(|run|, i requires 0 <= i < |run| => System(run[i].y, run[i].x));
    var key, px, py :| run[0] == System(FreshSide(p.x, key, py), FreshSide(p.y, key, px));
    assert swapped[0] == System(FreshSide(q.x, key, px), FreshSide(q.y, key, py));
    forall i | 0 <= i < |run| - 1
      ensures Next(swapped[i], swapped[i + 1], q)
    {
      SwappedStep(run[i], run[i + 1], p);
    }
  }

  lemma SwappedStep(s: System, t: System, p: Both)
    requires Next(s, t, p)
    ensures Next(System(s.y, s.x), System(t.y, t.x), Both(p.y, p.x))
  {
    hide Act;
    var act: Action :|
      || (Possible(s.y, act) && t == System(Act(s.x, act, p.x), s.y))
      || (Possible(s.x, act) && t == System(s.x, Act(s.y, act, p.y)));
    var u, v, q := System(s.y, s.x), System(t.y, t.x), Both(p.y, p.x);
    assert (Possible(u.y, act) && v == System(Act(u.x, act, q.x), u.y)) || (Possible(u.x, act) && v == System(u.x, Act(u.y, act, q.y)));
  }

  lemma FreshBackoff(s: System, p: Both)
    requires Starts(s, p)
    ensures s.y.c.timer.backoff >= 0
  {
  }

  lemma OneMoreActed(start: Side, acts: seq<Action>, s: System, t: System, p: Both) returns (more: seq<Action>)
    requires start.c.timer.backoff >= 0 && s.y == Acted(start, acts, p.y) && Next(s, t, p)
    requires forall i :: 0 <= i < |acts| && acts[i].Deliver? ==> acts[i].d in s.x.c.wire
    ensures t.y == Acted(start, more, p.y)
    ensures forall i :: 0 <= i < |more| && more[i].Deliver? ==> more[i].d in t.x.c.wire
  {
    hide Act;
    var act: Action :|
      || (Possible(s.y, act) && t == System(Act(s.x, act, p.x), s.y))
      || (Possible(s.x, act) && t == System(s.x, Act(s.y, act, p.y)));
    if Possible(s.x, act) && t == System(s.x, Act(s.y, act, p.y)) {
      more := acts + [act];
      assert more[..|more| - 1] == acts;
    } else {
      more := acts;
      WireGrows(s.x, act, p.x);
    }
  }

  lemma WireGrows(me: Side, act: Action, p: Params)
    requires me.c.timer.backoff >= 0
    ensures me.c.wire <= Act(me, act, p).c.wire
  {
    hide RetransmitIntervalMs, Resent, Emit, Arrived, Judge, AckSampled, AcceptSkew, AfterHeard, AfterAccept, Without;
  }

  // ------------------------------------------------------------ the windows of a run

  ghost predicate WindowsOk(c: Conn) {
    Valid(c.rxBe) && c.rxBe.slides && Valid(c.rx.window) && !c.rx.window.slides
  }

  predicate IsData(t: PacketType) {
    IsReliable(t) || t.DataBestEffort? || t.PlainBestEffort?
  }

  /** Whether the window of its kind has seen the data packet. */
  predicate SeenBy(c: Conn, d: Datagram) {
    Seen(if IsReliable(d.kind) then c.rx.window else c.rxBe, d.seqNo)
  }

  lemma TakenInWindow(rx: Rx, m: Message, reliableWindow: nat)
    requires Valid(rx.window) && !rx.window.slides
    ensures var (t, isFresh, ack) := Arrived(rx, m, reliableWindow);
      && (t.window == rx.window || t.window == AfterAccept(rx.window, m.seqNo).0)
      && (t != rx || isFresh ==> !Seen(rx.window, m.seqNo) && Seen(t.window, m.seqNo) && t.window != rx.window)
  {
    AcceptMeans(rx.window, m.seqNo);
    hide Valid, AfterAccept, Released;
  }

  /** No action spoils a window or makes it forget. */
  lemma ActKeepsSeen(me: Side, act: Action, p: Params)
    requires me.c.timer.backoff >= 0 && WindowsOk(me.c)
    ensures var c := Act(me, act, p).c;
      && WindowsOk(c)
      && (forall n: nat :: Seen(me.c.rxBe, n) ==> Seen(c.rxBe, n))
      && (forall n: nat :: Seen(me.c.rx.window, n) ==> Seen(c.rx.window, n))
  {
    hide RetransmitIntervalMs, Emit, Resent, AckSampled, AcceptSkew, AfterHeard, Without, Seen, Valid, AfterAccept;
    if act.Deliver? {
      var m := Message(act.d.seqNo, IsSealed(act.d.kind), act.d.payload);
      AcceptMeans(me.c.rxBe, act.d.seqNo);
      AcceptMeans(me.c.rx.window, act.d.seqNo);
      TakenInWindow(me.c.rx, m, p.reliableWindow);
      hide Arrived, Judge;
    }
  }

  lemma {:induction false} ActedKeepsSeen(me: Side, acts: seq<Action>, i: nat, p: Params)
    requires me.c.timer.backoff >= 0 && WindowsOk(me.c) && i <= |acts|
    ensures var b, c := Acted(me, acts[..i], p).c, Acted(me, acts, p).c;
      && WindowsOk(b) && WindowsOk(c)
      && (forall n: nat :: Seen(b.rxBe, n) ==> Seen(c.rxBe, n))
      && (forall n: nat :: Seen(b.rx.window, n) ==> Seen(c.rx.window, n))
    decreases |acts|
  {
    hide Act, Seen, Valid, WindowsOk;
    if acts == [] {
      assert acts[..i] == acts;
    } else {
      var front := acts[..|acts| - 1];
      if i < |acts| { assert acts[..i] == front[..i]; } else { assert acts[..i] == acts; }
      ActedKeepsSeen(me, front, if i < |acts| then i else |front|, p);
      ActKeepsSeen(Acted(me, front, p), acts[|acts| - 1], p);
    }
  }

  lemma FreshWindows(p: Params, key: nat, peer: nat)
    ensures var me := FreshSide(p, key, peer);
      WindowsOk(me.c) && me.c.timer.backoff >= 0 && me.c.wire == [] && !me.c.path.haveStamp
  {
  }

  // ------------------------------------------------------------ data counts once

  /** The step counted for something: the path or liveness moved, a window took a number, a message was delivered or held. */
  predicate Counted(b: Conn, t: Conn) {
    || t.path.lastAuthRxMs != b.path.lastAuthRxMs || t.path.peer != b.path.peer
    || t.rx != b.rx || t.rxBe != b.rxBe || t.bestEffort != b.bestEffort
  }

  lemma OnlyTheUnseenCounts(c: Conn, d: Datagram, opens: bool, from: nat, nowMs: int, p: Params)
    requires WindowsOk(c) && IsData(d.kind)
    ensures var t := AfterDatagram(c, d, opens, from, nowMs, p);
      Counted(c, t) ==> !SeenBy(c, d) && SeenBy(t, d)
  {
    hide AcceptSkew, Emit, Valid, NewerStamp;
    AcceptMeans(c.rxBe, d.seqNo);
    TakenInWindow(c.rx, Message(d.seqNo, IsSealed(d.kind), d.payload), p.reliableWindow);
    hide Arrived, AfterAccept, Judge, Seen;
  }

  /** Once a reliable number was seen, a copy of its packet changes nothing but the ack it draws: no delivery, no liveness, no path. */
  lemma SeenPacketOnlyAcked(c: Conn, d: Datagram, opens: bool, from: nat, nowMs: int, p: Params)
    requires IsReliable(d.kind) && Seen(c.rx.window, d.seqNo)
    ensures var t := AfterDatagram(c, d, opens, from, nowMs, p);
      && t.rx == c.rx && t.outstanding == c.outstanding && t.timer == c.timer && t.keys == c.keys
      && t.path.lastAuthRxMs == c.path.lastAuthRxMs && t.path.peer == c.path.peer
      && (t.wire == c.wire || exists key :: t.wire == c.wire + [AckOf(c, d.seqNo, nowMs, key)])
  {
    hide AcceptSkew, Emit;
    var t := AfterDatagram(c, d, opens, from, nowMs, p);
    assert t.wire == c.wire || t.wire == c.wire + [AckOf(c, d.seqNo, nowMs, c.keys.binder)]
        || (c.keys.preUpgrade.Some? && t.wire == c.wire + [AckOf(c, d.seqNo, nowMs, c.keys.preUpgrade.value)]);
  }

  /** Nor does a copy of a best-effort packet already seen: nothing is handed up, nobody is kept alive, no path moves, nothing is sent. */
  lemma SeenBestEffortMovesNothing(c: Conn, d: Datagram, opens: bool, from: nat, nowMs: int, p: Params)
    requires (d.kind.DataBestEffort? || d.kind.PlainBestEffort?) && Valid(c.rxBe) && Seen(c.rxBe, d.seqNo)
    ensures var t := AfterDatagram(c, d, opens, from, nowMs, p);
      && t.bestEffort == c.bestEffort && t.rxBe == c.rxBe && t.rx == c.rx && t.wire == c.wire
      && t.path.lastAuthRxMs == c.path.lastAuthRxMs && t.path.peer == c.path.peer
      && t.outstanding == c.outstanding && t.keys == c.keys && t.timer == c.timer
  {
    AcceptMeans(c.rxBe, d.seqNo);
    hide AcceptSkew, Emit, AfterAccept, NewerStamp;
  }

  predicate SameData(d: Datagram, e: Datagram) {
    IsData(d.kind) && IsData(e.kind) && IsReliable(d.kind) == IsReliable(e.kind) && d.seqNo == e.seqNo
  }

  /**
   Over any run, from any state an association can be in: once the arrival of a data packet counted for anything, no later
   arrival of its number, sealed or plain, from wherever, ever does. At most it draws an ack.
   */
  lemma DataCountsOnce(me: Side, acts: seq<Action>, i: nat, j: nat, p: Params)
    requires me.c.timer.backoff >= 0 && WindowsOk(me.c)
    requires i < j < |acts| && acts[i].Deliver? && acts[j].Deliver? && SameData(acts[i].d, acts[j].d)
    requires Counted(Acted(me, acts[..i], p).c, Acted(me, acts[..i + 1], p).c)
    ensures var b, t := Acted(me, acts[..j], p).c, Acted(me, acts[..j + 1], p).c;
      && !Counted(b, t) && t.outstanding == b.outstanding && t.timer == b.timer && t.keys == b.keys
      && (t.wire == b.wire || exists key :: t.wire == b.wire + [AckOf(b, acts[j].d.seqNo, acts[j].nowMs, key)])
  {
    hide Act, Acted, Seen, Valid, WindowsOk, AfterDatagram, Counted;
    var d, e := acts[i].d, acts[j].d;
    ActedStep(me, acts, i, p);
    ActedStep(me, acts, j, p);
    ActedKeepsSeen(me, acts[..i], i, p);
    assert acts[..i][..i] == acts[..i] && acts[..j][..i + 1] == acts[..i + 1];
    ActedKeepsSeen(me, acts[..j], i + 1, p);
    DeliverIs(Acted(me, acts[..i], p), acts[i], p);
    DeliverIs(Acted(me, acts[..j], p), acts[j], p);
    OnlyTheUnseenCounts(Acted(me, acts[..i], p).c, d, acts[i].opens, acts[i].from, acts[i].nowMs, p);
    var b := Acted(me, acts[..j], p).c;
    assert SeenBy(b, e);
    SeenNeverCounts(b, e, acts[j].opens, acts[j].from, acts[j].nowMs, p);
  }

  lemma DeliverIs(me: Side, act: Action, p: Params)
    requires act.Deliver? && me.c.timer.backoff >= 0
    ensures Act(me, act, p).c == AfterDatagram(me.c, act.d, act.opens, act.from, act.nowMs, p)
  {
  }

  lemma SeenNeverCounts(c: Conn, e: Datagram, opens: bool, from: nat, nowMs: int, p: Params)
    requires WindowsOk(c) && IsData(e.kind) && SeenBy(c, e)
    ensures var t := AfterDatagram(c, e, opens, from, nowMs, p);
      && !Counted(c, t) && t.outstanding == c.outstanding && t.timer == c.timer && t.keys == c.keys
      && (t.wire == c.wire || exists key :: t.wire == c.wire + [AckOf(c, e.seqNo, nowMs, key)])
  {
    OnlyTheUnseenCounts(c, e, opens, from, nowMs, p);
    if IsReliable(e.kind) { SeenPacketOnlyAcked(c, e, opens, from, nowMs, p); } else { SeenBestEffortMovesNothing(c, e, opens, from, nowMs, p); }
    hide AfterDatagram, Seen, Valid;
  }

  // ------------------------------------------------------------ control packets count once

  const HALF := 0x8000_0000

  /** The time in the 2^31 ms from `base` on that a stamp stands for, if there is one. */
  function TimeOf(base: int, stamp: uint32): int {
    base + Sub32(stamp, TruncTs(base))
  }

  predicate Clocked(base: int, stamp: uint32) {
    TimeOf(base, stamp) < base + HALF
  }

  /** A stamp made in that span says exactly when. */
  lemma TrueTimes(base: int, sentMs: int)
    requires base <= sentMs < base + HALF
    ensures Clocked(base, TruncTs(sentMs)) && TimeOf(base, TruncTs(sentMs)) == sentMs
  {
    var qa, qb := sentMs / U32, base / U32;
    assert sentMs == qa * U32 + TruncTs(sentMs) && base == qb * U32 + TruncTs(base);
    assert qb <= qa <= qb + 1;
  }

  /** Within it the serial comparison of stamps is that of times. */
  lemma StampOrder(base: int, a: uint32, b: uint32)
    requires Clocked(base, a) && Clocked(base, b)
    ensures AsInt32(Sub32(a, b)) > 0 <==> TimeOf(base, a) > TimeOf(base, b)
    ensures a == b <==> TimeOf(base, a) == TimeOf(base, b)
  {
    var z := TruncTs(base);
    assert Sub32(a, z) == a - z || Sub32(a, z) == a - z + U32;
    assert Sub32(b, z) == b - z || Sub32(b, z) == b - z + U32;
    assert Sub32(a, b) == a - b || Sub32(a, b) == a - b + U32;
  }

  /** The datagram passes every check before the switch on its kind (HandleAuthenticated). */
  predicate LetThrough(c: Conn, d: Datagram, opens: bool, nowMs: int, p: Params) {
    if IsSealed(d.kind) then c.keys.sealing && d.auth.Aead? && opens
    else
      && d.auth == Mac(c.keys.binder) && AcceptSkew(d.stamp, nowMs, p.skewMs)
      && !(c.keys.sealing && (d.kind.PlainBestEffort? || d.kind.PlainReliable?))
  }

  /** When the newest of the unsealed packets let through so far was sent. */
  function NewestHeard(me: Side, acts: seq<Action>, p: Params, base: int): Option<int>
    requires me.c.timer.backoff >= 0
  {
    if acts == [] then None
    else
      var front, act := acts[..|acts| - 1], acts[|acts| - 1];
      var newest := NewestHeard(me, front, p, base);
      if act.Deliver? && !IsSealed(act.d.kind) && LetThrough(Acted(me, front, p).c, act.d, act.opens, act.nowMs, p)
         && (newest.None? || TimeOf(base, act.d.stamp) > newest.value)
      then Some(TimeOf(base, act.d.stamp)) else newest
  }

  /** Every unsealed packet that arrives was stamped in the span. */
  ghost predicate AllClocked(acts: seq<Action>, base: int) {
    forall i :: 0 <= i < |acts| && acts[i].Deliver? && !IsSealed(acts[i].d.kind) ==> Clocked(base, acts[i].d.stamp)
  }

  /** The stamp kept is that of the newest packet heard. */
  predicate StampIs(path: Path, newest: Option<int>, base: int) {
    path.haveStamp == newest.Some? && (newest.Some? ==> Clocked(base, path.maxStamp) && TimeOf(base, path.maxStamp) == newest.value)
  }

  /** What a datagram makes of the path. */
  lemma PathAfter(c: Conn, d: Datagram, opens: bool, from: nat, nowMs: int, p: Params)
    ensures var t := AfterDatagram(c, d, opens, from, nowMs, p);
      && (!LetThrough(c, d, opens, nowMs, p) ==> t.path == c.path)
      && (LetThrough(c, d, opens, nowMs, p) && !IsData(d.kind) ==> t.path == AfterHeard(c.path, d, NewerStamp(c.path, d.stamp), from, nowMs))
      && (LetThrough(c, d, opens, nowMs, p) ==> t.path == AfterHeard(c.path, d, true, from, nowMs) || t.path == AfterHeard(c.path, d, false, from, nowMs))
      && (!IsData(d.kind) ==> t.rx == c.rx && t.rxBe == c.rxBe && t.bestEffort == c.bestEffort)
  {
    hide AcceptSkew, Emit, Arrived, AfterAccept, Judge, NewerStamp, AckSampled, Without, AfterHeard;
  }

  lemma {:induction false} StampIsNewest(me: Side, acts: seq<Action>, p: Params, base: int)
    requires me.c.timer.backoff >= 0 && !me.c.path.haveStamp && AllClocked(acts, base)
    ensures StampIs(Acted(me, acts, p).c.path, NewestHeard(me, acts, p, base), base)
  {
    if acts != [] {
      var front, act := acts[..|acts| - 1], acts[|acts| - 1];
      StampIsNewest(me, front, p, base);
      var b := Acted(me, front, p);
      if act.Deliver? {
        hide AfterDatagram, LetThrough, TimeOf, Clocked, Acted;
        DeliverIs(b, act, p);
        PathAfter(b.c, act.d, act.opens, act.from, act.nowMs, p);
        ActedStep(me, acts, |front|, p);
        assert acts[..|front| + 1] == acts;
        if b.c.path.haveStamp && !IsSealed(act.d.kind) { StampOrder(base, act.d.stamp, b.c.path.maxStamp); }
      } else {
        OthersLeavePath(b, act, p);
      }
    }
  }

  lemma OthersLeavePath(me: Side, act: Action, p: Params)
    requires me.c.timer.backoff >= 0 && !act.Deliver?
    ensures Act(me, act, p).c.path == me.c.path
  {
  }

  /** An ack, close or keepalive moves the path and liveness exactly when it was sent after every unsealed packet heard before it. */
  lemma ControlCountsIfNewest(me: Side, acts: seq<Action>, j: nat, p: Params, base: int)
    requires me.c.timer.backoff >= 0 && !me.c.path.haveStamp && AllClocked(acts, base)
    requires j < |acts| && acts[j].Deliver? && !IsData(acts[j].d.kind)
    ensures var act, newest := acts[j], NewestHeard(me, acts[..j], p, base);
      var b, t := Acted(me, acts[..j], p).c, Acted(me, acts[..j + 1], p).c;
      && (LetThrough(b, act.d, act.opens, act.nowMs, p) && (newest.None? || TimeOf(base, act.d.stamp) > newest.value)
          ==> t.path == Path(act.from, act.nowMs, act.d.stamp, true))
      && (!(LetThrough(b, act.d, act.opens, act.nowMs, p) && (newest.None? || TimeOf(base, act.d.stamp) > newest.value))
          ==> t.path == b.path && !Counted(b, t))
  {
    hide AfterDatagram, LetThrough, TimeOf, Clocked, Acted, NewestHeard;
    var b, act := Acted(me, acts[..j], p), acts[j];
    StampIsNewest(me, acts[..j], p, base);
    ActedStep(me, acts, j, p);
    DeliverIs(b, act, p);
    PathAfter(b.c, act.d, act.opens, act.from, act.nowMs, p);
    if b.c.path.haveStamp { StampOrder(base, act.d.stamp, b.c.path.maxStamp); }
  }

  lemma {:induction false} NewestRemembers(me: Side, acts: seq<Action>, i: nat, p: Params, base: int)
    requires me.c.timer.backoff >= 0 && i < |acts| && acts[i].Deliver? && !IsSealed(acts[i].d.kind)
    requires LetThrough(Acted(me, acts[..i], p).c, acts[i].d, acts[i].opens, acts[i].nowMs, p)
    ensures NewestHeard(me, acts, p, base).Some? && NewestHeard(me, acts, p, base).value >= TimeOf(base, acts[i].d.stamp)
    decreases |acts|
  {
    hide LetThrough, TimeOf, Acted;
    var front := acts[..|acts| - 1];
    if i < |front| {
      assert front[..i] == acts[..i];
      NewestRemembers(me, front, i, p, base);
    }
  }

  /**
   Over any run, with the peer's stamps made within 2^31 ms: once an unsealed packet was heard, no control packet sent no
   later than it, itself again included, ever moves the path or liveness, or anything else but what an ack or close is for.
   */
  lemma ControlCountsOnce(me: Side, acts: seq<Action>, i: nat, j: nat, p: Params, base: int)
    requires me.c.timer.backoff >= 0 && !me.c.path.haveStamp && AllClocked(acts, base)
    requires i < j < |acts| && acts[i].Deliver? && acts[j].Deliver? && !IsSealed(acts[i].d.kind) && !IsData(acts[j].d.kind)
    requires LetThrough(Acted(me, acts[..i], p).c, acts[i].d, acts[i].opens, acts[i].nowMs, p)
    requires TimeOf(base, acts[j].d.stamp) <= TimeOf(base, acts[i].d.stamp)
    ensures var b, t := Acted(me, acts[..j], p).c, Acted(me, acts[..j + 1], p).c;
      t.path == b.path && !Counted(b, t)
  {
    hide LetThrough, TimeOf, Acted, NewestHeard, Counted, AllClocked;
    assert acts[..j][..i] == acts[..i];
    NewestRemembers(me, acts[..j], i, p, base);
    ControlCountsIfNewest(me, acts, j, p, base);
  }

  // ------------------------------------------------------------ the peer's stamps

  predicate HasTime(act: Action) {
    act.Send? || act.Tick? || act.Control? || act.Deliver?
  }

  ghost predicate Within(acts: seq<Action>, base: int) {
    forall i :: 0 <= i < |acts| && HasTime(acts[i]) ==> base <= acts[i].nowMs < base + HALF
  }

  /** Every unsealed packet an end sends carries the time it goes out, resends included. */
  lemma StampedNow(me: Side, act: Action, p: Params, d: Datagram)
    requires me.c.timer.backoff >= 0 && d in Act(me, act, p).c.wire && d !in me.c.wire && !IsSealed(d.kind)
    ensures HasTime(act) && d.stamp == TruncTs(act.nowMs)
  {
    hide TruncTs;
    match act {
      case Tick(nowMs) =>
        hide Resent;
        assert d in ResendDatagrams(me.c.outstanding, nowMs, me.c.keys);
        ResendStamp(me.c.outstanding, nowMs, me.c.keys, d);
      case Deliver(e, opens, from, nowMs) =>
        DatagramEffect(me.c, e, opens, from, nowMs, p);
        hide AfterDatagram;
      case Send(reliable, payload, nowMs) =>
        hide RetransmitIntervalMs;
      case _ =>
    }
  }

  lemma {:induction false} ResendStamp(q: seq<Outgoing>, nowMs: int, k: Keys, d: Datagram)
    requires d in ResendDatagrams(q, nowMs, k) && !IsSealed(d.kind)
    ensures d.stamp == TruncTs(nowMs)
  {
    hide TruncTs;
    if d in ResendDatagrams(q[..|q| - 1], nowMs, k) { ResendStamp(q[..|q| - 1], nowMs, k, d); }
  }

  /** So an end whose clock stayed in the span sent only stamps of the span, each telling the true time. */
  lemma {:induction false} SentClocked(me: Side, acts: seq<Action>, p: Params, base: int, d: Datagram)
    requires me.c.timer.backoff >= 0 && me.c.wire == [] && Within(acts, base)
    requires d in Acted(me, acts, p).c.wire && !IsSealed(d.kind)
    ensures Clocked(base, d.stamp)
    ensures exists i :: 0 <= i < |acts| && HasTime(acts[i]) && TimeOf(base, d.stamp) == acts[i].nowMs
  {
    hide Act, Clocked, TimeOf;
    var front, act := acts[..|acts| - 1], acts[|acts| - 1];
    if d in Acted(me, front, p).c.wire {
      SentClocked(me, front, p, base, d);
    } else {
      StampedNow(Acted(me, front, p), act, p, d);
      TrueTimes(base, act.nowMs);
      assert acts[|acts| - 1] == act;
    }
  }

  /** Two ends: if the sender's clock stays within 2^31 ms, the receiver's path follows only newer and newer control packets. */
  lemma ControlCountsOnceBetweenEnds(
    me: Side, acts: seq<Action>, peer: Side, peerActs: seq<Action>, i: nat, j: nat, p: Params, pp: Params, base: int)
    requires me.c.timer.backoff >= 0 && !me.c.path.haveStamp
    requires peer.c.timer.backoff >= 0 && peer.c.wire == [] && Within(peerActs, base)
    requires forall k :: 0 <= k < |acts| && acts[k].Deliver? ==> acts[k].d in Acted(peer, peerActs, pp).c.wire
    requires i < j < |acts| && acts[i].Deliver? && acts[j].Deliver? && !IsData(acts[i].d.kind) && acts[i].d == acts[j].d
    requires Counted(Acted(me, acts[..i], p).c, Acted(me, acts[..i + 1], p).c)
    ensures var b, t := Acted(me, acts[..j], p).c, Acted(me, acts[..j + 1], p).c;
      t.path == b.path && !Counted(b, t)
  {
    hide LetThrough, TimeOf, Acted, NewestHeard, Clocked, AfterDatagram;
    forall k | 0 <= k < |acts| && acts[k].Deliver? && !IsSealed(acts[k].d.kind)
      ensures Clocked(base, acts[k].d.stamp)
    {
      SentClocked(peer, peerActs, pp, base, acts[k].d);
    }
    ActedStep(me, acts, i, p);
    DeliverIs(Acted(me, acts[..i], p), acts[i], p);
    PathAfter(Acted(me, acts[..i], p).c, acts[i].d, acts[i].opens, acts[i].from, acts[i].nowMs, p);
    ControlCountsOnce(me, acts, i, j, p, base);
  }
}
