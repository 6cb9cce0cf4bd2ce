/**
 When an association sends again, under which key, and when it gives up (src/L1/Connection.cpp:82-125, 324-422, 458-493),
 told in times, counts and what is on the wire.
 */
module AdpResends {
  import opened Words
  import opened Replay
  import opened Adp
  import opened Association
  import opened AdpProtocol
  import opened AdpSafety
  import opened AdpFreshness

  // ------------------------------------------------------------ a tick

  /** A Tick sends packet `i` once more iff its time has come and it has resends left; the others not at all. */
  lemma TickResends(s: Side, nowMs: int, p: Params, i: nat)
    requires SenderOk(s, p) && i < |s.c.outstanding| && !s.c.closed
    ensures var o := s.c.outstanding[i];
      Times(Act(s, Tick(nowMs), p).c.wire, o.seqNo) - Times(s.c.wire, o.seqNo) ==
        if nowMs >= o.nextRtxMs && o.attempts < s.c.keys.maxRtx then 1 else 0
  {
    AllReliable(s.c.outstanding, s.sent, s.c.wire, p);
    ResendTimes(s.c.outstanding, nowMs, s.c.keys, i);
    TimesAppend(s.c.wire, ResendDatagrams(s.c.outstanding, nowMs, s.c.keys), s.c.outstanding[i].seqNo);
    hide SenderOk, ResendDatagrams, Times, RetransmitIntervalMs;
  }

  /** How many packets at the front of the queue have no resend left and are past their time. */
  ghost predicate SpentFront(q: seq<Outgoing>, nowMs: int, maxRtx: int, n: nat) {
    && n <= |q| && (forall i :: 0 <= i < n ==> q[i].attempts >= maxRtx && nowMs >= q[i].nextRtxMs)
    && (n < |q| ==> q[n].attempts < maxRtx || nowMs < q[n].nextRtxMs)
  }

  lemma {:induction false} LostIsSpent(q: seq<Outgoing>, nowMs: int, k: Keys)
    ensures SpentFront(q, nowMs, k.maxRtx, LostAtFront(q, nowMs, k))
  {
    if q != [] && q[0].attempts >= k.maxRtx && nowMs >= q[0].nextRtxMs {
      LostIsSpent(q[1..], nowMs, k);
      assert forall i :: 1 <= i < |q| ==> q[i] == q[1..][i - 1];
    }
  }

  /**
   What a Tick leaves: each packet sent again counts one attempt more and waits the interval of its doublings; then those at
   the front with no resend left and past their time are dropped, and counted lost.
   */
  lemma TickLeaves(c: Conn, nowMs: int, p: Params) returns (lost: nat)
    requires !c.closed
    ensures var q, t := c.outstanding, AfterTick(c, nowMs, p);
      && lost <= |q| && |t.outstanding| == |q| - lost && t.counts.reliableLost == c.counts.reliableLost + lost
      && (forall i :: 0 <= i < |t.outstanding| ==>
            var o, again := q[lost + i], nowMs >= q[lost + i].nextRtxMs && q[lost + i].attempts < c.keys.maxRtx;
            && t.outstanding[i] == o.(attempts := t.outstanding[i].attempts, nextRtxMs := t.outstanding[i].nextRtxMs)
            && t.outstanding[i].attempts == o.attempts + (if again then 1 else 0)
            && t.outstanding[i].nextRtxMs ==
                 (if again then nowMs + RetransmitIntervalMs(c.keys, c.timer, p, o.baseBackoff + o.attempts + 1) else o.nextRtxMs))
      && (forall i :: 0 <= i < lost ==>
            || (q[i].attempts >= c.keys.maxRtx && nowMs >= q[i].nextRtxMs)
            || (q[i].attempts + 1 == c.keys.maxRtx && nowMs >= q[i].nextRtxMs
                && RetransmitIntervalMs(c.keys, c.timer, p, q[i].baseBackoff + q[i].attempts + 1) <= 0))
      && (t.outstanding != [] ==> t.outstanding[0].attempts < c.keys.maxRtx || nowMs < t.outstanding[0].nextRtxMs)
  {
    var q := c.outstanding;
    var after := ResentAll(q, nowMs, c.keys, c.timer, p);
    ResentAt(q, nowMs, c.keys, c.timer, p);
    lost := LostAtFront(after, nowMs, c.keys);
    LostFits(after, nowMs, c.keys);
    LostIsSpent(after, nowMs, c.keys);
    hide RetransmitIntervalMs, ResentAll, ResendDatagrams, BackedOff, LostAtFront;
  }

  lemma {:induction false} ShiftIs(x: int, n: nat)
    ensures ShiftLeft(x, n) == x * Pow2(n)
  {
    if n > 0 {
      ShiftIs(x, n - 1);
      Doubles(x, Pow2(n - 1));
    }
  }

  lemma Doubles(x: int, y: int)
    ensures x * (2 * y) == 2 * (x * y)
  {
  }

  /** The wait before a resend in numbers: authenticated min(rto * 2^min(d, 8), max(2000, rtx)), a dialer rtx * 2^min(d, 16), else rtx. */
  lemma IntervalIs(k: Keys, t: Timer, p: Params, d: nat)
    ensures var rtx := p.rtxIntervalMs;
      var rto := if t.srttMs < 0 then rtx else Max(rtx, Min(t.srttMs + Max(10, 4 * t.rttvarMs), Max(2000, rtx)));
      RetransmitIntervalMs(k, t, p, d) ==
        if k.authenticated then Min(rto * Pow2(if d < 8 then d else 8), Max(2000, rtx))
        else if p.dialerBackoff then rtx * Pow2(if d < 16 then d else 16)
        else rtx
  {
    ShiftIs(RtoMs(t, p), Min(d, MAX_BACKOFF));
    ShiftIs(p.rtxIntervalMs, Min(d, 16));
  }

  /** A new reliable packet is due the interval of the back-off it starts from after it went out, with no attempt counted. */
  lemma SendStartsTimer(c: Conn, payload: Bytes, nowMs: int, p: Params)
    requires c.timer.backoff >= 0 && AfterSend(c, true, payload, nowMs, p).1.Ok?
    ensures var t, base := AfterSend(c, true, payload, nowMs, p).0, if c.keys.authenticated then c.timer.backoff else 0;
      && |t.outstanding| == |c.outstanding| + 1 && t.txRel == c.txRel + 1
      && var o := t.outstanding[|c.outstanding|];
      && o.seqNo == c.txRel + 1 && o.attempts == 0 && o.firstSentMs == nowMs && o.baseBackoff == base && o.payload == payload
      && o.nextRtxMs == nowMs + RetransmitIntervalMs(c.keys, c.timer, p, base)
  {
    hide RetransmitIntervalMs;
  }

  // ------------------------------------------------------------ resends before keys

  /** A reliable packet in the clear. */
  predicate IsClear(d: Datagram) {
    d.kind.PlainReliable?
  }

  /** How many reliable packets went out before the first Upgrade. */
  function SentEarly(me: Side, acts: seq<Action>, p: Params): nat
    requires me.c.timer.backoff >= 0
  {
    if acts == [] then me.c.txRel
    else
      var front := acts[..|acts| - 1];
      if Acted(me, front, p).c.keys.preUpgrade.Some? then SentEarly(me, front, p) else Acted(me, acts, p).c.txRel
  }

  /** The first key is kept, and it is the one every early packet goes out under in the clear. */
  ghost predicate FirstKeyKept(c: Conn, key: nat, early: nat) {
    && early <= c.txRel
    && (if c.keys.preUpgrade.Some? then c.keys.preUpgrade.value == key else c.keys.binder == key && early == c.txRel)
    && (forall i :: 0 <= i < |c.outstanding| ==>
          && (c.outstanding[i].beforeUpgrade <==> c.outstanding[i].seqNo <= early)
          && c.outstanding[i].seqNo <= c.txRel)
    && (forall d :: d in c.wire && IsClear(d) && d.seqNo <= early ==> d.auth == Mac(key))
    && (forall d :: d in c.wire && IsClear(d) ==> d.seqNo <= c.txRel)
  }

  lemma {:induction false} ResendAuth(q: seq<Outgoing>, nowMs: int, k: Keys, key: nat, early: nat, d: Datagram)
    requires d in ResendDatagrams(q, nowMs, k) && IsClear(d)
    requires if k.preUpgrade.Some? then k.preUpgrade.value == key else k.binder == key
    requires forall i :: 0 <= i < |q| ==> (q[i].beforeUpgrade <==> q[i].seqNo <= early)
    ensures d.seqNo <= early ==> d.auth == Mac(key)
    ensures exists i :: 0 <= i < |q| && q[i].seqNo == d.seqNo
  {
    var n := |q| - 1;
    if d in ResendDatagrams(q[..n], nowMs, k) {
      ResendAuth(q[..n], nowMs, k, key, early, d);
      var i :| 0 <= i < n && q[..n][i].seqNo == d.seqNo;
      assert q[i].seqNo == d.seqNo;
    } else {
      assert q[n].seqNo == d.seqNo;
    }
  }

  lemma TickKeepsFirstKey(c: Conn, nowMs: int, p: Params, key: nat, early: nat)
    requires FirstKeyKept(c, key, early)
    ensures FirstKeyKept(AfterTick(c, nowMs, p), key, early)
  {
    if !c.closed {
      var q := c.outstanding;
      var after, more := ResentAll(q, nowMs, c.keys, c.timer, p), ResendDatagrams(q, nowMs, c.keys);
      ResentAt(q, nowMs, c.keys, c.timer, p);
      LostFits(after, nowMs, c.keys);
      forall d | d in more && IsClear(d)
        ensures (d.seqNo <= early ==> d.auth == Mac(key)) && d.seqNo <= c.txRel
      {
        ResendAuth(q, nowMs, c.keys, key, early, d);
      }
      hide RetransmitIntervalMs, ResentAll, ResendDatagrams, BackedOff, LostAtFront;
    }
  }

  lemma SendKeepsFirstKey(c: Conn, reliable: bool, payload: Bytes, nowMs: int, p: Params, key: nat, early: nat)
    requires c.timer.backoff >= 0 && FirstKeyKept(c, key, early)
    ensures var t := AfterSend(c, reliable, payload, nowMs, p).0;
      FirstKeyKept(t, key, if c.keys.preUpgrade.Some? then early else t.txRel)
  {
    hide RetransmitIntervalMs;
  }

  lemma {:induction false} WithoutFromQueue(q: seq<Outgoing>, seqNo: uint32, only: bool)
    ensures forall i :: 0 <= i < |Without(q, seqNo, only)| ==> Without(q, seqNo, only)[i] in q
  {
    if q != [] { WithoutFromQueue(q[..|q| - 1], seqNo, only); }
  }

  lemma DeliverKeepsFirstKey(c: Conn, d: Datagram, opens: bool, from: nat, nowMs: int, p: Params, key: nat, early: nat)
    requires FirstKeyKept(c, key, early)
    ensures FirstKeyKept(AfterDatagram(c, d, opens, from, nowMs, p), key, early)
  {
    DatagramEffect(c, d, opens, from, nowMs, p);
    WithoutFromQueue(c.outstanding, d.seqNo, true);
    WithoutFromQueue(c.outstanding, d.seqNo, false);
    hide AfterDatagram, Without;
  }

  lemma ActKeepsFirstKey(me: Side, act: Action, p: Params, key: nat, early: nat)
    requires me.c.timer.backoff >= 0 && FirstKeyKept(me.c, key, early)
    ensures var t := Act(me, act, p).c;
      FirstKeyKept(t, key, if me.c.keys.preUpgrade.Some? then early else t.txRel)
  {
    match act {
      case Send(reliable, payload, nowMs) => SendKeepsFirstKey(me.c, reliable, payload, nowMs, p, key, early);
      case Tick(nowMs) => TickKeepsFirstKey(me.c, nowMs, p, key, early);
      case Deliver(d, opens, from, nowMs) =>
        DeliverKeepsFirstKey(me.c, d, opens, from, nowMs, p, key, early);
        DatagramEffect(me.c, d, opens, from, nowMs, p);
        hide AfterDatagram, FirstKeyKept;
        KeptOnDeliver(me.c, AfterDatagram(me.c, d, opens, from, nowMs, p), key, early);
      case _ =>
    }
  }

  lemma KeptOnDeliver(c: Conn, t: Conn, key: nat, early: nat)
    requires FirstKeyKept(c, key, early) && FirstKeyKept(t, key, early) && t.keys == c.keys && t.txRel == c.txRel
    ensures FirstKeyKept(t, key, if c.keys.preUpgrade.Some? then early else t.txRel)
  {
  }

  lemma {:induction false} ActedKeepsFirstKey(p: Params, key: nat, peer: nat, acts: seq<Action>)
    ensures var me := FreshSide(p, key, peer);
      && me.c.timer.backoff >= 0
      && FirstKeyKept(Acted(me, acts, p).c, key, SentEarly(me, acts, p))
  {
    if acts != [] {
      hide Act, FirstKeyKept, FreshSide;
      ActedKeepsFirstKey(p, key, peer, acts[..|acts| - 1]);
      ActKeepsFirstKey(Acted(FreshSide(p, key, peer), acts[..|acts| - 1], p), acts[|acts| - 1], p, key,
                       SentEarly(FreshSide(p, key, peer), acts[..|acts| - 1], p));
    }
  }

  lemma {:induction false} EarlyStays(me: Side, acts: seq<Action>, i: nat, p: Params)
    requires me.c.timer.backoff >= 0 && i <= |acts|
    requires Acted(me, acts[..i], p).c.keys.preUpgrade.None?
    ensures Acted(me, acts[..i], p).c.txRel <= SentEarly(me, acts, p) && me.c.wire <= Acted(me, acts, p).c.wire
    ensures Acted(me, acts[..i], p).c.wire <= Acted(me, acts, p).c.wire && Acted(me, acts[..i], p).c.txRel <= Acted(me, acts, p).c.txRel
    decreases |acts|
  {
    if i == |acts| {
      assert acts[..i] == acts;
      if acts != [] {
        var front := acts[..|acts| - 1];
        UpgradeStays(Acted(me, front, p), acts[|acts| - 1], p);
        assert front[..|front|] == front;
        EarlyStays(me, front, |front|, p);
        WireGrows(Acted(me, front, p), acts[|acts| - 1], p);
      }
    } else {
      var front := acts[..|acts| - 1];
      assert front[..i] == acts[..i];
      EarlyStays(me, front, i, p);
      WireGrows(Acted(me, front, p), acts[|acts| - 1], p);
      NumbersGrow(Acted(me, front, p), acts[|acts| - 1], p);
    }
  }

  lemma UpgradeStays(me: Side, act: Action, p: Params)
    requires me.c.timer.backoff >= 0
    ensures me.c.keys.preUpgrade.Some? ==> Act(me, act, p).c.keys.preUpgrade == me.c.keys.preUpgrade
  {
    hide RetransmitIntervalMs, Emit, Arrived, Judge, AckSampled, AcceptSkew, AfterHeard, AfterAccept, Without;
  }

  lemma NumbersGrow(me: Side, act: Action, p: Params)
    requires me.c.timer.backoff >= 0
    ensures me.c.txRel <= Act(me, act, p).c.txRel
  {
    hide RetransmitIntervalMs, Emit, Arrived, Judge, AckSampled, AcceptSkew, AfterHeard, AfterAccept, Without;
  }

  /**
   Over any run: every clear copy of a reliable packet that first went out before the first Upgrade, whenever it goes out
   again, is under the key the association was opened with.
   */
  lemma ClearCopiesUnderFirstKey(p: Params, key: nat, peer: nat, acts: seq<Action>, i: nat, first: Datagram, again: Datagram)
    requires FreshSide(p, key, peer).c.timer.backoff >= 0 && i <= |acts|
    requires var me := FreshSide(p, key, peer);
      && Acted(me, acts[..i], p).c.keys.preUpgrade.None?
      && first in Acted(me, acts[..i], p).c.wire && again in Acted(me, acts, p).c.wire
    requires IsClear(first) && IsClear(again) && again.seqNo == first.seqNo
    ensures first.auth == again.auth == Mac(key)
  {
    var me := FreshSide(p, key, peer);
    ActedKeepsFirstKey(p, key, peer, acts);
    ActedKeepsFirstKey(p, key, peer, acts[..i]);
    EarlyStays(me, acts, i, p);
    hide FreshSide, Acted, SentEarly;
  }

  /** The key stays unset exactly until an Upgrade. */
  lemma {:induction false} NoUpgradeYet(p: Params, key: nat, peer: nat, acts: seq<Action>)
    ensures var me := FreshSide(p, key, peer);
      && me.c.timer.backoff >= 0
      && (Acted(me, acts, p).c.keys.preUpgrade.None? <==> forall i :: 0 <= i < |acts| ==> !acts[i].Upgrade?)
  {
    if acts != [] {
      var front, act := acts[..|acts| - 1], acts[|acts| - 1];
      NoUpgradeYet(p, key, peer, front);
      var b := Acted(FreshSide(p, key, peer), front, p);
      OnlyUpgradeSets(b, act, p);
      hide Act, FreshSide;
      assert (forall i :: 0 <= i < |acts| ==> !acts[i].Upgrade?) <==> (forall i :: 0 <= i < |front| ==> !front[i].Upgrade?) && !act.Upgrade?;
    }
  }

  lemma OnlyUpgradeSets(me: Side, act: Action, p: Params)
    requires me.c.timer.backoff >= 0
    ensures Act(me, act, p).c.keys.preUpgrade.Some? <==> me.c.keys.preUpgrade.Some? || act.Upgrade?
  {
    hide RetransmitIntervalMs, Emit, Arrived, Judge, AckSampled, AcceptSkew, AfterHeard, AfterAccept, Without;
  }

  /** A peer still under the key it came with takes such a packet, new and with room for it, and acks it under that key. */
  lemma StillUnderKeyTakes(c: Conn, d: Datagram, opens: bool, from: nat, nowMs: int, p: Params)
    requires IsClear(d) && d.auth == Mac(c.keys.binder) && !c.keys.sealing && AcceptSkew(d.stamp, nowMs, p.skewMs)
    requires Valid(c.rx.window) && !c.rx.window.slides && 1 <= d.seqNo && !Seen(c.rx.window, d.seqNo)
    requires d.seqNo <= c.rx.window.last + c.rx.window.size
    requires !c.rx.handler || |c.rx.hold| < p.reliableWindow || d.seqNo == c.rx.next
    ensures var t := AfterDatagram(c, d, opens, from, nowMs, p);
      && Seen(t.rx.window, d.seqNo) && t.path.peer == from && t.path.lastAuthRxMs == nowMs
      && t.wire == c.wire + [Datagram(Ack, d.seqNo, TruncTs(nowMs), [], Mac(c.keys.binder))]
  {
    hide AcceptSkew, Released, NewerStamp;
    AcceptMeans(c.rx.window, d.seqNo);
    hide AfterAccept, Seen, Valid;
  }

  /** One that has moved on still acks a copy of what it took before, under the key it came with, and takes nothing new. */
  lemma MovedOnReacks(c: Conn, d: Datagram, opens: bool, from: nat, nowMs: int, p: Params)
    requires IsClear(d) && c.keys.preUpgrade.Some? && d.auth == Mac(c.keys.preUpgrade.value) && c.keys.binder != c.keys.preUpgrade.value
    requires AcceptSkew(d.stamp, nowMs, p.skewMs) && 1 <= d.seqNo
    ensures AfterDatagram(c, d, opens, from, nowMs, p) ==
      if Seen(c.rx.window, d.seqNo) then c.(wire := c.wire + [Datagram(Ack, d.seqNo, TruncTs(nowMs), [], Mac(c.keys.preUpgrade.value))])
      else c
  {
    hide AcceptSkew;
  }

  /** An ack under the pre-session key settles the handshake's packets of that number, and no other. */
  lemma EarlyAckSettlesEarly(c: Conn, d: Datagram, opens: bool, from: nat, nowMs: int, p: Params, i: nat)
    requires d.kind.Ack? && c.keys.preUpgrade.Some? && d.auth == Mac(c.keys.preUpgrade.value) && c.keys.binder != c.keys.preUpgrade.value
    requires AcceptSkew(d.stamp, nowMs, p.skewMs) && i < |c.outstanding|
    ensures var t := AfterDatagram(c, d, opens, from, nowMs, p);
      c.outstanding[i] in t.outstanding <==> !(c.outstanding[i].seqNo == d.seqNo && c.outstanding[i].beforeUpgrade)
  {
    hide AcceptSkew;
    KeptExactly(c.outstanding, d.seqNo, true, c.outstanding[i]);
  }

  lemma {:induction false} KeptExactly(q: seq<Outgoing>, seqNo: uint32, only: bool, o: Outgoing)
    ensures o in Without(q, seqNo, only) <==> o in q && !(o.seqNo == seqNo && (o.beforeUpgrade || !only))
  {
    if q != [] {
      KeptExactly(q[..|q| - 1], seqNo, only, o);
      assert q == q[..|q| - 1] + [q[|q| - 1]];
    }
  }

  // ------------------------------------------------------------ once sealing

  /** Under session keys new data goes out sealed, and only what was in the clear before is ever sent in the clear again. */
  lemma SealedOnceSealing(me: Side, act: Action, p: Params, d: Datagram)
    requires me.c.timer.backoff >= 0 && me.c.keys.sealing
    requires d in Act(me, act, p).c.wire && d !in me.c.wire
    ensures (d.kind.DataReliable? || d.kind.DataBestEffort?) ==> d.auth.Aead?
    ensures d.kind.PlainBestEffort? ==> act.Tick?
    ensures d.kind.PlainReliable? ==>
      act.Tick? && exists i :: 0 <= i < |me.c.outstanding| && me.c.outstanding[i].kind.PlainReliable? && me.c.outstanding[i].seqNo == d.seqNo
  {
    hide RetransmitIntervalMs;
    match act {
      case Tick(nowMs) => ResentAsKept(me.c.outstanding, nowMs, me.c.keys, d);
      case Deliver(e, opens, from, nowMs) =>
        DatagramEffect(me.c, e, opens, from, nowMs, p);
        hide AfterDatagram;
      case _ =>
    }
  }

  lemma {:induction false} ResentAsKept(q: seq<Outgoing>, nowMs: int, k: Keys, d: Datagram)
    ensures d in ResendDatagrams(q, nowMs, k) ==>
      && (IsSealed(d.kind) ==> d.auth.Aead?)
      && exists i :: 0 <= i < |q| && q[i].kind == d.kind && q[i].seqNo == d.seqNo
  {
    if d in ResendDatagrams(q, nowMs, k) {
      var n := |q| - 1;
      if d in ResendDatagrams(q[..n], nowMs, k) {
        ResentAsKept(q[..n], nowMs, k, d);
        var i :| 0 <= i < n && q[..n][i].kind == d.kind && q[..n][i].seqNo == d.seqNo;
        assert q[i].kind == d.kind && q[i].seqNo == d.seqNo;
      } else {
        assert q[n].kind == d.kind && q[n].seqNo == d.seqNo;
      }
    }
  }

  /** Send, refused and not: closed, over the limit of its kind, numbers run out, window full. */
  lemma SendAnswers(c: Conn, reliable: bool, payload: Bytes, nowMs: int, p: Params)
    requires c.timer.backoff >= 0
    ensures var (t, r) := AfterSend(c, reliable, payload, nowMs, p);
      && (r == ErrClosed <==> c.closed)
      && (r == ErrPayloadTooLarge <==> !c.closed && |payload| > if c.keys.sealing then 1203 else 1199)
      && (r.Ok? || t == c)
      && (!c.closed && |payload| <= (if c.keys.sealing then 1203 else 1199) ==>
            && (reliable ==> (r == ErrWindowFull <==> |c.outstanding| >= p.reliableWindow))
            && (r == ErrSeqWrap <==> if reliable then |c.outstanding| < p.reliableWindow && c.txRel == 0xFFFF_FFFF else c.txBe == 0xFFFF_FFFF))
      && (r.Ok? ==>
            && |t.wire| == |c.wire| + 1 && c.wire <= t.wire
            && var d := t.wire[|c.wire|];
            && d.payload == payload && d.seqNo == (if reliable then c.txRel + 1 else c.txBe + 1)
            && d.kind == (if reliable then (if c.keys.sealing then DataReliable else PlainReliable)
                          else if c.keys.sealing then DataBestEffort else PlainBestEffort)
            && (c.keys.sealing ==> d.auth.Aead? && d.stamp == 0)
            && (!c.keys.sealing ==> d.auth == Mac(c.keys.binder) && d.stamp == nowMs % 0x1_0000_0000))
  {
    hide RetransmitIntervalMs;
  }

  /** Before it authenticates an association may be held to 2 resends, a dialer to 6; Upgrade lifts that. */
  lemma ResendsAllowed(p: Params, key: nat, peer: nat, newKey: nat)
    ensures var c := NewConn(p, key, peer);
      && c.keys.maxRtx == (if !p.reduceRtxUntilAuthenticated then p.maxRtx else if p.dialerBackoff then Min(p.maxRtx, 6) else Min(p.maxRtx, 2))
      && c.keys.authenticated == !p.reduceRtxUntilAuthenticated
      && AfterUpgrade(c, newKey, p).keys == Keys(true, p.maxRtx, newKey, Some(key), false)
  {
  }
}
