/**
 An association learns its round trip (src/L1/Connection.cpp:82-100, 353-359, 373-422;
 RFC 6298 sections 2, 3, 5.5 and 5.7, with Karn's rule).

 The path is lossless with one constant round trip; packets go one at a time; Tick runs
 whenever it likes. A packet acked after a resend gives no sample, so a timeout shorter
 than the path would never learn it, were it not for the back-off new packets start from.
 */
module RttLearning {
  import opened Words
  import opened Adp
  import opened Association
  import opened AdpProtocol

  /** One packet's life: sent at `sendMs`, Tick called at `ticks`, its ack in at `sendMs + rtt`. */
  datatype Exchange = Exchange(seqNo: uint32, payload: Bytes, sendMs: int, ticks: seq<int>)

  predicate TicksInTime(e: Exchange, rtt: int) {
    forall i :: 0 <= i < |e.ticks| ==> e.ticks[i] <= e.sendMs + rtt
  }

  /** Tick, on the packets in flight and the timer. */
  function Tick(q: seq<Outgoing>, t: Timer, nowMs: int, k: Keys, p: Params): (seq<Outgoing>, Timer) {
    var after := ResentAll(q, nowMs, k, t, p);
    var lost := LostAtFront(after, nowMs, k);
    LostFits(after, nowMs, k);
    (after[lost..], t.(backoff := BackedOff(q, nowMs, k, t.backoff)))
  }

  function Ticked(q: seq<Outgoing>, t: Timer, ticks: seq<int>, k: Keys, p: Params): (seq<Outgoing>, Timer) {
    if ticks == [] then (q, t)
    else
      var (q', t') := Ticked(q, t, ticks[..|ticks| - 1], k, p);
      Tick(q', t', ticks[|ticks| - 1], k, p)
  }

  /** The packet in flight and the timer just before its ack arrives. */
  function Waited(t: Timer, e: Exchange, k: Keys, p: Params): (seq<Outgoing>, Timer)
    requires t.backoff >= 0
  {
    Ticked([ReliableOutgoing(k, t, p, e.seqNo, e.payload, e.sendMs)], t, e.ticks, k, p)
  }

  /** Whether the packet was resent (or given up) before its ack came. */
  predicate WasResent(t: Timer, e: Exchange, k: Keys, p: Params)
    requires t.backoff >= 0
  {
    Waited(t, e, k, p).0 != [ReliableOutgoing(k, t, p, e.seqNo, e.payload, e.sendMs)]
  }

  /** The timer once the ack was handled. */
  function Learned(t: Timer, e: Exchange, rtt: int, k: Keys, p: Params): Timer
    requires t.backoff >= 0
  {
    var (q, t') := Waited(t, e, k, p);
    AckSampled(q, e.seqNo, e.sendMs + rtt, t')
  }

  // ------------------------------------------------------------ one exchange

  predicate Fits(rtt: int, p: Params) {
    0 <= rtt < Min(p.rtxIntervalMs * 256, Max(MAX_RTO_MS, p.rtxIntervalMs)) && 0 < p.rtxIntervalMs
  }

  predicate Sane(k: Keys) {
    k.authenticated && k.maxRtx >= 1
  }

  predicate Unsampled(t: Timer) {
    t.srttMs < 0 && 0 <= t.backoff <= MAX_BACKOFF
  }

  /** The timer has the path's round trip. */
  predicate Settled(t: Timer, rtt: int) {
    t.srttMs == rtt && 0 <= t.rttvarMs <= rtt && t.backoff == 0
  }

  lemma OnePacket(o: Outgoing, t: Timer, nowMs: int, k: Keys, p: Params)
    ensures ResentAll([o], nowMs, k, t, p) == [Resent(o, nowMs, k, t, p)]
    ensures BackedOff([o], nowMs, k, t.backoff) ==
      if Resends(o, nowMs, k) && k.authenticated then Max(t.backoff, Min(o.baseBackoff + o.attempts + 1, MAX_BACKOFF))
      else t.backoff
    ensures LostAtFront([o], nowMs, k) == if GivenUp(o, nowMs, k) then 1 else 0
  {
    assert [o][..0] == [] && [o][1..] == [];
  }

  /** Tick with one packet in flight. */
  lemma TickOne(o: Outgoing, t: Timer, nowMs: int, k: Keys, p: Params)
    requires Sane(k)
    ensures var (q, u) := Tick([o], t, nowMs, k, p);
      && u.srttMs == t.srttMs && u.rttvarMs == t.rttvarMs
      && (q == [] || q == [Resent(o, nowMs, k, t, p)])
      && (if Resends(o, nowMs, k) then u.backoff == Max(t.backoff, Min(o.baseBackoff + o.attempts + 1, MAX_BACKOFF))
          else u == t && (q == [o] || o.attempts > 0))
  {
    OnePacket(o, t, nowMs, k, p);
    OnePacket(Resent(o, nowMs, k, t, p), t, nowMs, k, p);
  }

  /** In flight with the timer as it was, or resent (perhaps given up) with the back-off raised. */
  predicate EitherWay(o: Outgoing, t: Timer, q: seq<Outgoing>, u: Timer) {
    && u.srttMs == t.srttMs && u.rttvarMs == t.rttvarMs
    && (|| (q == [o] && u == t)
        || (&& (q == [] || (|q| == 1 && q[0].attempts > 0))
            && Min(t.backoff + 1, MAX_BACKOFF) <= u.backoff <= MAX_BACKOFF))
  }

  lemma TickKeepsEitherWay(o: Outgoing, t: Timer, q: seq<Outgoing>, u: Timer, nowMs: int, k: Keys, p: Params)
    requires Sane(k) && 0 <= t.backoff <= MAX_BACKOFF && o.attempts == 0 && o.baseBackoff == t.backoff
    requires EitherWay(o, t, q, u)
    ensures var (q', u') := Tick(q, u, nowMs, k, p); EitherWay(o, t, q', u')
  {
    if q != [] {
      assert q == [q[0]];
      TickOne(q[0], u, nowMs, k, p);
    }
  }

  lemma {:induction false} WaitingEitherWay(o: Outgoing, t: Timer, ticks: seq<int>, k: Keys, p: Params)
    requires Sane(k) && 0 <= t.backoff <= MAX_BACKOFF && o.attempts == 0 && o.baseBackoff == t.backoff
    ensures var (q, u) := Ticked([o], t, ticks, k, p); EitherWay(o, t, q, u)
  {
    if ticks != [] {
      var n := |ticks| - 1;
      WaitingEitherWay(o, t, ticks[..n], k, p);
      var (q, u) := Ticked([o], t, ticks[..n], k, p);
      hide EitherWay, Tick;
      TickKeepsEitherWay(o, t, q, u, ticks[n], k, p);
    }
  }

  /** With no Tick at or past its deadline a packet is not resent. */
  lemma {:induction false} InTimeNotResent(o: Outgoing, t: Timer, ticks: seq<int>, k: Keys, p: Params)
    requires Sane(k) && o.attempts == 0
    requires forall i :: 0 <= i < |ticks| ==> ticks[i] < o.nextRtxMs
    ensures Ticked([o], t, ticks, k, p) == ([o], t)
  {
    if ticks != [] {
      var n := |ticks| - 1;
      InTimeNotResent(o, t, ticks[..n], k, p);
      TickOne(o, t, ticks[n], k, p);
    }
  }

  /** Karn's rule: a resent packet's ack teaches nothing; a clean one is the sample. */
  lemma AckTeaches(t: Timer, e: Exchange, rtt: int, k: Keys, p: Params)
    requires Sane(k) && 0 <= t.backoff <= MAX_BACKOFF && 0 <= rtt
    ensures var u := Learned(t, e, rtt, k, p);
      if WasResent(t, e, k, p) then
        && u.srttMs == t.srttMs && u.rttvarMs == t.rttvarMs
        && Min(t.backoff + 1, MAX_BACKOFF) <= u.backoff <= MAX_BACKOFF
      else u == RttSampled(t, rtt)
  {
    var o := ReliableOutgoing(k, t, p, e.seqNo, e.payload, e.sendMs);
    WaitingEitherWay(o, t, e.ticks, k, p);
    var (q, t') := Waited(t, e, k, p);
    if q != [] { assert q[1..] == []; }
    assert AckSampled([], e.seqNo, e.sendMs + rtt, t') == t';
  }

  /** A packet whose first wait is longer than the round trip is not resent, whatever Tick does. */
  lemma LongEnoughWait(t: Timer, e: Exchange, rtt: int, k: Keys, p: Params)
    requires Sane(k) && t.backoff >= 0 && TicksInTime(e, rtt)
    requires RetransmitIntervalMs(k, t, p, t.backoff) > rtt
    ensures !WasResent(t, e, k, p)
  {
    InTimeNotResent(ReliableOutgoing(k, t, p, e.seqNo, e.payload, e.sendMs), t, e.ticks, k, p);
  }

  lemma FullBackoffIsEnough(t: Timer, rtt: int, k: Keys, p: Params)
    requires Sane(k) && Fits(rtt, p) && Unsampled(t) && t.backoff == MAX_BACKOFF
    ensures RetransmitIntervalMs(k, t, p, t.backoff) > rtt
  {
    ShiftOf8(p.rtxIntervalMs);
  }

  lemma SettledIsEnough(t: Timer, rtt: int, k: Keys, p: Params)
    requires Sane(k) && Fits(rtt, p) && Settled(t, rtt)
    ensures RetransmitIntervalMs(k, t, p, t.backoff) > rtt
  {
    assert ShiftLeft(RtoMs(t, p), 0) == RtoMs(t, p);
  }

  lemma SampleSettles(t: Timer, rtt: int)
    requires 0 <= rtt && (Settled(t, rtt) || t.srttMs < 0)
    ensures Settled(RttSampled(t, rtt), rtt)
  {
  }

  // ------------------------------------------------------------ any number of exchanges

  function After(t: Timer, es: seq<Exchange>, rtt: int, k: Keys, p: Params): Timer
    requires Sane(k) && 0 <= t.backoff <= MAX_BACKOFF && 0 <= rtt
    ensures 0 <= After(t, es, rtt, k, p).backoff <= MAX_BACKOFF
  {
    if es == [] then t
    else
      var u := After(t, es[..|es| - 1], rtt, k, p);
      AckTeaches(u, es[|es| - 1], rtt, k, p);
      Learned(u, es[|es| - 1], rtt, k, p)
  }

  /** How many of the packets were resent. */
  function ResentCount(t: Timer, es: seq<Exchange>, rtt: int, k: Keys, p: Params): nat
    requires Sane(k) && 0 <= t.backoff <= MAX_BACKOFF && 0 <= rtt
  {
    if es == [] then 0
    else
      var n := |es| - 1;
      ResentCount(t, es[..n], rtt, k, p) +
      (if WasResent(After(t, es[..n], rtt, k, p), es[n], k, p) then 1 else 0)
  }

  /**
   At most 8 packets are ever resent, and once one round trip was measured none is:
   either nothing was learned yet and each packet resent raised the back-off, or the timer is settled.
   */
  lemma {:induction false} LearnsWithinEight(t: Timer, es: seq<Exchange>, rtt: int, k: Keys, p: Params)
    requires Sane(k) && Fits(rtt, p) && Unsampled(t)
    requires forall i :: 0 <= i < |es| ==> TicksInTime(es[i], rtt)
    ensures ResentCount(t, es, rtt, k, p) <= MAX_BACKOFF - t.backoff
    ensures var u := After(t, es, rtt, k, p);
      || Settled(u, rtt)
      || (Unsampled(u) && |es| == ResentCount(t, es, rtt, k, p) <= u.backoff - t.backoff)
  {
    if es != [] {
      var n := |es| - 1;
      LearnsWithinEight(t, es[..n], rtt, k, p);
      var u := After(t, es[..n], rtt, k, p);
      OneMoreExchange(u, es[n], rtt, k, p);
      hide WasResent, Learned, Fits, Sane;
    }
  }

  /** One exchange: a settled timer resends nothing and stays settled; an unsampled one learns, or is resent and backs off. */
  lemma OneMoreExchange(u: Timer, e: Exchange, rtt: int, k: Keys, p: Params)
    requires Sane(k) && Fits(rtt, p) && TicksInTime(e, rtt) && (Settled(u, rtt) || Unsampled(u))
    ensures var v := Learned(u, e, rtt, k, p);
      && (Settled(u, rtt) ==> !WasResent(u, e, k, p) && Settled(v, rtt))
      && (Unsampled(u) && !WasResent(u, e, k, p) ==> Settled(v, rtt))
      && (Unsampled(u) && WasResent(u, e, k, p) ==> Unsampled(v) && v.backoff >= u.backoff + 1)
  {
    AckTeaches(u, e, rtt, k, p);
    if Settled(u, rtt) {
      SettledIsEnough(u, rtt, k, p);
      LongEnoughWait(u, e, rtt, k, p);
    } else if u.backoff == MAX_BACKOFF {
      FullBackoffIsEnough(u, rtt, k, p);
      LongEnoughWait(u, e, rtt, k, p);
    }
    SampleSettles(u, rtt);
    hide Waited, AckSampled, RttSampled;
  }

  /** Whatever came before, the ninth packet's ack at the latest has taught the round trip, and no packet after is resent. */
  lemma NoResendOnceLearned(t: Timer, es: seq<Exchange>, last: Exchange, rtt: int, k: Keys, p: Params)
    requires Sane(k) && Fits(rtt, p) && Unsampled(t) && |es| > MAX_BACKOFF
    requires forall i :: 0 <= i < |es| ==> TicksInTime(es[i], rtt)
    requires TicksInTime(last, rtt)
    ensures Settled(After(t, es, rtt, k, p), rtt) && !WasResent(After(t, es, rtt, k, p), last, k, p)
  {
    LearnsWithinEight(t, es, rtt, k, p);
    var u := After(t, es, rtt, k, p);
    SettledIsEnough(u, rtt, k, p);
    LongEnoughWait(u, last, rtt, k, p);
  }

  // ------------------------------------------------------------ the bound on the round trip is exact

  /** Tick once, right when the packet is due. */
  function DueTick(t: Timer, seqNo: uint32, sendMs: int, k: Keys, p: Params): Exchange
    requires t.backoff >= 0
  {
    Exchange(seqNo, [], sendMs, [sendMs + RetransmitIntervalMs(k, t, p, t.backoff)])
  }

  /** On a path at or past the bound, some ticking (all of it before the ack) resends every packet and teaches nothing, ever. */
  lemma {:induction false} SlowerPathNeverLearns(n: nat, sendMs: int, rtt: int, k: Keys, p: Params)
    returns (es: seq<Exchange>)
    requires Sane(k) && 0 < p.rtxIntervalMs && !Fits(rtt, p) && 0 <= rtt && n < U32
    ensures |es| == n && forall i :: 0 <= i < n ==> TicksInTime(es[i], rtt) && es[i].seqNo == i + 1 && es[i].sendMs == sendMs + i * rtt
    ensures var t := Timer(0, -1, -1);
      Unsampled(After(t, es, rtt, k, p)) && ResentCount(t, es, rtt, k, p) == n
  {
    var t := Timer(0, -1, -1);
    es := [];
    if n > 0 {
      var front := SlowerPathNeverLearns(n - 1, sendMs, rtt, k, p);
      var u := After(t, front, rtt, k, p);
      var at := sendMs + (n - 1) * rtt;
      var e := DueTick(u, n, at, k, p);
      es := front + [e];
      assert es[..n - 1] == front;
      DueTickResends(u, n, at, rtt, k, p);
      AckTeaches(u, e, rtt, k, p);
    }
  }

  lemma DueTickResends(t: Timer, seqNo: uint32, sendMs: int, rtt: int, k: Keys, p: Params)
    requires Sane(k) && 0 < p.rtxIntervalMs && !Fits(rtt, p) && 0 <= rtt && Unsampled(t)
    ensures TicksInTime(DueTick(t, seqNo, sendMs, k, p), rtt) && WasResent(t, DueTick(t, seqNo, sendMs, k, p), k, p)
  {
    var e := DueTick(t, seqNo, sendMs, k, p);
    var o := ReliableOutgoing(k, t, p, seqNo, [], sendMs);
    assert e.ticks[..0] == [];
    assert Ticked([o], t, e.ticks[..0], k, p) == ([o], t);
    assert Ticked([o], t, e.ticks, k, p) == Tick([o], t, e.ticks[0], k, p);
    TickOne(o, t, e.ticks[0], k, p);
    assert Resent(o, e.ticks[0], k, t, p).attempts == 1;
    ShiftOf8(p.rtxIntervalMs);
    ShiftGrows(p.rtxIntervalMs, t.backoff, MAX_BACKOFF);
  }

  // ------------------------------------------------------------ the association does just that

  /** AfterTick, again and again. */
  function TickedConn(c: Conn, ticks: seq<int>, p: Params): Conn {
    if ticks == [] then c else AfterTick(TickedConn(c, ticks[..|ticks| - 1], p), ticks[|ticks| - 1], p)
  }

  /** Send, the ticks, and the ack: one exchange of an association that has nothing else in flight. */
  function Exchanged(c: Conn, e: Exchange, rtt: int, p: Params): Conn
    requires c.timer.backoff >= 0
  {
    AfterAckReceived(TickedConn(AfterSend(c, true, e.payload, e.sendMs, p).0, e.ticks, p), e.seqNo, e.sendMs + rtt)
  }

  predicate Idle(c: Conn, p: Params) {
    !c.closed && Sane(c.keys) && c.outstanding == [] && p.reliableWindow >= 1 && 0 <= c.timer.backoff <= MAX_BACKOFF
  }

  lemma {:induction false} TicksAgree(c: Conn, ticks: seq<int>, p: Params)
    requires !c.closed
    ensures var d := TickedConn(c, ticks, p);
      && (d.outstanding, d.timer) == Ticked(c.outstanding, c.timer, ticks, c.keys, p)
      && d.keys == c.keys && d.txRel == c.txRel && !d.closed
  {
    if ticks != [] { TicksAgree(c, ticks[..|ticks| - 1], p); }
  }

  /** A packet alone in flight is no longer as it was exactly when a retransmit was counted. */
  lemma {:induction false} ResendsCounted(c: Conn, o: Outgoing, ticks: seq<int>, p: Params)
    requires !c.closed && Sane(c.keys) && c.outstanding == [o] && o.attempts == 0
    ensures var d := TickedConn(c, ticks, p);
      && d.counts.retransmits >= c.counts.retransmits
      && (d.outstanding == [o] <==> d.counts.retransmits == c.counts.retransmits)
      && (d.outstanding == [o] || d.outstanding == [] || (|d.outstanding| == 1 && d.outstanding[0].attempts > 0))
  {
    if ticks != [] {
      var front := ticks[..|ticks| - 1];
      ResendsCounted(c, o, front, p);
      TicksAgree(c, front, p);
      var before, nowMs := TickedConn(c, front, p), ticks[|ticks| - 1];
      assert TickedConn(c, ticks, p) == AfterTick(before, nowMs, p);
      OneTickCounted(before, nowMs, p);
      hide *;
      assert before.outstanding != [] ==> before.outstanding == [before.outstanding[0]];
    }
  }

  lemma OneTickCounted(c: Conn, nowMs: int, p: Params)
    requires !c.closed && Sane(c.keys) && |c.outstanding| <= 1
    ensures var d, more := AfterTick(c, nowMs, p), AfterTick(c, nowMs, p).counts.retransmits - c.counts.retransmits;
      && (c.outstanding == [] ==> d.outstanding == [] && more == 0)
      && (c.outstanding != [] ==>
            && more == (if Resends(c.outstanding[0], nowMs, c.keys) then 1 else 0)
            && (more > 0 ==> d.outstanding == [] || (|d.outstanding| == 1 && d.outstanding[0].attempts > 0))
            && (more == 0 ==> d.outstanding == c.outstanding || (d.outstanding == [] && c.outstanding[0].attempts > 0)))
  {
    if c.outstanding != [] {
      var o := c.outstanding[0];
      assert c.outstanding == [o];
      OnePacket(o, c.timer, nowMs, c.keys, p);
      OnePacket(Resent(o, nowMs, c.keys, c.timer, p), c.timer, nowMs, c.keys, p);
      assert [o][..0] == [];
      assert ResendDatagrams([], nowMs, c.keys) == [];
    }
  }

  /** Just before the ack: the packet alone in flight, or resent, and the timer, are what Waited says. */
  lemma WaitAgrees(c: Conn, e: Exchange, p: Params)
    requires Idle(c, p) && e.seqNo == c.txRel + 1
    requires |e.payload| <= if c.keys.sealing then MAX_SEALED_PAYLOAD else MAX_PAYLOAD
    ensures var d := TickedConn(AfterSend(c, true, e.payload, e.sendMs, p).0, e.ticks, p);
      && (d.outstanding, d.timer) == Waited(c.timer, e, c.keys, p)
      && d.keys == c.keys && d.txRel == e.seqNo && !d.closed
      && d.counts.retransmits >= c.counts.retransmits
      && (WasResent(c.timer, e, c.keys, p) <==> d.counts.retransmits > c.counts.retransmits)
      && Without(d.outstanding, e.seqNo, false) == []
  {
    var sent := AfterSend(c, true, e.payload, e.sendMs, p).0;
    SendAlone(c, e, p);
    hide AfterSend, RetransmitIntervalMs, TickedConn, Ticked, ReliableOutgoing, Without;
    TicksAgree(sent, e.ticks, p);
    ResendsCounted(sent, sent.outstanding[0], e.ticks, p);
    TickKeepsNumber(sent, e.seqNo, e.ticks, p);
    OnlyOneAcked(TickedConn(sent, e.ticks, p).outstanding, e.seqNo);
  }

  /** The exchange of the timer alone is that of the whole association; a packet was resent exactly when the association counted one. */
  lemma ExchangeAgrees(c: Conn, e: Exchange, rtt: int, p: Params)
    requires Idle(c, p) && 0 <= rtt && e.seqNo == c.txRel + 1
    requires |e.payload| <= if c.keys.sealing then MAX_SEALED_PAYLOAD else MAX_PAYLOAD
    ensures var t := Exchanged(c, e, rtt, p);
      && Idle(t, p) && t.keys == c.keys && t.txRel == c.txRel + 1
      && t.timer == Learned(c.timer, e, rtt, c.keys, p)
      && t.counts.retransmits >= c.counts.retransmits
      && (WasResent(c.timer, e, c.keys, p) <==> t.counts.retransmits > c.counts.retransmits)
  {
    hide AfterSend, RetransmitIntervalMs, RttSampled, TickedConn, Waited, WasResent, AckSampled, Without;
    WaitAgrees(c, e, p);
    AckTeaches(c.timer, e, rtt, c.keys, p);
    RttBackoff(c.timer, rtt);
  }

  lemma SendAlone(c: Conn, e: Exchange, p: Params)
    requires Idle(c, p) && e.seqNo == c.txRel + 1
    requires |e.payload| <= if c.keys.sealing then MAX_SEALED_PAYLOAD else MAX_PAYLOAD
    ensures var t := AfterSend(c, true, e.payload, e.sendMs, p).0;
      && t.outstanding == [ReliableOutgoing(c.keys, c.timer, p, e.seqNo, e.payload, e.sendMs)] && t.outstanding[0].attempts == 0
      && t.outstanding[0].seqNo == e.seqNo
      && t.timer == c.timer && |t.outstanding| == 1 && t.keys == c.keys && t.txRel == e.seqNo && !t.closed && t.counts.retransmits == c.counts.retransmits
  {
    hide RetransmitIntervalMs;
  }

  lemma RttBackoff(t: Timer, rtt: int)
    ensures RttSampled(t, rtt).backoff == 0
  {
  }

  lemma {:induction false} TickKeepsNumber(c: Conn, n: uint32, ticks: seq<int>, p: Params)
    requires !c.closed && AllNumbered(c.outstanding, n)
    ensures AllNumbered(TickedConn(c, ticks, p).outstanding, n)
  {
    if ticks != [] {
      var front := ticks[..|ticks| - 1];
      TickKeepsNumber(c, n, front, p);
      TicksAgree(c, front, p);
      OneTickNumbers(TickedConn(c, front, p), n, ticks[|ticks| - 1], p);
      hide AfterTick;
    }
  }

  ghost predicate AllNumbered(q: seq<Outgoing>, n: uint32) {
    forall i :: 0 <= i < |q| ==> q[i].seqNo == n
  }

  lemma OneTickNumbers(c: Conn, n: uint32, nowMs: int, p: Params)
    requires !c.closed && AllNumbered(c.outstanding, n)
    ensures AllNumbered(AfterTick(c, nowMs, p).outstanding, n)
  {
    hide RetransmitIntervalMs, BackedOff, ResendDatagrams;
    var q := c.outstanding;
    var after := ResentAll(q, nowMs, c.keys, c.timer, p);
    ResentAt(q, nowMs, c.keys, c.timer, p);
    LostFits(after, nowMs, c.keys);
    hide ResentAll, LostAtFront;
    assert forall i :: 0 <= i < |after| ==> after[i].seqNo == q[i].seqNo;
  }

  lemma OnlyOneAcked(q: seq<Outgoing>, seqNo: uint32)
    requires |q| <= 1 && AllNumbered(q, seqNo)
    ensures Without(q, seqNo, false) == []
  {
    if q != [] { assert q[..0] == []; assert Without([], seqNo, false) == []; }
  }

  /** The packets go out one at a time, numbered on from the association's last, each after the ack of the one before. */
  ghost predicate OneAtATime(c: Conn, es: seq<Exchange>, rtt: int) {
    && (forall i :: 0 <= i < |es| ==>
          && es[i].seqNo == c.txRel + 1 + i && TicksInTime(es[i], rtt)
          && |es[i].payload| <= if c.keys.sealing then MAX_SEALED_PAYLOAD else MAX_PAYLOAD)
    && (forall i :: 0 <= i < |es| - 1 ==> es[i].sendMs + rtt <= es[i + 1].sendMs)
  }

  function ExchangedAll(c: Conn, es: seq<Exchange>, rtt: int, p: Params): Conn {
    if es == [] then c
    else
      var before := ExchangedAll(c, es[..|es| - 1], rtt, p);
      if before.timer.backoff < 0 then before else Exchanged(before, es[|es| - 1], rtt, p)
  }

  /** How many of the exchanges the association counted a retransmit in. */
  function ExchangesResent(c: Conn, es: seq<Exchange>, rtt: int, p: Params): nat {
    if es == [] then 0
    else
      var n := |es| - 1;
      ExchangesResent(c, es[..n], rtt, p) +
      (if ExchangedAll(c, es, rtt, p).counts.retransmits != ExchangedAll(c, es[..n], rtt, p).counts.retransmits then 1 else 0)
  }

  lemma {:induction false} AllAgree(c: Conn, es: seq<Exchange>, rtt: int, p: Params)
    requires Idle(c, p) && 0 <= rtt && OneAtATime(c, es, rtt)
    ensures var t := ExchangedAll(c, es, rtt, p);
      && Idle(t, p) && t.keys == c.keys && t.txRel == c.txRel + |es| && t.timer == After(c.timer, es, rtt, c.keys, p)
      && ExchangesResent(c, es, rtt, p) == ResentCount(c.timer, es, rtt, c.keys, p)
  {
    if es != [] {
      var n := |es| - 1;
      AllAgree(c, es[..n], rtt, p);
      ExchangeAgrees(ExchangedAll(c, es[..n], rtt, p), es[n], rtt, p);
      hide Exchanged, Learned, WasResent;
    }
  }

  /**
   An association learns its path: of any packets sent one at a time, at most 8 are resent before the first sample, and
   after nine at the latest the timer has the round trip and no packet is resent any more.
   */
  lemma {:induction false} AssociationLearns(c: Conn, es: seq<Exchange>, rtt: int, p: Params)
    requires Idle(c, p) && Fits(rtt, p) && Unsampled(c.timer) && OneAtATime(c, es, rtt)
    ensures ExchangesResent(c, es, rtt, p) == ResentCount(c.timer, es, rtt, c.keys, p) <= MAX_BACKOFF
    ensures |es| > MAX_BACKOFF ==>
      && Settled(ExchangedAll(c, es, rtt, p).timer, rtt)
      && ExchangedAll(c, es, rtt, p).counts.retransmits == ExchangedAll(c, es[..MAX_BACKOFF + 1], rtt, p).counts.retransmits
  {
    hide Exchanged, Learned, WasResent, Settled, After, ResentCount;
    AllAgree(c, es, rtt, p);
    LearnsWithinEight(c.timer, es, rtt, c.keys, p);
    if |es| > MAX_BACKOFF + 1 {
      var front := es[..|es| - 1];
      FewerAtATime(c, es, |es| - 1, rtt);
      AssociationLearns(c, front, rtt, p);
      assert front[..MAX_BACKOFF + 1] == es[..MAX_BACKOFF + 1];
      NothingMore(c, es, rtt, p);
    } else if |es| == MAX_BACKOFF + 1 {
      assert es[..MAX_BACKOFF + 1] == es;
      SettledAfterNine(c, es, rtt, p);
    }
  }

  lemma FewerAtATime(c: Conn, es: seq<Exchange>, n: nat, rtt: int)
    requires OneAtATime(c, es, rtt) && n <= |es|
    ensures OneAtATime(c, es[..n], rtt)
  {
  }

  lemma SettledAfterNine(c: Conn, es: seq<Exchange>, rtt: int, p: Params)
    requires Idle(c, p) && Fits(rtt, p) && Unsampled(c.timer) && OneAtATime(c, es, rtt) && |es| > MAX_BACKOFF
    ensures Settled(ExchangedAll(c, es, rtt, p).timer, rtt)
  {
    hide Exchanged, Learned, WasResent, Settled, After, ResentCount;
    AllAgree(c, es, rtt, p);
    LearnsWithinEight(c.timer, es, rtt, c.keys, p);
  }

  lemma NothingMore(c: Conn, es: seq<Exchange>, rtt: int, p: Params)
    requires Idle(c, p) && Fits(rtt, p) && Unsampled(c.timer) && OneAtATime(c, es, rtt) && |es| > MAX_BACKOFF + 1
    ensures ExchangedAll(c, es, rtt, p).counts.retransmits == ExchangedAll(c, es[..|es| - 1], rtt, p).counts.retransmits
    ensures Settled(ExchangedAll(c, es, rtt, p).timer, rtt)
  {
    hide Exchanged, Learned, WasResent, Settled, After, ResentCount;
    var n := |es| - 1;
    AllAgree(c, es[..n], rtt, p);
    ExchangeAgrees(ExchangedAll(c, es[..n], rtt, p), es[n], rtt, p);
    NoResendOnceLearned(c.timer, es[..n], es[n], rtt, c.keys, p);
    SettledAfterNine(c, es, rtt, p);
  }

  // ------------------------------------------------------------ the estimator's bounds

  function SampledSeq(t: Timer, samples: seq<int>): Timer {
    if samples == [] then t else RttSampled(SampledSeq(t, samples[..|samples| - 1]), samples[|samples| - 1])
  }

  /** Under C++'s truncating division the smoothed round trip stays between the least and the greatest sample, the variation at 0 or more. */
  lemma {:induction false} SmoothedBetweenSamples(t: Timer, samples: seq<int>, lo: int, hi: int)
    requires t.srttMs < 0 && samples != [] && 0 <= lo
    requires forall i :: 0 <= i < |samples| ==> lo <= Max(samples[i], 0) <= hi
    ensures var u := SampledSeq(t, samples); lo <= u.srttMs <= hi && 0 <= u.rttvarMs <= hi && u.backoff == 0
  {
    var n := |samples| - 1;
    if n > 0 { SmoothedBetweenSamples(t, samples[..n], lo, hi); } else { assert samples[..0] == []; }
    assert lo <= Max(samples[n], 0) <= hi;
  }
}
