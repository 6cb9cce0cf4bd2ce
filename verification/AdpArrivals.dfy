/**
 What an arriving packet does, branch by branch (src/L1/Connection.cpp:373-387, 424-618; src/L1/ReplayWindow.cpp:8-43):
 who is heard, what is handed up, what closes, and what the timer learns.
 */
module AdpArrivals {
  import opened Words
  import opened Replay
  import opened Adp
  import opened Association
  import opened AdpProtocol
  import opened AdpFreshness

  // ------------------------------------------------------------ data

  /** A reliable packet that is let through: taken, held or handed up when it is new, in reach and has room; acked then or as a copy; else nothing. */
  lemma ReliableArrives(c: Conn, d: Datagram, opens: bool, from: nat, nowMs: int, p: Params)
    requires IsReliable(d.kind) && LetThrough(c, d, opens, nowMs, p) && WindowsOk(c) && d.seqNo >= 1
    requires c.rx.window.size >= 1
    ensures var t := AfterDatagram(c, d, opens, from, nowMs, p);
      var isNew := !Seen(c.rx.window, d.seqNo) && d.seqNo <= c.rx.window.last + c.rx.window.size
                   && (!c.rx.handler || |c.rx.hold| < p.reliableWindow || d.seqNo == c.rx.next);
      && (isNew ==> Seen(t.rx.window, d.seqNo) && t.path.peer == from && t.path.lastAuthRxMs == nowMs)
      && (!isNew ==> t.rx == c.rx && t.path.peer == c.path.peer && t.path.lastAuthRxMs == c.path.lastAuthRxMs)
      && t.wire == (if isNew || Seen(c.rx.window, d.seqNo) then c.wire + [Datagram(Ack, d.seqNo, TruncTs(nowMs), [], Mac(c.keys.binder))] else c.wire)
  {
    hide AcceptSkew, Released, NewerStamp;
    AcceptMeans(c.rx.window, d.seqNo);
    hide AfterAccept, Seen, Valid;
  }

  /** A best-effort packet let through: handed up once when new, and then it moves the path and liveness; a copy does nothing. */
  lemma BestEffortArrives(c: Conn, d: Datagram, opens: bool, from: nat, nowMs: int, p: Params)
    requires (d.kind.DataBestEffort? || d.kind.PlainBestEffort?) && LetThrough(c, d, opens, nowMs, p) && WindowsOk(c)
    ensures var t, isNew := AfterDatagram(c, d, opens, from, nowMs, p), !Seen(c.rxBe, d.seqNo);
      && t.bestEffort == (if isNew && c.rx.handler then c.bestEffort + [Message(d.seqNo, IsSealed(d.kind), d.payload)] else c.bestEffort)
      && (isNew ==> Seen(t.rxBe, d.seqNo) && t.path.peer == from && t.path.lastAuthRxMs == nowMs)
      && (!isNew ==> t.path.peer == c.path.peer && t.path.lastAuthRxMs == c.path.lastAuthRxMs && t.rxBe == c.rxBe)
      && t.wire == c.wire && t.rx == c.rx
  {
    hide AcceptSkew, NewerStamp;
    AcceptMeans(c.rxBe, d.seqNo);
    hide AfterAccept, Seen, Valid;
  }

  /** Past its window a sliding window starts over at the number that came; within it numbers are kept one by one; nothing in between counts as seen. */
  lemma SlidesOnlyPastTheWindow(w: Window, n: nat, m: nat)
    requires Valid(w) && w.slides && !Seen(w, n)
    ensures var t := AfterAccept(w, n).0;
      if n > w.last + w.size && n != w.last + 1 then t.last == n && t.pending == {}
      else Seen(t, m) <==> Seen(w, m) || m == n
  {
    AcceptMeans(w, n);
    if n == w.last + 1 { AdvancedMeans(n, w.pending); }
  }

  // ------------------------------------------------------------ control

  /** A close is heeded by an authenticated end, or by a dialer still waiting for its handshake, and by no other; an ack or keepalive closes nothing. */
  lemma CloseHeeded(c: Conn, d: Datagram, opens: bool, from: nat, nowMs: int, p: Params)
    requires !IsData(d.kind)
    ensures AfterDatagram(c, d, opens, from, nowMs, p).closed <==>
            c.closed || (d.kind.Close? && LetThrough(c, d, opens, nowMs, p) && (c.keys.authenticated || p.dialerBackoff))
  {
    hide AcceptSkew, NewerStamp, AckSampled, Without, AfterHeard;
  }

  /** Data closes nothing. */
  lemma DataClosesNothing(c: Conn, d: Datagram, opens: bool, from: nat, nowMs: int, p: Params)
    requires IsData(d.kind)
    ensures AfterDatagram(c, d, opens, from, nowMs, p).closed == c.closed
  {
    hide AcceptSkew, NewerStamp, Arrived, AfterAccept, AfterHeard, Judge, Emit;
  }

  /** An ack let through settles every packet of its number and no other. */
  lemma AckSettlesItsNumber(c: Conn, d: Datagram, opens: bool, from: nat, nowMs: int, p: Params, o: Outgoing)
    requires d.kind.Ack? && LetThrough(c, d, opens, nowMs, p)
    ensures o in AfterDatagram(c, d, opens, from, nowMs, p).outstanding <==> o in c.outstanding && o.seqNo != d.seqNo
  {
    hide AcceptSkew, NewerStamp, AckSampled, AfterHeard;
    KeptExactly(c.outstanding, d.seqNo, o);
  }

  lemma {:induction false} KeptExactly(q: seq<Outgoing>, seqNo: uint32, o: Outgoing)
    ensures o in Without(q, seqNo, false) <==> o in q && o.seqNo != seqNo
  {
    if q != [] {
      KeptExactly(q[..|q| - 1], seqNo, o);
      assert q == q[..|q| - 1] + [q[|q| - 1]];
    }
  }

  // ------------------------------------------------------------ what the timer learns

  /** Karn's rule: without a packet of that number sent just once, an ack teaches nothing. */
  lemma {:induction false} OnlyCleanAcksTeach(q: seq<Outgoing>, seqNo: uint32, nowMs: int, t: Timer)
    requires forall i :: 0 <= i < |q| && q[i].seqNo == seqNo ==> q[i].attempts != 0
    ensures AckSampled(q, seqNo, nowMs, t) == t
  {
    if q != [] { OnlyCleanAcksTeach(q[1..], seqNo, nowMs, t); }
  }

  /** With one, its round trip is the sample. */
  lemma {:induction false} CleanAckTeaches(q: seq<Outgoing>, i: nat, nowMs: int, t: Timer)
    requires i < |q| && q[i].attempts == 0 && forall j :: 0 <= j < i ==> q[j].seqNo != q[i].seqNo
    ensures AckSampled(q, q[i].seqNo, nowMs, t) == RttSampled(t, nowMs - q[i].firstSentMs)
  {
    if i > 0 {
      assert q[1..][i - 1] == q[i];
      CleanAckTeaches(q[1..], i - 1, nowMs, t);
    }
  }

  /** `moved` is `part`-th of the way from `was` to `goal`, what is left over dropped (toward zero). */
  predicate PartWay(was: int, goal: int, part: int, moved: int) {
    if goal >= was then 0 <= (goal - was) - part * (moved - was) < part else 0 <= (was - goal) - part * (was - moved) < part
  }

  /** The first sample sets the estimate; each later one moves SRTT an eighth of the way to it and RTTVAR a quarter of the way to the error; either clears the back-off. */
  lemma SampleMoves(t: Timer, rttMs: int)
    ensures var u, sample := RttSampled(t, rttMs), Max(rttMs, 0);
      && u.backoff == 0
      && (t.srttMs < 0 ==> u.srttMs == sample && 0 <= sample - 2 * u.rttvarMs <= 1)
      && (t.srttMs >= 0 ==>
            && PartWay(t.srttMs, sample, 8, u.srttMs)
            && PartWay(t.rttvarMs, Max(sample - t.srttMs, t.srttMs - sample), 4, u.rttvarMs))
  {
  }

  // ------------------------------------------------------------ who is not heard

  /** A packet under neither the key bound nor the one before the upgrade, or sealed and not opened, does nothing. */
  lemma StrangersIgnored(c: Conn, d: Datagram, opens: bool, from: nat, nowMs: int, p: Params)
    requires if IsSealed(d.kind) then !c.keys.sealing || !d.auth.Aead? || !opens
             else d.auth != Mac(c.keys.binder) && (c.keys.preUpgrade.Some? ==> d.auth != Mac(c.keys.preUpgrade.value))
    ensures AfterDatagram(c, d, opens, from, nowMs, p) == c
  {
  }

  /** Nor one under a right key whose stamp is more than the skew off. */
  lemma StaleIgnored(c: Conn, d: Datagram, opens: bool, from: nat, sentMs: int, nowMs: int, p: Params)
    requires !IsSealed(d.kind) && d.stamp == sentMs % 0x1_0000_0000
    requires 0 <= p.skewMs < 0x8000_0000 && -0x8000_0000 < nowMs - sentMs < 0x8000_0000
    requires nowMs - sentMs > p.skewMs || sentMs - nowMs > p.skewMs
    ensures AfterDatagram(c, d, opens, from, nowMs, p) == c
  {
    AcceptSkewMeans(sentMs, nowMs, p.skewMs);
    hide AcceptSkew;
  }

  /** Data in the clear once the session seals: never taken; a reliable packet taken before is acked again. */
  lemma ClearDataRefused(c: Conn, d: Datagram, opens: bool, from: nat, nowMs: int, p: Params)
    requires (d.kind.PlainBestEffort? || d.kind.PlainReliable?) && c.keys.sealing && d.auth == Mac(c.keys.binder) && d.seqNo >= 1
    ensures AfterDatagram(c, d, opens, from, nowMs, p) ==
      if d.kind.PlainReliable? && Seen(c.rx.window, d.seqNo) && AcceptSkew(d.stamp, nowMs, p.skewMs)
      then c.(wire := c.wire + [Datagram(Ack, d.seqNo, TruncTs(nowMs), [], Mac(c.keys.binder))])
      else c
  {
    hide AcceptSkew;
  }

  // ------------------------------------------------------------ control packets sent

  /** A close or keepalive goes out under the key bound, numbered 0 and stamped; a close closes; a closed end sends neither. */
  lemma ControlGoesOut(c: Conn, close: bool, payload: Bytes, nowMs: int)
    ensures var t := AfterControlSent(c, close, payload, nowMs);
      && (t.closed <==> c.closed || close)
      && t.wire == (if c.closed then c.wire
                    else c.wire + [Datagram(if close then Close else Keepalive, 0, nowMs % 0x1_0000_0000, payload, Mac(c.keys.binder))])
      && t == c.(closed := t.closed, wire := t.wire)
  {
  }

  /** A new association: nothing sent or heard, numbers from 1, its two windows of their kinds and sizes. */
  lemma StartsWith(p: Params, key: nat, peer: nat)
    ensures var c := NewConn(p, key, peer);
      && c.rxBe == Window(p.replayWindow, true, 0, {})
      && c.rx.window == Window(if p.replayWindow < p.reliableWindow then p.reliableWindow else p.replayWindow, false, 0, {})
      && c.rx.next == 1 && c.rx.hold == map[] && !c.rx.handler && c.rx.messages == c.bestEffort == []
      && c.txBe == c.txRel == 0 && c.outstanding == [] && c.wire == [] && !c.closed
      && c.keys.authenticated == !p.reduceRtxUntilAuthenticated && c.keys.binder == key && c.keys.preUpgrade == None && !c.keys.sealing
      && c.timer.backoff == 0 && c.timer.srttMs < 0 && c.path.peer == peer && !c.path.haveStamp
  {
  }

  /** A closed end sends nothing more: neither data nor a resend nor a control packet; it still acks what comes. */
  lemma ClosedSendsNothing(c: Conn, reliable: bool, close: bool, payload: Bytes, nowMs: int, p: Params)
    requires c.closed && c.timer.backoff >= 0
    ensures AfterSend(c, reliable, payload, nowMs, p) == (c, ErrClosed)
    ensures AfterTick(c, nowMs, p) == c && AfterControlSent(c, close, payload, nowMs) == c
  {
  }
}
