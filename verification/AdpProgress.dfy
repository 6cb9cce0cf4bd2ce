/**
 Where an association stands when nothing more is sent (src/L1/Connection.cpp:324-422, 458-618): with both ends' keys in
 agreement deliveries alone can always finish the job, and a plain packet its receiver had not taken before it got keys
 never arrives.
 */
module AdpProgress {
  import opened Words
  import opened Replay
  import opened Adp
  import opened Association
  import opened AdpProtocol
  import opened AdpSafety

  // ------------------------------------------------------------ what is in flight was sent as it is kept

  predicate IsCopy(d: Datagram, o: Outgoing) {
    d.kind == o.kind && d.seqNo == o.seqNo && (IsSealed(d.kind) ==> d.auth.Aead?)
  }

  ghost predicate HasCopy(wire: seq<Datagram>, o: Outgoing) {
    exists d :: d in wire && IsCopy(d, o)
  }

  ghost predicate Copies(q: seq<Outgoing>, wire: seq<Datagram>) {
    forall i :: 0 <= i < |q| ==> HasCopy(wire, q[i])
  }

  lemma MoreWire(q: seq<Outgoing>, wire: seq<Datagram>, more: seq<Datagram>)
    requires Copies(q, wire)
    ensures Copies(q, wire + more)
  {
    forall i | 0 <= i < |q|
      ensures HasCopy(wire + more, q[i])
    {
      assert HasCopy(wire, q[i]);
      var d :| d in wire && IsCopy(d, q[i]);
      assert d in wire + more;
    }
  }

  lemma SendKeepsCopies(c: Conn, reliable: bool, payload: Bytes, nowMs: int, p: Params)
    requires c.timer.backoff >= 0 && Copies(c.outstanding, c.wire)
    ensures var t := AfterSend(c, reliable, payload, nowMs, p).0; Copies(t.outstanding, t.wire)
  {
    hide RetransmitIntervalMs, Copies;
    var t := AfterSend(c, reliable, payload, nowMs, p).0;
    if t.wire != c.wire {
      var d := t.wire[|c.wire|];
      assert t.wire == c.wire + [d];
      MoreWire(c.outstanding, c.wire, [d]);
      if t.outstanding != c.outstanding { NewCopy(c.outstanding, t.outstanding[|c.outstanding|], t.wire, d); }
    }
  }

  lemma NewCopy(q: seq<Outgoing>, o: Outgoing, wire: seq<Datagram>, d: Datagram)
    requires Copies(q, wire) && d in wire && IsCopy(d, o)
    ensures Copies(q + [o], wire)
  {
    assert HasCopy(wire, o);
  }

  lemma TickKeepsCopies(c: Conn, nowMs: int, p: Params)
    requires Copies(c.outstanding, c.wire)
    ensures var t := AfterTick(c, nowMs, p); Copies(t.outstanding, t.wire)
  {
    if !c.closed {
      var q := c.outstanding;
      var after, more := ResentAll(q, nowMs, c.keys, c.timer, p), ResendDatagrams(q, nowMs, c.keys);
      ResentAt(q, nowMs, c.keys, c.timer, p);
      LostFits(after, nowMs, c.keys);
      MoreWire(q, c.wire, more);
      hide RetransmitIntervalMs, ResentAll, ResendDatagrams, BackedOff, LostAtFront;
      forall i | 0 <= i < |after|
        ensures HasCopy(c.wire + more, after[i])
      {
        assert HasCopy(c.wire + more, q[i]);
        var d :| d in c.wire + more && IsCopy(d, q[i]);
        assert IsCopy(d, after[i]);
      }
    }
  }

  lemma {:induction false} WithoutIn(q: seq<Outgoing>, seqNo: uint32, only: bool)
    ensures forall i :: 0 <= i < |Without(q, seqNo, only)| ==> Without(q, seqNo, only)[i] in q
    ensures |Without(q, seqNo, only)| <= |q|
    ensures InFlight(q, seqNo) && !only ==> |Without(q, seqNo, only)| < |q|
  {
    if q != [] {
      var n := |q| - 1;
      WithoutIn(q[..n], seqNo, only);
      if InFlight(q, seqNo) && q[n].seqNo != seqNo {
        var i :| 0 <= i < |q| && q[i].seqNo == seqNo;
        assert q[..n][i].seqNo == seqNo;
      }
    }
  }

  lemma FewerCopies(q: seq<Outgoing>, fewer: seq<Outgoing>, wire: seq<Datagram>)
    requires Copies(q, wire) && forall i :: 0 <= i < |fewer| ==> fewer[i] in q
    ensures Copies(fewer, wire)
  {
    forall i | 0 <= i < |fewer|
      ensures HasCopy(wire, fewer[i])
    {
      var j :| 0 <= j < |q| && q[j] == fewer[i];
      assert HasCopy(wire, q[j]);
    }
  }

  lemma DeliverKeepsCopies(c: Conn, d: Datagram, opens: bool, from: nat, nowMs: int, p: Params)
    requires Copies(c.outstanding, c.wire)
    ensures var t := AfterDatagram(c, d, opens, from, nowMs, p); Copies(t.outstanding, t.wire)
  {
    DatagramEffect(c, d, opens, from, nowMs, p);
    hide AfterDatagram, Copies, Without, Emit;
    var t := AfterDatagram(c, d, opens, from, nowMs, p);
    if d.kind.Ack? {
      WithoutIn(c.outstanding, d.seqNo, true);
      WithoutIn(c.outstanding, d.seqNo, false);
      FewerCopies(c.outstanding, t.outstanding, c.wire);
    } else if t.wire != c.wire {
      var key :| t.wire == c.wire + [AckOf(c, d.seqNo, nowMs, key)];
      MoreWire(c.outstanding, c.wire, [AckOf(c, d.seqNo, nowMs, key)]);
    }
  }

  lemma ActKeepsCopies(me: Side, act: Action, p: Params)
    requires me.c.timer.backoff >= 0 && Copies(me.c.outstanding, me.c.wire)
    ensures var t := Act(me, act, p); Copies(t.c.outstanding, t.c.wire)
  {
    match act {
      case Send(reliable, payload, nowMs) => SendKeepsCopies(me.c, reliable, payload, nowMs, p);
      case Tick(nowMs) => TickKeepsCopies(me.c, nowMs, p);
      case Deliver(d, opens, from, nowMs) => DeliverKeepsCopies(me.c, d, opens, from, nowMs, p);
      case Control(close, payload, nowMs) =>
        MoreWire(me.c.outstanding, me.c.wire, [Emit(me.c.keys, if close then Close else Keepalive, 0, payload, nowMs, me.c.keys.binder)]);
      case _ =>
    }
    hide Copies, AfterSend, AfterTick, AfterDatagram, Emit;
  }

  lemma StepKeepsCopies(s: System, t: System, p: Both)
    requires Next(s, t, p) && Copies(s.x.c.outstanding, s.x.c.wire)
    ensures Copies(t.x.c.outstanding, t.x.c.wire)
  {
    hide Act, Copies;
    var act: Action :|
      || (Possible(s.y, act) && t == System(Act(s.x, act, p.x), s.y))
      || (Possible(s.x, act) && t == System(s.x, Act(s.y, act, p.y)));
    ActKeepsCopies(s.x, act, p.x);
  }

  lemma {:induction false} RunKeepsCopies(run: seq<System>, p: Both)
    requires Run(run, p)
    ensures Copies(run[|run| - 1].x.c.outstanding, run[|run| - 1].x.c.wire)
  {
    if |run| > 1 {
      var front := run[..|run| - 1];
      assert forall i :: 0 <= i < |front| - 1 ==> Next(front[i], front[i + 1], p);
      RunKeepsCopies(front, p);
      StepKeepsCopies(front[|front| - 1], run[|run| - 1], p);
    }
  }

  // ------------------------------------------------------------ reachability

  ghost predicate Path(path: seq<System>, s: System, t: System, p: Both) {
    && |path| > 0 && path[0] == s && path[|path| - 1] == t
    && forall i :: 0 <= i < |path| - 1 ==> Next(path[i], path[i + 1], p)
  }

  ghost predicate Leads(s: System, t: System, p: Both) {
    exists path: seq<System> :: Path(path, s, t, p)
  }

  lemma LeadsToItself(s: System, p: Both)
    ensures Leads(s, s, p)
  {
    assert Path([s], s, s, p);
  }

  lemma LeadsOn(s: System, t: System, u: System, p: Both)
    requires Leads(s, t, p) && Next(t, u, p)
    ensures Leads(s, u, p)
  {
    var path :| Path(path, s, t, p);
    var longer := path + [u];
    forall i | 0 <= i < |longer| - 1
      ensures Next(longer[i], longer[i + 1], p)
    {
      if i < |path| - 1 { assert Next(path[i], path[i + 1], p); }
    }
    assert Path(longer, s, u, p);
  }

  // ------------------------------------------------------------ keys in agreement: it can always be finished

  /** Both ends are up under the same keys, what is in flight is sealed, nothing was given up, and y's window is not empty. */
  ghost predicate Agreed(s: System, p: Both) {
    && Inv(s, p) && Copies(s.x.c.outstanding, s.x.c.wire)
    && !s.x.c.closed && !s.y.c.closed && s.y.c.keys.sealing && s.x.c.keys.binder == s.y.c.keys.binder
    && (forall i :: 0 <= i < |s.x.c.outstanding| ==> s.x.c.outstanding[i].kind.DataReliable?)
    && s.x.lost == [] && s.y.c.rx.window.size >= 1 && p.x.skewMs >= 0
  }

  /** The number y waits for is in flight, sealed; its arrival moves delivery on. */
  lemma WaitedPacketMovesOn(s: System, p: Both) returns (t: System)
    requires Agreed(s, p) && |s.y.c.rx.messages| < |s.x.sent|
    ensures Next(s, t, p) && t.x == s.x && |t.y.c.rx.messages| > |s.y.c.rx.messages|
    ensures t.y.c.keys == s.y.c.keys && !t.y.c.closed && t.y.c.rx.window.size == s.y.c.rx.window.size
  {
    var n := |s.y.c.rx.messages| + 1;
    WaitedIsInFlight(s, p);
    var d := SealedCopy(s, p, n);
    hide InFlight, Accounted, SenderOk, Copies, Act;
    var act := Deliver(d, true, 0, 0);
    assert Possible(s.x, act);
    t := System(s.x, Act(s.y, act, p.y));
    WaitedArrives(s.y.c, d, s.x.sent, p.y);
    Delivering(s.y, act, p.y);
    assert Next(s, t, p);
  }

  lemma SealedCopy(s: System, p: Both, n: nat) returns (d: Datagram)
    requires Agreed(s, p) && InFlight(s.x.c.outstanding, n)
    ensures d in s.x.c.wire && d.kind.DataReliable? && d.seqNo == n && d.auth.Aead?
  {
    var i :| 0 <= i < |s.x.c.outstanding| && s.x.c.outstanding[i].seqNo == n;
    assert HasCopy(s.x.c.wire, s.x.c.outstanding[i]);
    d :| d in s.x.c.wire && IsCopy(d, s.x.c.outstanding[i]);
  }

  lemma Delivering(me: Side, act: Action, p: Params)
    requires act.Deliver? && me.c.timer.backoff >= 0
    ensures Act(me, act, p) == me.(c := AfterDatagram(me.c, act.d, act.opens, act.from, act.nowMs, p))
  {
  }

  lemma WaitedIsInFlight(s: System, p: Both)
    requires Agreed(s, p) && |s.y.c.rx.messages| < |s.x.sent|
    ensures InFlight(s.x.c.outstanding, |s.y.c.rx.messages| + 1)
  {
    var n := |s.y.c.rx.messages| + 1;
    assert !Seen(s.y.c.rx.window, n);
  }

  lemma WaitedArrives(c: Conn, d: Datagram, sent: seq<Bytes>, p: Params)
    requires Lockstep(c.rx) && InOrder(c.rx, sent) && |sent| < U32
    requires c.keys.sealing && d.kind.DataReliable? && d.auth.Aead? && d.seqNo == |c.rx.messages| + 1 && c.rx.window.size >= 1
    ensures var t := AfterDatagram(c, d, true, 0, 0, p);
      |t.rx.messages| > |c.rx.messages| && t.keys == c.keys && t.closed == c.closed && t.rx.window.size == c.rx.window.size
  {
    hide Emit, AfterHeard, Released, Advanced;
    var m := Message(d.seqNo, true, d.payload);
    assert Judge(c.rx.window, d.seqNo) == IsFresh;
    NextReleases(c.rx, m, p.reliableWindow);
  }

  lemma {:induction false} AllCanArrive(s: System, p: Both) returns (t: System)
    requires Agreed(s, p)
    ensures Leads(s, t, p) && Agreed(t, p) && t.x == s.x && |t.y.c.rx.messages| == |s.x.sent|
    decreases |s.x.sent| - |s.y.c.rx.messages|
  {
    hide Flow, Copies;
    LeadsToItself(s, p);
    t := s;
    NotAhead(t, p);
    while |t.y.c.rx.messages| < |s.x.sent|
      invariant Leads(s, t, p) && Agreed(t, p) && t.x == s.x && |t.y.c.rx.messages| <= |s.x.sent|
      decreases |s.x.sent| - |t.y.c.rx.messages|
    {
      var u := WaitedPacketMovesOn(t, p);
      StepKeepsInv(t, u, p);
      LeadsOn(s, t, u, p);
      t := u;
      NotAhead(t, p);
    }
  }

  lemma NotAhead(s: System, p: Both)
    requires Inv(s, p)
    ensures |s.y.c.rx.messages| <= |s.x.sent|
  {
  }

  /** A packet in flight that y has: one more copy draws an ack, and the ack settles it. */
  lemma OneSettles(s: System, p: Both) returns (t: System)
    requires Agreed(s, p) && |s.y.c.rx.messages| == |s.x.sent| && s.x.c.outstanding != []
    ensures Leads(s, t, p) && Agreed(t, p) && t.x.sent == s.x.sent && t.y.c.rx == s.y.c.rx
    ensures |t.x.c.outstanding| < |s.x.c.outstanding|
  {
    FirstIsTaken(s, p);
    var n := s.x.c.outstanding[0].seqNo;
    var d := SealedCopy(s, p, n);
    hide SenderOk, ReceiverOk, Accounted, Copies, Act, AfterDatagram, InFlight;
    var again := Deliver(d, true, 0, 0);
    assert Possible(s.x, again);
    var u := System(s.x, Act(s.y, again, p.y));
    assert Next(s, u, p);
    Delivering(s.y, again, p.y);
    CopyIsAcked(s.y.c, d, p.y);
    StepKeepsInv(s, u, p);
    var ack := AckOf(s.y.c, n, 0, s.y.c.keys.binder);
    var hear := Deliver(ack, true, 0, 0);
    assert ack in u.y.c.wire;
    assert Possible(u.y, hear);
    t := System(Act(u.x, hear, p.x), u.y);
    assert Next(u, t, p);
    Delivering(u.x, hear, p.x);
    StepKeepsInv(u, t, p);
    StepKeepsCopies(u, t, p);
    AckSettles(u.x.c, ack, p.x);
    LeadsToItself(s, p);
    LeadsOn(s, s, u, p);
    LeadsOn(s, u, t, p);
  }

  lemma FirstIsTaken(s: System, p: Both)
    requires Inv(s, p) && |s.y.c.rx.messages| == |s.x.sent| && s.x.c.outstanding != []
    ensures Seen(s.y.c.rx.window, s.x.c.outstanding[0].seqNo) && InFlight(s.x.c.outstanding, s.x.c.outstanding[0].seqNo)
  {
    assert PacketOk(s.x.c.outstanding[0], s.x.sent, s.x.c.wire, p.x);
  }

  lemma CopyIsAcked(c: Conn, d: Datagram, p: Params)
    requires c.keys.sealing && d.kind.DataReliable? && d.auth.Aead? && Seen(c.rx.window, d.seqNo)
    ensures AfterDatagram(c, d, true, 0, 0, p) ==
            c.(path := AfterHeard(c.path, d, false, 0, 0), wire := c.wire + [AckOf(c, d.seqNo, 0, c.keys.binder)])
  {
    hide Emit, AfterHeard;
  }

  lemma AckSettles(c: Conn, ack: Datagram, p: Params)
    requires ack.kind.Ack? && ack.auth == Mac(c.keys.binder) && ack.stamp == TruncTs(0) && p.skewMs >= 0
    requires InFlight(c.outstanding, ack.seqNo)
    ensures var t := AfterDatagram(c, ack, true, 0, 0, p);
      && |t.outstanding| < |c.outstanding| && t.keys == c.keys && t.closed == c.closed
      && forall i :: 0 <= i < |t.outstanding| ==> t.outstanding[i] in c.outstanding
  {
    hide AfterHeard, AckSampled, NewerStamp;
    WithoutIn(c.outstanding, ack.seqNo, false);
    assert AcceptSkew(ack.stamp, 0, p.skewMs);
  }

  /**
   No dead end: from every state of every run with the ends' keys in agreement and nothing given up, deliveries alone lead
   to rest, the peer's handler given everything and nothing in flight.
   */
  lemma NeverWedged(run: seq<System>, p: Both) returns (t: System)
    requires Run(run, p)
    requires var s := run[|run| - 1];
      && !s.x.c.closed && !s.y.c.closed && s.y.c.keys.sealing && s.x.c.keys.binder == s.y.c.keys.binder
      && (forall i :: 0 <= i < |s.x.c.outstanding| ==> s.x.c.outstanding[i].kind.DataReliable?)
      && s.x.lost == [] && s.y.c.rx.window.size >= 1 && p.x.skewMs >= 0
    ensures var s := run[|run| - 1];
      && Leads(s, t, p) && t.x.sent == s.x.sent && t.x.c.outstanding == []
      && |t.y.c.rx.messages| == |t.x.sent|
      && forall i :: 0 <= i < |t.x.sent| ==> t.y.c.rx.messages[i].payload == t.x.sent[i]
  {
    hide Copies, Next;
    var s := run[|run| - 1];
    RunKeepsInv(run, p);
    RunKeepsCopies(run, p);
    t := AllCanArrive(s, p);
    while t.x.c.outstanding != []
      invariant Leads(s, t, p) && Agreed(t, p) && t.x.sent == s.x.sent && |t.y.c.rx.messages| == |s.x.sent|
      decreases |t.x.c.outstanding|
    {
      var u := OneSettles(t, p);
      LeadsTogether(s, t, u, p);
      t := u;
    }
  }

  lemma LeadsTogether(s: System, t: System, u: System, p: Both)
    requires Leads(s, t, p) && Leads(t, u, p)
    ensures Leads(s, u, p)
  {
    var first :| Path(first, s, t, p);
    var second :| Path(second, t, u, p);
    var path := first + second[1..];
    forall i | 0 <= i < |path| - 1
      ensures Next(path[i], path[i + 1], p)
    {
      if i < |first| - 1 {
        assert Next(first[i], first[i + 1], p);
      } else {
        var k := i - (|first| - 1);
        assert Next(second[k], second[k + 1], p) && path[i] == second[k] && path[i + 1] == second[k + 1];
      }
    }
    assert Path(path, s, u, p);
  }

  // ------------------------------------------------------------ a plain packet left behind

  /** Number `n` was sent, and in the clear only. */
  ghost predicate PlainOnly(c: Conn, n: nat) {
    && 1 <= n <= c.txRel
    && (forall d :: d in c.wire && IsReliable(d.kind) && d.seqNo == n ==> d.kind.PlainReliable?)
    && (forall i :: 0 <= i < |c.outstanding| && c.outstanding[i].seqNo == n ==> c.outstanding[i].kind.PlainReliable?)
  }

  ghost predicate LeftBehind(s: System, n: nat) {
    && PlainOnly(s.x.c, n) && s.y.c.keys.sealing && !Seen(s.y.c.rx.window, n)
    && Valid(s.y.c.rx.window) && !s.y.c.rx.window.slides
  }

  lemma ActKeepsPlain(me: Side, act: Action, p: Params, n: nat)
    requires me.c.timer.backoff >= 0 && PlainOnly(me.c, n)
    ensures PlainOnly(Act(me, act, p).c, n)
  {
    match act {
      case Send(reliable, payload, nowMs) =>
        hide RetransmitIntervalMs;
      case Tick(nowMs) => TickKeepsPlain(me.c, nowMs, p, n);
      case Deliver(d, opens, from, nowMs) =>
        DatagramEffect(me.c, d, opens, from, nowMs, p);
        WithoutIn(me.c.outstanding, d.seqNo, true);
        WithoutIn(me.c.outstanding, d.seqNo, false);
        hide AfterDatagram, Without;
      case _ =>
    }
  }

  lemma TickKeepsPlain(c: Conn, nowMs: int, p: Params, n: nat)
    requires PlainOnly(c, n)
    ensures PlainOnly(AfterTick(c, nowMs, p), n)
  {
    if !c.closed {
      var after, more := ResentAll(c.outstanding, nowMs, c.keys, c.timer, p), ResendDatagrams(c.outstanding, nowMs, c.keys);
      ResentAt(c.outstanding, nowMs, c.keys, c.timer, p);
      LostFits(after, nowMs, c.keys);
      forall d | d in more && IsReliable(d.kind) && d.seqNo == n
        ensures d.kind.PlainReliable?
      {
        ResendKind(c.outstanding, nowMs, c.keys, d, n);
      }
      hide RetransmitIntervalMs, ResentAll, ResendDatagrams, BackedOff, LostAtFront;
    }
  }

  lemma {:induction false} ResendKind(q: seq<Outgoing>, nowMs: int, k: Keys, d: Datagram, n: nat)
    requires d in ResendDatagrams(q, nowMs, k) && d.seqNo == n
    requires forall i :: 0 <= i < |q| && q[i].seqNo == n ==> q[i].kind.PlainReliable?
    ensures d.kind.PlainReliable?
  {
    if d in ResendDatagrams(q[..|q| - 1], nowMs, k) { ResendKind(q[..|q| - 1], nowMs, k, d, n); }
  }

  /** A datagram makes the window see at most its own number, and a plain one none once keys are there. */
  lemma SeesOnlyItsOwn(c: Conn, d: Datagram, opens: bool, from: nat, nowMs: int, p: Params, n: nat)
    requires Valid(c.rx.window) && !c.rx.window.slides && c.keys.sealing && !Seen(c.rx.window, n)
    requires IsReliable(d.kind) && d.seqNo == n ==> d.kind.PlainReliable?
    ensures var t := AfterDatagram(c, d, opens, from, nowMs, p);
      !Seen(t.rx.window, n) && Valid(t.rx.window) && !t.rx.window.slides && t.keys == c.keys
  {
    hide AcceptSkew, Emit, NewerStamp, AckSampled, Without, Released, Advanced, AfterHeard;
    AcceptMeans(c.rx.window, d.seqNo);
    hide AfterAccept, Judge, Valid, Seen;
  }

  lemma LeftBehindStays(s: System, t: System, p: Both, n: nat)
    requires Next(s, t, p) && LeftBehind(s, n)
    ensures LeftBehind(t, n)
  {
    hide Act, PlainOnly;
    var act: Action :|
      || (Possible(s.y, act) && t == System(Act(s.x, act, p.x), s.y))
      || (Possible(s.x, act) && t == System(s.x, Act(s.y, act, p.y)));
    if Possible(s.y, act) && t == System(Act(s.x, act, p.x), s.y) {
      ActKeepsPlain(s.x, act, p.x, n);
    } else if act.Deliver? {
      Delivering(s.y, act, p.y);
      assert IsReliable(act.d.kind) && act.d.seqNo == n ==> act.d.kind.PlainReliable? by { PlainThere(s.x.c, act.d, n); }
      SeesOnlyItsOwn(s.y.c, act.d, act.opens, act.from, act.nowMs, p.y, n);
    } else {
      OthersLeaveWindow(s.y, act, p.y);
    }
  }

  lemma PlainThere(c: Conn, d: Datagram, n: nat)
    requires PlainOnly(c, n) && d in c.wire
    ensures IsReliable(d.kind) && d.seqNo == n ==> d.kind.PlainReliable?
  {
  }

  lemma OthersLeaveWindow(me: Side, act: Action, p: Params)
    requires me.c.timer.backoff >= 0 && !act.Deliver?
    ensures Act(me, act, p).c.rx == me.c.rx && (me.c.keys.sealing ==> Act(me, act, p).c.keys.sealing)
  {
    hide RetransmitIntervalMs;
  }

  /** Wherever it leads from there, the plain packet is never taken: sealing refuses it, and its number is only ever resent as it was. */
  lemma {:induction false} PlainNeverArrives(path: seq<System>, s: System, t: System, p: Both, n: nat)
    requires Path(path, s, t, p) && LeftBehind(s, n)
    ensures LeftBehind(t, n)
    decreases |path|
  {
    if |path| > 1 {
      var front := path[..|path| - 1];
      assert forall i :: 0 <= i < |front| - 1 ==> Next(front[i], front[i + 1], p);
      PlainNeverArrives(front, s, front[|front| - 1], p, n);
      LeftBehindStays(front[|front| - 1], t, p, n);
    }
  }

  /** And such a state is soon reached: a packet sent before keys, still on its way when the other end gets them. */
  lemma PlainLeftBehind(p: Both, key: nat, payload: Bytes) returns (run: seq<System>)
    requires |payload| <= MAX_PAYLOAD && p.x.reliableWindow >= 1
    ensures Run(run, p) && run[|run| - 1].x.sent == [payload] && LeftBehind(run[|run| - 1], 1)
  {
    hide RetransmitIntervalMs;
    var x, y := FreshSide(p.x, key, 0), FreshSide(p.y, key, 0);
    var send := Send(true, payload, 0);
    var x1 := Act(x, send, p.x);
    var y1 := Act(y, Protect, p.y);
    run := [System(x, y), System(x1, y), System(x1, y1)];
    assert Starts(run[0], p);
    assert Possible(y, send) && Next(run[0], run[1], p);
    assert Possible(x1, Protect) && Next(run[1], run[2], p);
  }
}
