/**
 Two associations over a network that drops, duplicates and reorders, through the switch
 from plain to sealed packets and from the pre-session key to the session's.

 The network towards an end is everything its peer ever handed to its socket. A sealed
 datagram may open or not each time it arrives: whether the keys still match is left open.
 */
module AdpProtocol {
  import opened Words
  import opened Replay
  import opened Adp
  import opened Association

  /** `sent`: reliable payloads Send took; `lost`: numbers given up on, as counted in reliable_lost. */
  datatype Side = Side(c: Conn, sent: seq<Bytes>, lost: seq<uint32>)
  datatype System = System(x: Side, y: Side)
  datatype Both = Both(x: Params, y: Params)

  datatype Action =
    | Send(reliable: bool, payload: Bytes, nowMs: int)
    | Tick(nowMs: int)
    | Upgrade(key: nat)
    | Protect
    | Control(close: bool, payload: Bytes, nowMs: int)
    | Deliver(d: Datagram, opens: bool, from: nat, nowMs: int)

  /** A new association with its handler set from the start. */
  function FreshSide(p: Params, key: nat, peer: nat): Side {
    var c := NewConn(p, key, peer);
    Side(c.(rx := c.rx.(handler := true)), [], [])
  }

  function Act(me: Side, act: Action, p: Params): Side
    requires me.c.timer.backoff >= 0
  {
    match act
    case Send(reliable, payload, nowMs) =>
      var (c, r) := AfterSend(me.c, reliable, payload, nowMs, p);
      me.(c := c, sent := if reliable && r.Ok? then me.sent + [payload] else me.sent)
    case Tick(nowMs) =>
      me.(c := AfterTick(me.c, nowMs, p), lost := me.lost + GivenUpNow(me.c, nowMs, p))
    case Upgrade(key) => me.(c := AfterUpgrade(me.c, key, p))
    case Protect => me.(c := me.c.(keys := me.c.keys.(sealing := true)))
    case Control(close, payload, nowMs) => me.(c := AfterControlSent(me.c, close, payload, nowMs))
    case Deliver(d, opens, from, nowMs) => me.(c := AfterDatagram(me.c, d, opens, from, nowMs, p))
  }

  /** The numbers a Tick gives up on. */
  function GivenUpNow(c: Conn, nowMs: int, p: Params): seq<uint32> {
    if c.closed then []
    else
      var after := ResentAll(c.outstanding, nowMs, c.keys, c.timer, p);
      LostFits(after, nowMs, c.keys);
      SeqNos(after[..LostAtFront(after, nowMs, c.keys)])
  }

  function SeqNos(q: seq<Outgoing>): seq<uint32> {
    seq(|q|, i requires 0 <= i < |q| => q[i].seqNo)
  }

  ghost predicate Possible(peer: Side, act: Action) {
    act.Deliver? ==> act.d in peer.c.wire
  }

  ghost predicate Next(s: System, t: System, p: Both) {
    && s.x.c.timer.backoff >= 0 && s.y.c.timer.backoff >= 0
    && exists act: Action ::
      || (Possible(s.y, act) && t == System(Act(s.x, act, p.x), s.y))
      || (Possible(s.x, act) && t == System(s.x, Act(s.y, act, p.y)))
  }

  ghost predicate Starts(s: System, p: Both) {
    exists key, px, py :: s == System(FreshSide(p.x, key, py), FreshSide(p.y, key, px))
  }

  ghost predicate Run(run: seq<System>, p: Both) {
    && |run| > 0 && Starts(run[0], p)
    && forall i :: 0 <= i < |run| - 1 ==> Next(run[i], run[i + 1], p)
  }

  // ------------------------------------------------------------ the sending end

  function Cap(p: Params): int {
    Max(0, p.maxRtx)
  }

  /** How often reliable packet `n` went out. */
  function Times(wire: seq<Datagram>, n: int): nat {
    if wire == [] then 0
    else
      var d := wire[|wire| - 1];
      Times(wire[..|wire| - 1], n) + (if IsReliable(d.kind) && d.seqNo == n then 1 else 0)
  }

  ghost predicate PacketOk(o: Outgoing, sent: seq<Bytes>, wire: seq<Datagram>, p: Params) {
    && IsReliable(o.kind) && 1 <= o.seqNo <= |sent| && o.payload == sent[o.seqNo - 1]
    && o.attempts <= Cap(p) && Times(wire, o.seqNo) == 1 + o.attempts
  }

  ghost predicate Ascending(q: seq<Outgoing>) {
    forall i, j :: 0 <= i < j < |q| ==> q[i].seqNo < q[j].seqNo
  }

  ghost predicate QueueOk(q: seq<Outgoing>, sent: seq<Bytes>, wire: seq<Datagram>, p: Params) {
    && (forall i :: 0 <= i < |q| ==> PacketOk(q[i], sent, wire, p))
    && Ascending(q)
  }

  /** Every reliable datagram carries the payload its number was given to. */
  ghost predicate DatagramsOk(wire: seq<Datagram>, sent: seq<Bytes>) {
    forall d :: d in wire && IsReliable(d.kind) ==> 1 <= d.seqNo <= |sent| && d.payload == sent[d.seqNo - 1]
  }

  ghost predicate TimesOk(wire: seq<Datagram>, count: nat, p: Params) {
    && (forall n :: 1 <= n <= count ==> Times(wire, n) <= 1 + Cap(p))
    && (forall n :: n > count ==> Times(wire, n) == 0)
  }

  ghost predicate LostOk(lost: seq<uint32>, q: seq<Outgoing>, count: nat) {
    && (forall i, j :: 0 <= i < j < |lost| ==> lost[i] != lost[j])
    && (forall i, j :: 0 <= i < |lost| && 0 <= j < |q| ==> lost[i] != q[j].seqNo)
    && (forall i :: 0 <= i < |lost| ==> 1 <= lost[i] <= count)
  }

  ghost predicate SenderOk(s: Side, p: Params) {
    && s.c.txRel == |s.sent| && s.c.keys.maxRtx <= p.maxRtx && s.c.timer.backoff >= 0
    && QueueOk(s.c.outstanding, s.sent, s.c.wire, p)
    && DatagramsOk(s.c.wire, s.sent)
    && TimesOk(s.c.wire, |s.sent|, p)
    && |s.lost| == s.c.counts.reliableLost && LostOk(s.lost, s.c.outstanding, |s.sent|)
  }

  // ------------------------------------------------------------ the receiving end

  /** The window and the hold hold the same numbers, and delivery stands where the window does. */
  ghost predicate Lockstep(rx: Rx) {
    && !rx.window.slides && Valid(rx.window) && rx.window.last < U32
    && rx.next == Add32(rx.window.last, 1)
    && (forall n :: n in rx.window.pending <==> n in rx.hold)
  }

  /** OnMessage was given exactly payloads 1..last, in order; what is held is the sender's own. */
  ghost predicate InOrder(rx: Rx, sent: seq<Bytes>) {
    && rx.handler && |rx.messages| == rx.window.last <= |sent|
    && (forall i :: 0 <= i < |rx.messages| ==> rx.messages[i].seqNo == i + 1 && rx.messages[i].payload == sent[i])
    && (forall n :: n in rx.hold ==> 1 <= n <= |sent| && rx.hold[n].seqNo == n && rx.hold[n].payload == sent[n - 1])
  }

  ghost predicate AcksOk(wire: seq<Datagram>, w: Window) {
    forall d :: d in wire && d.kind.Ack? ==> Seen(w, d.seqNo)
  }

  ghost predicate ReceiverOk(r: Side, sent: seq<Bytes>, p: Params) {
    && Lockstep(r.c.rx) && InOrder(r.c.rx, sent) && |r.c.rx.hold| <= p.reliableWindow
    && AcksOk(r.c.wire, r.c.rx.window)
  }

  ghost predicate InFlight(q: seq<Outgoing>, n: int) {
    exists i :: 0 <= i < |q| && q[i].seqNo == n
  }

  /** Every reliable packet is still in flight, or the peer took it, or it was counted lost. */
  ghost predicate Accounted(q: seq<Outgoing>, lost: seq<uint32>, count: nat, w: Window) {
    forall n: nat :: 1 <= n <= count ==> InFlight(q, n) || n in lost || Seen(w, n)
  }

  ghost predicate Flow(s: Side, r: Side, ps: Params, pr: Params) {
    && SenderOk(s, ps) && ReceiverOk(r, s.sent, pr)
    && Accounted(s.c.outstanding, s.lost, |s.sent|, r.c.rx.window)
  }

  ghost predicate Inv(s: System, p: Both) {
    Flow(s.x, s.y, p.x, p.y) && Flow(s.y, s.x, p.y, p.x)
  }

  // ------------------------------------------------------------ receiving: the window and the hold move together

  /** `out` are the held messages after `last` up to `l`, in order; `h` is what stays, the numbers of `rest`. */
  ghost predicate Releases(
    last: nat, hold: map<uint32, Message>, l: nat, rest: set<nat>, out: seq<Message>, next: uint32, h: map<uint32, Message>)
  {
    && last <= l < U32 && next == Add32(l, 1) && |out| == l - last
    && (forall n :: n in rest <==> n in h)
    && (forall n :: n in h ==> n in hold && h[n] == hold[n])
    && (forall n :: last < n <= l ==> n in hold && out[n - last - 1] == hold[n])
  }

  lemma {:induction false} ReleaseFollowsWindow(last: nat, pending: set<nat>, next: uint32, hold: map<uint32, Message>)
    requires last < U32 && next == Add32(last, 1)
    requires forall n :: n in pending <==> n in hold
    requires forall n :: n in pending ==> n > last
    ensures var (l, rest) := Advanced(last, pending); var (out, m, h) := Released(next, hold);
      Releases(last, hold, l, rest, out, m, h)
    decreases pending
  {
    if last + 1 in pending {
      assert next == last + 1;
      ReleaseFollowsWindow(last + 1, pending - {last + 1}, Add32(next, 1), hold - {next});
      var (l, rest) := Advanced(last + 1, pending - {last + 1});
      var (out, m, h) := Released(Add32(next, 1), hold - {next});
      forall n | last < n <= l
        ensures n in hold && ([hold[next]] + out)[n - last - 1] == hold[n]
      {
        if n > last + 1 { assert out[n - (last + 1) - 1] == (hold - {next})[n]; }
      }
    } else {
      assert next in hold ==> next in pending;
    }
  }

  /** A reliable packet of the sender's arrives: delivery goes on in order, window and hold stay in lockstep, within the cap. */
  lemma ArrivalKeepsOrder(rx: Rx, m: Message, sent: seq<Bytes>, window: nat)
    requires Lockstep(rx) && InOrder(rx, sent) && |rx.hold| <= window
    requires |sent| < U32 && 1 <= m.seqNo <= |sent| && m.payload == sent[m.seqNo - 1]
    ensures var (t, isFresh, ack) := Arrived(rx, m, window);
      && Lockstep(t) && InOrder(t, sent) && |t.hold| <= window
      && (forall n: nat :: Seen(rx.window, n) ==> Seen(t.window, n))
      && (ack ==> Seen(t.window, m.seqNo))
      && t.window.size == rx.window.size
  {
    AcceptMeans(rx.window, m.seqNo);
    if Judge(rx.window, m.seqNo) == IsFresh && HasRoom(rx, m.seqNo, window) {
      if m.seqNo == rx.window.last + 1 {
        NextArrived(rx, m, sent, window);
      } else {
        GapArrived(rx, m, sent, window);
      }
    }
    hide Lockstep, InOrder, Seen, AfterAccept, Drain;
  }

  /** The packet waited for: it and all the held ones that follow on go out. */
  lemma NextReleases(rx: Rx, m: Message, window: nat)
    requires Lockstep(rx) && rx.handler && m.seqNo == rx.window.last + 1 && Judge(rx.window, m.seqNo) == IsFresh
    ensures var (l, rest) := Advanced(m.seqNo, rx.window.pending);
      var (out, next, h) := Released(Add32(m.seqNo, 1), rx.hold);
      && Releases(m.seqNo, rx.hold, l, rest, out, next, h)
      && Arrived(rx, m, window) == (Rx(rx.window.(last := l, pending := rest), next, h, true, rx.messages + ([m] + out)), true, true)
  {
    var hold := rx.hold[m.seqNo := m];
    assert rx.next == m.seqNo && m.seqNo !in rx.hold;
    assert hold - {m.seqNo} == rx.hold;
    ReleaseFollowsWindow(m.seqNo, rx.window.pending, Add32(m.seqNo, 1), rx.hold);
    hide Releases, Lockstep;
    assert Released(m.seqNo, hold) ==
      var (out, next, h) := Released(Add32(m.seqNo, 1), rx.hold); ([m] + out, next, h);
    hide Advanced, Released;
  }

  lemma MessagesInOrder(
    rx: Rx, m: Message, sent: seq<Bytes>, l: nat, rest: set<nat>, out: seq<Message>, next: uint32, h: map<uint32, Message>)
    requires InOrder(rx, sent) && m.seqNo == rx.window.last + 1 <= |sent| && m.payload == sent[m.seqNo - 1]
    requires Releases(m.seqNo, rx.hold, l, rest, out, next, h)
    ensures InOrder(Rx(rx.window.(last := l, pending := rest), next, h, true, rx.messages + ([m] + out)), sent)
  {
    var messages := rx.messages + ([m] + out);
    if l > m.seqNo { assert l in rx.hold; }
    forall i | |rx.messages| < i < |messages|
      ensures messages[i].seqNo == i + 1 && i < |sent| && messages[i].payload == sent[i]
    {
      var n := i + 1;
      assert n in rx.hold && out[n - m.seqNo - 1] == rx.hold[n];
      assert messages[i] == out[n - m.seqNo - 1];
    }
    hide Releases;
  }

  lemma NextArrived(rx: Rx, m: Message, sent: seq<Bytes>, window: nat)
    requires Lockstep(rx) && InOrder(rx, sent) && |rx.hold| <= window
    requires |sent| < U32 && 1 <= m.seqNo <= |sent| && m.payload == sent[m.seqNo - 1]
    requires m.seqNo == rx.window.last + 1 && Judge(rx.window, m.seqNo) == IsFresh
    ensures var (t, isFresh, ack) := Arrived(rx, m, window);
      Lockstep(t) && InOrder(t, sent) && |t.hold| <= window
  {
    AcceptMeans(rx.window, m.seqNo);
    NextReleases(rx, m, window);
    var (l, rest) := Advanced(m.seqNo, rx.window.pending);
    var (out, next, h) := Released(Add32(m.seqNo, 1), rx.hold);
    MessagesInOrder(rx, m, sent, l, rest, out, next, h);
    SmallerHold(h, rx.hold);
    assert AfterAccept(rx.window, m.seqNo).0 == rx.window.(last := l, pending := rest);
    hide Arrived, Judge, Released, Advanced, InOrder;
  }

  lemma GapArrived(rx: Rx, m: Message, sent: seq<Bytes>, window: nat)
    requires Lockstep(rx) && InOrder(rx, sent) && |rx.hold| <= window
    requires |sent| < U32 && 1 <= m.seqNo <= |sent| && m.payload == sent[m.seqNo - 1]
    requires m.seqNo != rx.window.last + 1 && Judge(rx.window, m.seqNo) == IsFresh && HasRoom(rx, m.seqNo, window)
    ensures var (t, isFresh, ack) := Arrived(rx, m, window);
      Lockstep(t) && InOrder(t, sent) && |t.hold| <= window
  {
    AcceptMeans(rx.window, m.seqNo);
    var hold := rx.hold[m.seqNo := m];
    assert rx.next !in hold;
    var t := Arrived(rx, m, window).0;
    assert t.messages == rx.messages;
    assert t.hold == hold;
    assert |hold| == |rx.hold| + 1;
  }

  lemma SmallerHold(a: map<uint32, Message>, b: map<uint32, Message>)
    requires forall n :: n in a ==> n in b
    ensures |a| <= |b|
  {
    assert a.Keys <= b.Keys;
    SubsetSmaller(a.Keys, b.Keys);
  }

  lemma {:induction false} SubsetSmaller(a: set<uint32>, b: set<uint32>)
    requires a <= b
    ensures |a| <= |b|
  {
    if a != {} {
      var x :| x in a;
      SubsetSmaller(a - {x}, b - {x});
    }
  }

  // ------------------------------------------------------------ sending

  lemma {:induction false} TimesAppend(a: seq<Datagram>, b: seq<Datagram>, n: int)
    ensures Times(a + b, n) == Times(a, n) + Times(b, n)
  {
    if b == [] {
      assert a + b == a;
    } else {
      var m := |b| - 1;
      TimesAppend(a, b[..m], n);
      assert (a + b)[..|a + b| - 1] == a + b[..m];
    }
  }

  lemma {:induction false} NoTimes(b: seq<Datagram>, n: int)
    requires forall d :: d in b ==> !IsReliable(d.kind) || d.seqNo != n
    ensures Times(b, n) == 0
  {
    if b != [] { NoTimes(b[..|b| - 1], n); }
  }

  lemma OneTime(d: Datagram, n: int)
    ensures Times([d], n) == if IsReliable(d.kind) && d.seqNo == n then 1 else 0
  {
    assert [d][..0] == [];
  }

  /** Datagrams that carry no reliable data leave the sending side as it was. */
  lemma QuietKeepsSender(s: Side, t: Side, extra: seq<Datagram>, p: Params)
    requires SenderOk(s, p) && forall d :: d in extra ==> !IsReliable(d.kind)
    requires t.sent == s.sent && t.lost == s.lost && t.c.txRel == s.c.txRel && t.c.outstanding == s.c.outstanding
    requires t.c.counts.reliableLost == s.c.counts.reliableLost
    requires t.c.keys.maxRtx <= p.maxRtx && t.c.timer.backoff >= 0 && t.c.wire == s.c.wire + extra
    ensures SenderOk(t, p)
  {
    forall n: int
      ensures Times(t.c.wire, n) == Times(s.c.wire, n)
    {
      TimesAppend(s.c.wire, extra, n);
      NoTimes(extra, n);
    }
    forall i | 0 <= i < |t.c.outstanding|
      ensures PacketOk(t.c.outstanding[i], t.sent, t.c.wire, p)
    {
      assert PacketOk(s.c.outstanding[i], s.sent, s.c.wire, p);
    }
  }

  lemma NewPacketKept(q: seq<Outgoing>, o: Outgoing, sent: seq<Bytes>, wire: seq<Datagram>, d: Datagram, p: Params)
    requires QueueOk(q, sent, wire, p) && TimesOk(wire, |sent|, p)
    requires IsReliable(o.kind) && o.seqNo == |sent| + 1 && o.attempts == 0
    requires d.kind == o.kind && d.seqNo == o.seqNo
    ensures QueueOk(q + [o], sent + [o.payload], wire + [d], p) && TimesOk(wire + [d], |sent| + 1, p)
  {
    var longer, out := sent + [o.payload], wire + [d];
    forall n: int
      ensures Times(out, n) == Times(wire, n) + if n == o.seqNo then 1 else 0
    {
      TimesAppend(wire, [d], n);
      OneTime(d, n);
    }
    forall i | 0 <= i < |q|
      ensures PacketOk(q[i], longer, out, p) && q[i].seqNo < o.seqNo
    {
      assert PacketOk(q[i], sent, wire, p);
    }
    assert PacketOk(o, longer, out, p);
  }

  lemma SendKeepsSender(s: Side, reliable: bool, payload: Bytes, nowMs: int, p: Params)
    requires SenderOk(s, p)
    ensures var t := Act(s, Send(reliable, payload, nowMs), p);
      && SenderOk(t, p)
      && (forall n: nat :: n <= |s.sent| && InFlight(s.c.outstanding, n) ==> InFlight(t.c.outstanding, n))
      && (|t.sent| > |s.sent| ==> InFlight(t.c.outstanding, |t.sent|))
      && s.sent <= t.sent <= s.sent + [payload] && t.lost == s.lost
  {
    hide RetransmitIntervalMs;
    var (c, r) := AfterSend(s.c, reliable, payload, nowMs, p);
    var t := Act(s, Send(reliable, payload, nowMs), p);
    if r.Ok? {
      var d := c.wire[|c.wire| - 1];
      if !reliable {
        QuietKeepsSender(s, t, [d], p);
        hide SenderOk;
      } else {
        hide SenderOk;
        ReliableKeepsSender(s, payload, nowMs, p);
        QueueGrew(s.c.outstanding, c.outstanding[|c.outstanding| - 1]);
      }
    }
  }

  lemma ReliableKeepsSender(s: Side, payload: Bytes, nowMs: int, p: Params)
    requires SenderOk(s, p) && AfterSend(s.c, true, payload, nowMs, p).1.Ok?
    ensures SenderOk(Act(s, Send(true, payload, nowMs), p), p)
    ensures AfterSend(s.c, true, payload, nowMs, p).0.outstanding[|s.c.outstanding|].seqNo == |s.sent| + 1
  {
    hide RetransmitIntervalMs, QueueOk, TimesOk;
    var c := AfterSend(s.c, true, payload, nowMs, p).0;
    var o, d := c.outstanding[|c.outstanding| - 1], c.wire[|c.wire| - 1];
    NewPacketKept(s.c.outstanding, o, s.sent, s.c.wire, d, p);
    NewPacketNotLost(s.lost, s.c.outstanding, o, |s.sent|);
    NewDatagramOk(s.c.wire, s.sent, d);
    hide LostOk, DatagramsOk;
  }

  predicate NewPacketLike(d: Datagram, sent: seq<Bytes>) {
    IsReliable(d.kind) && d.seqNo == |sent| + 1
  }

  lemma NewPacketNotLost(lost: seq<uint32>, q: seq<Outgoing>, o: Outgoing, count: nat)
    requires LostOk(lost, q, count) && o.seqNo == count + 1
    ensures LostOk(lost, q + [o], count + 1)
  {
  }

  lemma NewDatagramOk(wire: seq<Datagram>, sent: seq<Bytes>, d: Datagram)
    requires DatagramsOk(wire, sent) && NewPacketLike(d, sent)
    ensures DatagramsOk(wire + [d], sent + [d.payload])
  {
  }

  lemma QueueGrew(q: seq<Outgoing>, o: Outgoing)
    ensures forall n: nat :: InFlight(q, n) ==> InFlight(q + [o], n)
    ensures InFlight(q + [o], o.seqNo)
  {
    forall n: nat | InFlight(q, n)
      ensures InFlight(q + [o], n)
    {
      var i :| 0 <= i < |q| && q[i].seqNo == n;
      assert (q + [o])[i].seqNo == n;
    }
    assert (q + [o])[|q|] == o;
  }

  // ------------------------------------------------------------ an ack settles a packet

  lemma {:induction false} WithoutFrom(q: seq<Outgoing>, seqNo: uint32, onlyBefore: bool) returns (from: seq<nat>)
    ensures var kept := Without(q, seqNo, onlyBefore);
      && |from| == |kept|
      && (forall j :: 0 <= j < |kept| ==> from[j] < |q| && kept[j] == q[from[j]])
      && (forall i, j :: 0 <= i < j < |kept| ==> from[i] < from[j])
      && (forall i :: 0 <= i < |q| && q[i].seqNo != seqNo ==> i in from)
  {
    from := [];
    if q != [] {
      var n := |q| - 1;
      from := WithoutFrom(q[..n], seqNo, onlyBefore);
      if !(q[n].seqNo == seqNo && (q[n].beforeUpgrade || !onlyBefore)) {
        from := from + [n];
      }
    }
  }

  lemma WithoutKeepsQueue(
    q: seq<Outgoing>, seqNo: uint32, onlyBefore: bool, sent: seq<Bytes>, wire: seq<Datagram>, lost: seq<uint32>, p: Params)
    requires QueueOk(q, sent, wire, p) && LostOk(lost, q, |sent|)
    ensures QueueOk(Without(q, seqNo, onlyBefore), sent, wire, p) && LostOk(lost, Without(q, seqNo, onlyBefore), |sent|)
    ensures forall n: nat :: n != seqNo && InFlight(q, n) ==> InFlight(Without(q, seqNo, onlyBefore), n)
  {
    var from := WithoutFrom(q, seqNo, onlyBefore);
    var kept := Without(q, seqNo, onlyBefore);
    forall j | 0 <= j < |kept|
      ensures PacketOk(kept[j], sent, wire, p)
    {
      assert PacketOk(q[from[j]], sent, wire, p);
    }
    forall n: nat | n != seqNo && InFlight(q, n)
      ensures InFlight(kept, n)
    {
      var i :| 0 <= i < |q| && q[i].seqNo == n;
      var j :| 0 <= j < |from| && from[j] == i;
      assert kept[j].seqNo == n;
    }
  }

  // ------------------------------------------------------------ Tick

  lemma {:induction false} ResentAt(q: seq<Outgoing>, nowMs: int, k: Keys, t: Timer, p: Params)
    ensures var after := ResentAll(q, nowMs, k, t, p);
      |after| == |q| && forall i :: 0 <= i < |q| ==> after[i] == Resent(q[i], nowMs, k, t, p)
  {
    if q != [] { ResentAt(q[..|q| - 1], nowMs, k, t, p); }
  }

  predicate IsResendOf(d: Datagram, o: Outgoing) {
    d.kind == o.kind && d.seqNo == o.seqNo && d.payload == o.payload
  }

  lemma {:induction false} ResendsFrom(q: seq<Outgoing>, nowMs: int, k: Keys, d: Datagram)
    requires d in ResendDatagrams(q, nowMs, k)
    ensures exists i :: 0 <= i < |q| && IsResendOf(d, q[i]) && Resends(q[i], nowMs, k)
  {
    var n := |q| - 1;
    if d in ResendDatagrams(q[..n], nowMs, k) {
      ResendsFrom(q[..n], nowMs, k, d);
      var i :| 0 <= i < n && IsResendOf(d, q[..n][i]) && Resends(q[..n][i], nowMs, k);
      assert q[i] == q[..n][i];
    } else {
      assert IsResendOf(d, q[n]);
    }
  }

  /** A Tick sends each packet it resends exactly once. */
  lemma {:induction false} ResendTimes(q: seq<Outgoing>, nowMs: int, k: Keys, at: nat)
    requires at < |q| && Ascending(q) && forall i :: 0 <= i < |q| ==> IsReliable(q[i].kind)
    ensures Times(ResendDatagrams(q, nowMs, k), q[at].seqNo) == if Resends(q[at], nowMs, k) then 1 else 0
  {
    var n := |q| - 1;
    var front := ResendDatagrams(q[..n], nowMs, k);
    var o := q[n];
    var again := Emit(k, o.kind, o.seqNo, o.payload, nowMs, ResendKey(o, k));
    assert again.kind == o.kind && again.seqNo == o.seqNo;
    hide Emit, Times;
    TimesAppend(front, [again], q[at].seqNo);
    OneTime(again, q[at].seqNo);
    assert front + [] == front;
    if at == n {
      forall d | d in front
        ensures d.seqNo != o.seqNo
      {
        ResendsFrom(q[..n], nowMs, k, d);
      }
      NoTimes(front, o.seqNo);
    } else {
      ResendTimes(q[..n], nowMs, k, at);
    }
  }

  lemma ResendKeepsQueue(q: seq<Outgoing>, nowMs: int, k: Keys, t: Timer, sent: seq<Bytes>, wire: seq<Datagram>, p: Params)
    requires QueueOk(q, sent, wire, p) && k.maxRtx <= p.maxRtx
    ensures QueueOk(ResentAll(q, nowMs, k, t, p), sent, wire + ResendDatagrams(q, nowMs, k), p)
  {
    hide RetransmitIntervalMs;
    var after, more := ResentAll(q, nowMs, k, t, p), ResendDatagrams(q, nowMs, k);
    ResentAt(q, nowMs, k, t, p);
    assert forall i :: 0 <= i < |q| ==> PacketOk(q[i], sent, wire, p);
    forall i | 0 <= i < |q|
      ensures PacketOk(after[i], sent, wire + more, p)
    {
      ResendTimes(q, nowMs, k, i);
      TimesAppend(wire, more, q[i].seqNo);
    }
  }

  lemma ResendKeepsTimes(q: seq<Outgoing>, nowMs: int, k: Keys, sent: seq<Bytes>, wire: seq<Datagram>, p: Params)
    requires QueueOk(q, sent, wire, p) && TimesOk(wire, |sent|, p) && k.maxRtx <= p.maxRtx
    ensures TimesOk(wire + ResendDatagrams(q, nowMs, k), |sent|, p)
  {
    var more := ResendDatagrams(q, nowMs, k);
    forall n: int | n >= 1
      ensures Times(wire + more, n) <= if n <= |sent| then 1 + Cap(p) else 0
    {
      TimesAppend(wire, more, n);
      if InFlight(q, n) {
        var i :| 0 <= i < |q| && q[i].seqNo == n;
        assert PacketOk(q[i], sent, wire, p);
        assert forall j :: 0 <= j < |q| ==> IsReliable(q[j].kind) by { AllReliable(q, sent, wire, p); }
        ResendTimes(q, nowMs, k, i);
      } else {
        forall d | d in more
          ensures d.seqNo != n
        {
          ResendsFrom(q, nowMs, k, d);
        }
        NoTimes(more, n);
      }
    }
  }

  lemma AllReliable(q: seq<Outgoing>, sent: seq<Bytes>, wire: seq<Datagram>, p: Params)
    requires QueueOk(q, sent, wire, p)
    ensures forall j :: 0 <= j < |q| ==> IsReliable(q[j].kind)
  {
    forall j | 0 <= j < |q|
      ensures IsReliable(q[j].kind)
    {
      assert PacketOk(q[j], sent, wire, p);
    }
  }

  lemma ResendKeepsDatagrams(q: seq<Outgoing>, nowMs: int, k: Keys, sent: seq<Bytes>, wire: seq<Datagram>, p: Params)
    requires QueueOk(q, sent, wire, p) && DatagramsOk(wire, sent)
    ensures DatagramsOk(wire + ResendDatagrams(q, nowMs, k), sent)
  {
    forall d | d in ResendDatagrams(q, nowMs, k)
      ensures 1 <= d.seqNo <= |sent| && d.payload == sent[d.seqNo - 1]
    {
      ResendsFrom(q, nowMs, k, d);
      var i :| 0 <= i < |q| && IsResendOf(d, q[i]);
      assert PacketOk(q[i], sent, wire, p);
    }
  }

  /** Giving up on the front of the queue turns those numbers lost. */
  lemma GivingUpKeeps(q: seq<Outgoing>, at: nat, lost: seq<uint32>, sent: seq<Bytes>, wire: seq<Datagram>, p: Params)
    requires QueueOk(q, sent, wire, p) && LostOk(lost, q, |sent|) && at <= |q|
    ensures QueueOk(q[at..], sent, wire, p) && LostOk(lost + SeqNos(q[..at]), q[at..], |sent|)
    ensures forall n: nat :: InFlight(q, n) ==> InFlight(q[at..], n) || n in SeqNos(q[..at])
  {
    assert forall i :: 0 <= i < |q| ==> PacketOk(q[i], sent, wire, p);
    forall n: nat | InFlight(q, n)
      ensures InFlight(q[at..], n) || n in SeqNos(q[..at])
    {
      var i :| 0 <= i < |q| && q[i].seqNo == n;
      if i < at { assert SeqNos(q[..at])[i] == n; } else { assert q[at..][i - at].seqNo == n; }
    }
  }

  lemma TickKeepsSender(s: Side, nowMs: int, p: Params)
    requires SenderOk(s, p)
    ensures var t := Act(s, Tick(nowMs), p);
      && SenderOk(t, p) && t.sent == s.sent
      && (forall n: nat :: InFlight(s.c.outstanding, n) ==> InFlight(t.c.outstanding, n) || n in t.lost)
      && s.lost <= t.lost
  {
    if !s.c.closed {
      var q, k, tm := s.c.outstanding, s.c.keys, s.c.timer;
      var after := ResentAll(q, nowMs, k, tm, p);
      var at := LostAtFront(after, nowMs, k);
      LostFits(after, nowMs, k);
      ResendKeepsQueue(q, nowMs, k, tm, s.sent, s.c.wire, p);
      ResendKeepsTimes(q, nowMs, k, s.sent, s.c.wire, p);
      ResendKeepsDatagrams(q, nowMs, k, s.sent, s.c.wire, p);
      SameNumbers(q, nowMs, k, tm, s.lost, |s.sent|, p);
      GivingUpKeeps(after, at, s.lost, s.sent, s.c.wire + ResendDatagrams(q, nowMs, k), p);
      BackoffStays(q, nowMs, k, tm.backoff);
      hide QueueOk, TimesOk, DatagramsOk, LostOk, ResentAll, ResendDatagrams, LostAtFront, BackedOff;
    }
  }

  lemma SameNumbers(q: seq<Outgoing>, nowMs: int, k: Keys, t: Timer, lost: seq<uint32>, count: nat, p: Params)
    requires LostOk(lost, q, count)
    ensures LostOk(lost, ResentAll(q, nowMs, k, t, p), count)
    ensures forall n: nat :: InFlight(q, n) ==> InFlight(ResentAll(q, nowMs, k, t, p), n)
  {
    hide RetransmitIntervalMs;
    ResentAt(q, nowMs, k, t, p);
    var after := ResentAll(q, nowMs, k, t, p);
    forall n: nat | InFlight(q, n)
      ensures InFlight(after, n)
    {
      var i :| 0 <= i < |q| && q[i].seqNo == n;
      assert after[i].seqNo == n;
    }
  }

  lemma {:induction false} BackoffStays(q: seq<Outgoing>, nowMs: int, k: Keys, backoff: int)
    requires backoff >= 0
    ensures BackedOff(q, nowMs, k, backoff) >= 0
  {
    if q != [] { BackoffStays(q[..|q| - 1], nowMs, k, backoff); }
  }

  // ------------------------------------------------------------ a datagram arrives

  /** What a datagram can do: settle a packet (an ack), or be taken in and acked (reliable data), or neither. */
  lemma DatagramEffect(c: Conn, d: Datagram, opens: bool, from: nat, nowMs: int, p: Params)
    ensures var t := AfterDatagram(c, d, opens, from, nowMs, p);
      && t.keys == c.keys && t.txRel == c.txRel && t.counts == c.counts
      && (if d.kind.Ack? then
            && t.wire == c.wire && t.rx == c.rx
            && (|| t.outstanding == c.outstanding
                || t.outstanding == Without(c.outstanding, d.seqNo, true)
                || t.outstanding == Without(c.outstanding, d.seqNo, false))
            && (t.timer == c.timer || t.timer == AckSampled(c.outstanding, d.seqNo, nowMs, c.timer))
          else
            && t.outstanding == c.outstanding && t.timer == c.timer
            && (t.rx == c.rx || (IsReliable(d.kind) && t.rx == TakenIn(c, d, p).0))
            && (t.wire == c.wire || (IsReliable(d.kind) && exists key :: t.wire == c.wire + [AckOf(c, d.seqNo, nowMs, key)]))
            && (t.wire != c.wire ==> Judge(c.rx.window, d.seqNo) == IsDuplicate || (t.rx == TakenIn(c, d, p).0 && TakenIn(c, d, p).2)))
  {
    hide Arrived, AckSampled, AcceptSkew, AfterHeard, Judge, AfterAccept, Emit;
  }

  function TakenIn(c: Conn, d: Datagram, p: Params): (Rx, bool, bool) {
    Arrived(c.rx, Message(d.seqNo, IsSealed(d.kind), d.payload), p.reliableWindow)
  }

  lemma {:induction false} SampledBackoff(q: seq<Outgoing>, seqNo: uint32, nowMs: int, t: Timer)
    requires t.backoff >= 0
    ensures AckSampled(q, seqNo, nowMs, t).backoff >= 0
  {
    if q != [] { SampledBackoff(q[1..], seqNo, nowMs, t); }
  }

  lemma DeliverKeepsSender(
    s: Side, d: Datagram, opens: bool, from: nat, nowMs: int, w: Window, p: Params)
    requires SenderOk(s, p) && (d.kind.Ack? ==> Seen(w, d.seqNo))
    requires Accounted(s.c.outstanding, s.lost, |s.sent|, w)
    ensures var t := Act(s, Deliver(d, opens, from, nowMs), p);
      SenderOk(t, p) && t.sent == s.sent && t.lost == s.lost && Accounted(t.c.outstanding, t.lost, |t.sent|, w)
  {
    DatagramEffect(s.c, d, opens, from, nowMs, p);
    SampledBackoff(s.c.outstanding, d.seqNo, nowMs, s.c.timer);
    hide AfterDatagram, Without, Emit, AckSampled;
    var t := Act(s, Deliver(d, opens, from, nowMs), p);
    if d.kind.Ack? {
      if t.c.outstanding != s.c.outstanding {
        var only :| t.c.outstanding == Without(s.c.outstanding, d.seqNo, only);
        WithoutKeepsQueue(s.c.outstanding, d.seqNo, only, s.sent, s.c.wire, s.lost, p);
      }
      hide QueueOk, LostOk, TimesOk, DatagramsOk;
    } else if t.c.wire != s.c.wire {
      var key :| t.c.wire == s.c.wire + [AckOf(s.c, d.seqNo, nowMs, key)];
      AckIsAck(s.c, d.seqNo, nowMs, key);
      QuietKeepsSender(s, t, [AckOf(s.c, d.seqNo, nowMs, key)], p);
      hide SenderOk;
    } else {
      hide QueueOk, LostOk, TimesOk, DatagramsOk;
    }
  }

  lemma AckIsAck(c: Conn, seqNo: uint32, nowMs: int, key: nat)
    ensures AckOf(c, seqNo, nowMs, key).kind.Ack? && AckOf(c, seqNo, nowMs, key).seqNo == seqNo
  {
  }

  lemma SeenKeepsAcks(wire: seq<Datagram>, w: Window, t: Window)
    requires AcksOk(wire, w) && forall n: nat :: Seen(w, n) ==> Seen(t, n)
    ensures AcksOk(wire, t)
  {
  }

  lemma DeliverKeepsReceiver(
    r: Side, d: Datagram, opens: bool, from: nat, nowMs: int, sent: seq<Bytes>, p: Params)
    requires ReceiverOk(r, sent, p) && |sent| < U32
    requires IsReliable(d.kind) ==> 1 <= d.seqNo <= |sent| && d.payload == sent[d.seqNo - 1]
    requires r.c.timer.backoff >= 0
    ensures var t := Act(r, Deliver(d, opens, from, nowMs), p);
      ReceiverOk(t, sent, p) && forall n: nat :: Seen(r.c.rx.window, n) ==> Seen(t.c.rx.window, n)
  {
    DatagramEffect(r.c, d, opens, from, nowMs, p);
    var t := Act(r, Deliver(d, opens, from, nowMs), p);
    if IsReliable(d.kind) {
      ArrivalKeepsOrder(r.c.rx, Message(d.seqNo, IsSealed(d.kind), d.payload), sent, p.reliableWindow);
      hide Arrived, Lockstep, InOrder, AfterDatagram, Emit;
      SeenKeepsAcks(r.c.wire, r.c.rx.window, t.c.rx.window);
      if t.c.wire != r.c.wire {
        var key :| t.c.wire == r.c.wire + [AckOf(r.c, d.seqNo, nowMs, key)];
        AckIsAck(r.c, d.seqNo, nowMs, key);
      }
    } else {
      hide Lockstep, InOrder, AfterDatagram, AcksOk;
    }
  }
}
