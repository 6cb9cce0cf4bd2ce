/**
 The mux's send queue (src/L3/ChannelMux.cpp:81-149): reliable frames wait here,
 per channel and in order, while the transport's window is full, and leave it
 round-robin as credit comes back.

 The transport's credit function is asked again after every frame handed over;
 what matters of its answers within one call is how many frames it lets through
 before it says no, so that number is `Slots(n)`, and it may become anything
 between calls. `Unlimited` is a mux with no credit function.
 */
module SendQueue {
  import opened Words

  datatype Qos = Reliable | BestEffort
  datatype Credits = Unlimited | Slots(n: nat)

  /** One call of the transport. */
  datatype Handed = Handed(channel: uint32, qos: Qos, wire: Bytes)

  datatype SendState = SendState(
    queues: map<uint32, seq<Bytes>>, order: seq<uint32>, queuedBytes: int, credits: Credits, handed: seq<Handed>)

  /** What became of a frame given to SendWire. */
  datatype Outcome = Passed | Waiting | Full

  predicate HasCredit(c: Credits) {
    c.Unlimited? || c.n > 0
  }

  function Transported(s: SendState, h: Handed): SendState {
    s.(handed := s.handed + [h],
       credits := if h.qos.Reliable? && s.credits.Slots? && s.credits.n > 0 then Slots(s.credits.n - 1) else s.credits)
  }

  function QueueOf(s: SendState, c: uint32): seq<Bytes> {
    if c in s.queues then s.queues[c] else []
  }

  // ------------------------------------------------------------ sums over the queues

  ghost function Pick<V>(q: map<uint32, V>): (k: uint32)
    requires q != map[]
    ensures k in q
  {
    var k :| k in q; k
  }

  ghost function Total<V>(q: map<uint32, V>, weight: V -> nat): nat {
    if q == map[] then 0 else weight(q[Pick(q)]) + Total(q - {Pick(q)}, weight)
  }

  lemma {:induction false} TotalSplit<V>(q: map<uint32, V>, weight: V -> nat, k: uint32)
    requires k in q
    ensures Total(q, weight) == weight(q[k]) + Total(q - {k}, weight)
    decreases |q|
  {
    var p := Pick(q);
    if p != k {
      TotalSplit(q - {p}, weight, k);
      TotalSplit(q - {k}, weight, p);
      assert q - {p} - {k} == q - {k} - {p};
    }
  }

  /** The total after one key's value changed, came or went. */
  lemma TotalUpdate<V>(q: map<uint32, V>, weight: V -> nat, k: uint32, v: V)
    ensures Total(q[k := v], weight) == Total(q - {k}, weight) + weight(v)
    ensures Total(q, weight) == Total(q - {k}, weight) + if k in q then weight(q[k]) else 0
  {
    TotalSplit(q[k := v], weight, k);
    assert q[k := v] - {k} == q - {k};
    if k in q { TotalSplit(q, weight, k); } else { assert q - {k} == q; }
  }

  function SizeOf(frames: seq<Bytes>): nat {
    if frames == [] then 0 else |frames[0]| + SizeOf(frames[1..])
  }

  function LengthOf(frames: seq<Bytes>): nat {
    |frames|
  }

  lemma {:induction false} SizeOfSnoc(frames: seq<Bytes>, x: Bytes)
    ensures SizeOf(frames + [x]) == SizeOf(frames) + |x|
  {
    if frames == [] {
      assert [x][1..] == [];
    } else {
      assert (frames + [x])[1..] == frames[1..] + [x];
      SizeOfSnoc(frames[1..], x);
    }
  }

  ghost function QueuedSize(q: map<uint32, seq<Bytes>>): nat {
    Total(q, SizeOf)
  }

  /** QueuedFrameCount. */
  ghost function QueuedCount(q: map<uint32, seq<Bytes>>): nat {
    Total(q, LengthOf)
  }

  // ------------------------------------------------------------ the operations

  /** One turn of FlushQueued: the front channel sends its oldest frame and goes to the back. */
  function Turn(s: SendState): SendState
    requires s.order != []
  {
    var id := s.order[0];
    var rest := s.(order := s.order[1..]);
    if id !in s.queues || s.queues[id] == [] then rest
    else
      var frame, left := s.queues[id][0], s.queues[id][1..];
      var t := Transported(rest.(queuedBytes := s.queuedBytes - |frame|), Handed(id, Reliable, frame));
      if left == [] then t.(queues := s.queues - {id})
      else t.(queues := s.queues[id := left], order := rest.order + [id])
  }

  lemma TurnShrinks(s: SendState)
    requires s.order != []
    ensures var t := Turn(s);
      || QueuedCount(t.queues) < QueuedCount(s.queues)
      || (QueuedCount(t.queues) == QueuedCount(s.queues) && |t.order| < |s.order|)
  {
    var id := s.order[0];
    if id in s.queues && s.queues[id] != [] {
      TotalUpdate(s.queues, LengthOf, id, s.queues[id][1..]);
    }
  }

  /** FlushQueued; it comes to an end even without a credit limit, since every turn takes a frame or an entry. */
  function Flushed(s: SendState): SendState
    decreases QueuedCount(s.queues), |s.order|
  {
    if s.order == [] || !HasCredit(s.credits) then s
    else
      TurnShrinks(s);
      Flushed(Turn(s))
  }

  function Enqueued(s: SendState, id: uint32, wire: Bytes): SendState {
    s.(queuedBytes := s.queuedBytes + |wire|,
       order := if QueueOf(s, id) == [] then s.order + [id] else s.order,
       queues := s.queues[id := QueueOf(s, id) + [wire]])
  }

  function AfterSendWire(s: SendState, cap: nat, id: uint32, qos: Qos, wire: Bytes): (SendState, Outcome) {
    if qos.BestEffort? then (Transported(s, Handed(id, qos, wire)), Passed)
    else
      var t := Flushed(s);
      if QueueOf(t, id) == [] && HasCredit(t.credits) then (Transported(t, Handed(id, qos, wire)), Passed)
      else if t.queuedBytes + |wire| > cap then (t, Full)
      else (Enqueued(t, id, wire), Waiting)
  }

  function AfterDrop(s: SendState, id: uint32): SendState {
    if id in s.queues then s.(queuedBytes := s.queuedBytes - SizeOf(s.queues[id]), queues := s.queues - {id}) else s
  }

  class SendQueues {
    const maxQueuedBytes: nat
    var sendQueues: map<uint32, seq<Bytes>>
    var sendOrder: seq<uint32>
    var queuedBytes: int
    /** What the transport's credit function would answer. */
    var credits: Credits
    /** Every call of the transport so far. */
    var handed: seq<Handed>

    ghost function State(): SendState
      reads this
    {
      SendState(sendQueues, sendOrder, queuedBytes, credits, handed)
    }

    constructor (maxQueuedBytes: nat, credits: Credits)
      ensures State() == SendState(map[], [], 0, credits, [])
      ensures this.maxQueuedBytes == maxQueuedBytes
    {
      this.maxQueuedBytes, this.credits := maxQueuedBytes, credits;
      sendQueues, sendOrder, queuedBytes, handed := map[], [], 0, [];
    }

    method HasReliableCredit() returns (yes: bool)
      ensures yes == HasCredit(credits)
    {
      yes := credits.Unlimited? || credits.n > 0;
    }

    method Transport(id: uint32, qos: Qos, wire: Bytes)
      modifies this`handed, this`credits
      ensures State() == Transported(old(State()), Handed(id, qos, wire))
    {
      handed := handed + [Handed(id, qos, wire)];
      if qos.Reliable? && credits.Slots? && credits.n > 0 {
        credits := Slots(credits.n - 1);
      }
    }

    method FlushQueued()
      modifies this
      ensures State() == Flushed(old(State()))
    {
      var credit := HasReliableCredit();
      while sendOrder != [] && credit
        invariant credit == HasCredit(credits)
        invariant Flushed(State()) == Flushed(old(State()))
        decreases QueuedCount(sendQueues), |sendOrder|
      {
        hide Turn;
        TurnShrinks(State());
        TakeTurn();
        credit := HasReliableCredit();
      }
    }

    /** FlushQueued's loop body. */
    method TakeTurn()
      requires sendOrder != []
      modifies this
      ensures State() == Turn(old(State()))
    {
      ghost var queues := sendQueues;
      var id := sendOrder[0];
      sendOrder := sendOrder[1..];
      if id !in sendQueues || sendQueues[id] == [] {
        return;
      }
      var frame, left := sendQueues[id][0], sendQueues[id][1..];
      sendQueues := sendQueues[id := left];
      queuedBytes := queuedBytes - |frame|;
      Transport(id, Reliable, frame);
      if left == [] {
        assert sendQueues - {id} == queues - {id};
        sendQueues := sendQueues - {id};
      } else {
        sendOrder := sendOrder + [id];
      }
    }

    method SendWire(id: uint32, qos: Qos, wire: Bytes) returns (out: Outcome)
      modifies this
      ensures (State(), out) == AfterSendWire(old(State()), maxQueuedBytes, id, qos, wire)
    {
      if qos.BestEffort? {
        Transport(id, qos, wire);
        return Passed;
      }
      FlushQueued();
      ghost var flushed := State();
      var channelWaiting := id in sendQueues && sendQueues[id] != [];
      var credit := HasReliableCredit();
      if !channelWaiting && credit {
        Transport(id, qos, wire);
        return Passed;
      }
      if queuedBytes + |wire| > maxQueuedBytes {
        return Full;
      }
      queuedBytes := queuedBytes + |wire|;
      if id !in sendQueues {
        sendQueues := sendQueues[id := []];
      }
      if sendQueues[id] == [] {
        sendOrder := sendOrder + [id];
      }
      sendQueues := sendQueues[id := sendQueues[id] + [wire]];
      assert State() == Enqueued(flushed, id, wire);
      return Waiting;
    }

    method DropQueued(id: uint32)
      modifies this`queuedBytes, this`sendQueues
      ensures State() == AfterDrop(old(State()), id)
    {
      if id !in sendQueues {
        return;
      }
      var frames, i := sendQueues[id], 0;
      while i < |frames|
        invariant 0 <= i <= |frames|
        invariant sendQueues == old(sendQueues)
        invariant queuedBytes + SizeOf(frames) - SizeOf(frames[i..]) == old(queuedBytes)
      {
        queuedBytes := queuedBytes - |frames[i]|;
        assert frames[i..][1..] == frames[i + 1..];
        i := i + 1;
      }
      assert frames[|frames|..] == [];
      sendQueues := sendQueues - {id};
    }
  }

  // ------------------------------------------------------------ runs

  datatype Op =
    | Credit(c: Credits)
    | Flush
    | Send(id: uint32, qos: Qos, wire: Bytes)
    | Drop(id: uint32)

  function After(s: SendState, cap: nat, op: Op): SendState {
    match op
    case Credit(c) => s.(credits := c)
    case Flush => Flushed(s)
    case Send(id, qos, wire) => AfterSendWire(s, cap, id, qos, wire).0
    case Drop(id) => AfterDrop(s, id)
  }

  function Ran(s: SendState, cap: nat, ops: seq<Op>): SendState {
    if ops == [] then s else After(Ran(s, cap, ops[..|ops| - 1]), cap, ops[|ops| - 1])
  }

  function Empty(credits: Credits): SendState {
    SendState(map[], [], 0, credits, [])
  }

  // ------------------------------------------------------------ the queue's invariant

  /** The byte count is exact and within the cap, no stored queue is empty, every waiting channel has its turn coming. */
  ghost predicate Inv(s: SendState, cap: nat) {
    && s.queuedBytes == QueuedSize(s.queues) <= cap
    && (forall c :: c in s.queues ==> s.queues[c] != [] && c in s.order)
  }

  lemma TurnKeepsInv(s: SendState, cap: nat)
    requires Inv(s, cap) && s.order != []
    ensures Inv(Turn(s), cap)
  {
    var id, t := s.order[0], Turn(s);
    if id in s.queues {
      TotalUpdate(s.queues, SizeOf, id, s.queues[id][1..]);
    }
    hide Total;
    TurnKeepsOrder(s, cap);
  }

  lemma TurnKeepsOrder(s: SendState, cap: nat)
    requires Inv(s, cap) && s.order != []
    ensures forall c :: c in Turn(s).queues ==> Turn(s).queues[c] != [] && c in Turn(s).order
  {
    hide QueuedSize;
    var id, t := s.order[0], Turn(s);
    assert s.order == [id] + s.order[1..];
    forall c | c in t.queues
      ensures t.queues[c] != [] && c in t.order
    {
      assert c in s.order;
      if c != id { assert c in s.order[1..]; }
    }
  }

  /** A flush keeps the invariant and leaves frames waiting only when the credit is gone. */
  lemma {:induction false} FlushedMeans(s: SendState, cap: nat)
    requires Inv(s, cap)
    ensures Inv(Flushed(s), cap)
    ensures Flushed(s).queues == map[] || !HasCredit(Flushed(s).credits)
    decreases QueuedCount(s.queues), |s.order|
  {
    if s.order != [] && HasCredit(s.credits) {
      TurnShrinks(s);
      TurnKeepsInv(s, cap);
      FlushedMeans(Turn(s), cap);
    } else if s.order == [] {
      assert s.queues == map[];
    }
  }

  lemma OpKeepsInv(s: SendState, cap: nat, op: Op)
    requires Inv(s, cap)
    ensures Inv(After(s, cap, op), cap)
  {
    FlushedMeans(s, cap);
    if op.Send? {
      var t := Flushed(s);
      hide Flushed;
      if t.queuedBytes + |op.wire| <= cap { EnqueueKeepsInv(t, cap, op.id, op.wire); }
      hide Inv;
      TransportKeepsInv(s, cap, Handed(op.id, op.qos, op.wire));
      TransportKeepsInv(t, cap, Handed(op.id, op.qos, op.wire));
    } else if op.Drop? && op.id in s.queues {
      hide Flushed;
      TotalSplit(s.queues, SizeOf, op.id);
    }
  }

  lemma EnqueueKeepsInv(t: SendState, cap: nat, id: uint32, wire: Bytes)
    requires Inv(t, cap) && t.queuedBytes + |wire| <= cap
    ensures Inv(Enqueued(t, id, wire), cap)
  {
    hide SizeOf, Total;
    TotalUpdate(t.queues, SizeOf, id, QueueOf(t, id) + [wire]);
    SizeOfSnoc(QueueOf(t, id), wire);
    EmptySize();
  }

  lemma EmptySize()
    ensures SizeOf([]) == 0
  {
  }

  lemma TransportKeepsInv(t: SendState, cap: nat, h: Handed)
    ensures Inv(Transported(t, h), cap) <==> Inv(t, cap)
  {
  }

  /** In every reachable state of the queue the invariant holds. */
  lemma {:induction false} RunKeepsInv(cap: nat, credits: Credits, ops: seq<Op>)
    ensures Inv(Ran(Empty(credits), cap, ops), cap)
  {
    if ops != [] {
      RunKeepsInv(cap, credits, ops[..|ops| - 1]);
      OpKeepsInv(Ran(Empty(credits), cap, ops[..|ops| - 1]), cap, ops[|ops| - 1]);
    }
  }

  /** A reliable frame goes straight to the transport only with credit and when no channel waits at all; it waits only without credit. */
  lemma DirectOnlyWhenNobodyWaits(s: SendState, cap: nat, id: uint32, wire: Bytes)
    requires Inv(s, cap)
    ensures var (t, out) := AfterSendWire(s, cap, id, Reliable, wire);
      && (out == Passed <==> HasCredit(Flushed(s).credits))
      && (out == Passed ==> t.queues == map[] && t.handed == Flushed(s).handed + [Handed(id, Reliable, wire)])
      && (out == Full <==> !HasCredit(Flushed(s).credits) && Flushed(s).queuedBytes + |wire| > cap)
  {
    FlushedMeans(s, cap);
  }

  // ------------------------------------------------------------ each channel keeps its order

  /** The reliable frames of channel `c` the transport was given. */
  function HandedOf(handed: seq<Handed>, c: uint32): seq<Bytes> {
    if handed == [] then []
    else
      var before, h := HandedOf(handed[..|handed| - 1], c), handed[|handed| - 1];
      if h.channel == c && h.qos.Reliable? then before + [h.wire] else before
  }

  /** Everything channel `c` ever got into the queue and did not drop: handed over, then waiting. */
  function StreamOf(s: SendState, c: uint32): seq<Bytes> {
    HandedOf(s.handed, c) + QueueOf(s, c)
  }

  lemma HandedOfSnoc(handed: seq<Handed>, h: Handed, c: uint32)
    ensures HandedOf(handed + [h], c) ==
            HandedOf(handed, c) + if h.channel == c && h.qos.Reliable? then [h.wire] else []
  {
    assert (handed + [h])[..|handed|] == handed;
  }

  lemma TurnKeepsStream(s: SendState, c: uint32)
    requires s.order != []
    ensures StreamOf(Turn(s), c) == StreamOf(s, c)
  {
    var id := s.order[0];
    if id in s.queues && s.queues[id] != [] {
      var frame := s.queues[id][0];
      HandedOfSnoc(s.handed, Handed(id, Reliable, frame), c);
      assert s.queues[id] == [frame] + s.queues[id][1..];
    }
  }

  lemma {:induction false} FlushKeepsStream(s: SendState, c: uint32)
    ensures StreamOf(Flushed(s), c) == StreamOf(s, c)
    decreases QueuedCount(s.queues), |s.order|
  {
    if s.order != [] && HasCredit(s.credits) {
      TurnShrinks(s);
      TurnKeepsStream(s, c);
      FlushKeepsStream(Turn(s), c);
    }
  }

  /** What one operation adds to channel `c`'s stream. */
  function Added(s: SendState, cap: nat, op: Op, c: uint32): seq<Bytes> {
    if op.Send? && op.id == c && op.qos.Reliable? && AfterSendWire(s, cap, op.id, op.qos, op.wire).1 != Full
    then [op.wire] else []
  }

  lemma EnqueueExtends(t: SendState, id: uint32, wire: Bytes, c: uint32)
    ensures StreamOf(Enqueued(t, id, wire), c) == StreamOf(t, c) + if id == c then [wire] else []
  {
  }

  lemma DirectExtends(t: SendState, h: Handed, c: uint32)
    requires h.qos.Reliable? ==> QueueOf(t, h.channel) == []
    ensures StreamOf(Transported(t, h), c) == StreamOf(t, c) + if h.channel == c && h.qos.Reliable? then [h.wire] else []
  {
    HandedOfSnoc(t.handed, h, c);
  }

  lemma OpExtendsStream(s: SendState, cap: nat, op: Op, c: uint32)
    requires op != Drop(c)
    ensures StreamOf(After(s, cap, op), c) == StreamOf(s, c) + Added(s, cap, op, c)
  {
    hide Flushed, HandedOf;
    FlushKeepsStream(s, c);
    if op.Send? {
      var t, h := Flushed(s), Handed(op.id, op.qos, op.wire);
      if op.qos.BestEffort? {
        DirectExtends(s, h, c);
      } else if QueueOf(t, op.id) == [] && HasCredit(t.credits) {
        DirectExtends(t, h, c);
      } else {
        EnqueueExtends(t, op.id, op.wire, c);
      }
    }
  }

  /** The frames of channel `c` that a run took in, oldest first. */
  function TakenIn(s: SendState, cap: nat, ops: seq<Op>, c: uint32): seq<Bytes> {
    if ops == [] then []
    else
      var front := ops[..|ops| - 1];
      TakenIn(s, cap, front, c) + Added(Ran(s, cap, front), cap, ops[|ops| - 1], c)
  }

  /** Over any run, whatever the credit and the other channels do: a channel's frames leave in the order they came, none lost, none twice. */
  lemma {:induction false} ChannelOrderKept(cap: nat, credits: Credits, ops: seq<Op>, c: uint32)
    requires Drop(c) !in ops
    ensures StreamOf(Ran(Empty(credits), cap, ops), c) == TakenIn(Empty(credits), cap, ops, c)
  {
    if ops != [] {
      var front := ops[..|ops| - 1];
      ChannelOrderKept(cap, credits, front, c);
      OpExtendsStream(Ran(Empty(credits), cap, front), cap, ops[|ops| - 1], c);
    }
  }

  // ------------------------------------------------------------ every channel gets its turn

  /** The channels served, one entry a reliable frame handed over. */
  function Served(handed: seq<Handed>): seq<uint32> {
    if handed == [] then []
    else
      var before, h := Served(handed[..|handed| - 1]), handed[|handed| - 1];
      if h.qos.Reliable? then before + [h.channel] else before
  }

  lemma ServedSnoc(handed: seq<Handed>, h: Handed)
    ensures Served(handed + [h]) == Served(handed) + if h.qos.Reliable? then [h.channel] else []
  {
    assert (handed + [h])[..|handed|] == handed;
  }

  /** Channel `c` waits with at most `k` entries before its own. */
  predicate WaitsWithin(s: SendState, c: uint32, k: int) {
    QueueOf(s, c) != [] && exists j :: 0 <= j <= k && j < |s.order| && s.order[j] == c
  }

  /** Since `from` frames had left, `c` was served after at most `k` others, or waits that much nearer its turn. */
  ghost predicate ServedWithin(s: SendState, from: nat, c: uint32, k: nat) {
    var served := Served(s.handed);
    || (exists i :: from <= i <= from + k && i < |served| && served[i] == c)
    || (from <= |served| && WaitsWithin(s, c, from + k - |served|))
  }

  lemma TurnServes(s: SendState, from: nat, c: uint32, k: nat)
    requires s.order != [] && ServedWithin(s, from, c, k)
    ensures ServedWithin(Turn(s), from, c, k)
  {
    hide Served;
    var t, before := Turn(s), Served(s.handed);
    var id := s.order[0];
    if id in s.queues && s.queues[id] != [] {
      ServedSnoc(s.handed, Handed(id, Reliable, s.queues[id][0]));
    }
    if i :| from <= i <= from + k && i < |before| && before[i] == c {
      assert Served(t.handed)[i] == c;
    } else {
      var j :| 0 <= j <= from + k - |before| && j < |s.order| && s.order[j] == c;
      if id == c {
        assert Served(t.handed)[|before|] == c;
      } else {
        assert t.order[j - 1] == c;
      }
    }
  }

  lemma {:induction false} FlushServes(s: SendState, from: nat, c: uint32, k: nat)
    requires ServedWithin(s, from, c, k)
    ensures ServedWithin(Flushed(s), from, c, k)
    decreases QueuedCount(s.queues), |s.order|
  {
    if s.order != [] && HasCredit(s.credits) {
      TurnShrinks(s);
      TurnServes(s, from, c, k);
      FlushServes(Turn(s), from, c, k);
    }
  }

  /** A frame handed over or put aside leaves a channel's claim to its turn as it was. */
  lemma SendServes(t: SendState, h: Handed, from: nat, c: uint32, k: nat)
    requires ServedWithin(t, from, c, k)
    ensures (h.qos.Reliable? ==> t.queues == map[]) ==> ServedWithin(Transported(t, h), from, c, k)
    ensures ServedWithin(Enqueued(t, h.channel, h.wire), from, c, k)
  {
    hide Served;
    ServedSnoc(t.handed, h);
    var before := Served(t.handed);
    if i :| from <= i <= from + k && i < |before| && before[i] == c {
      assert Served(Transported(t, h).handed)[i] == c;
    } else {
      var j :| 0 <= j <= from + k - |before| && j < |t.order| && t.order[j] == c;
      assert Enqueued(t, h.channel, h.wire).order[j] == c;
      assert t.queues != map[];
    }
  }

  lemma OpServes(s: SendState, cap: nat, op: Op, from: nat, c: uint32, k: nat)
    requires Inv(s, cap) && op != Drop(c) && ServedWithin(s, from, c, k)
    ensures ServedWithin(After(s, cap, op), from, c, k)
  {
    hide Flushed, Served, Inv;
    FlushServes(s, from, c, k);
    FlushedMeans(s, cap);
    if op.Send? {
      var h := Handed(op.id, op.qos, op.wire);
      SendServes(s, h, from, c, k);
      SendServes(Flushed(s), h, from, c, k);
    }
  }

  /** Over any run, a channel at position k of the order is served after at most k frames of others. */
  lemma {:induction false} EveryChannelGetsItsTurn(s: SendState, cap: nat, ops: seq<Op>, c: uint32, k: nat)
    requires Inv(s, cap) && WaitsWithin(s, c, k) && Drop(c) !in ops
    ensures ServedWithin(Ran(s, cap, ops), |Served(s.handed)|, c, k)
    ensures Inv(Ran(s, cap, ops), cap)
  {
    if ops != [] {
      var front := ops[..|ops| - 1];
      EveryChannelGetsItsTurn(s, cap, front, c, k);
      OpKeepsInv(Ran(s, cap, front), cap, ops[|ops| - 1]);
      OpServes(Ran(s, cap, front), cap, ops[|ops| - 1], |Served(s.handed)|, c, k);
    }
  }
}
