/**
 What one fragment, and one sweep, do to the partials, case by case, and how long a partial lives
 (src/L3/MessageReassembly.cpp:8-89).
 */
module ReassemblyCases {
  import opened Words
  import opened Chunks
  import opened ChannelWire
  import opened Reassembly
  import Laws = ReassemblyLaws

  // ------------------------------------------------------------ one fragment

  /** A fragment that no message of the channel could have, or one too many messages at a time, is refused with nothing kept of it. */
  lemma RefusedAtOnce(a: Partials, p: Piece, nowMs: int, limits: Limits)
    requires Valid(a)
    ensures var (b, out) := AfterPush(a, p, nowMs, limits);
      var impossible := p.index >= p.count || p.totalLen > limits.maxMessage || p.count > p.totalLen;
      var full := p.msgId !in a && |a| >= limits.maxPartials && !limits.lossy;
      var other := p.msgId in a && (a[p.msgId].count != p.count || a[p.msgId].totalLen != p.totalLen);
      impossible || full || other ==> out.Refused? && b == a
  {
    hide Join, Complete;
  }

  /** A fragment that came before, or one in the place of another, changes nothing. */
  lemma RepeatIgnored(a: Partials, p: Piece, nowMs: int, limits: Limits)
    requires Valid(a) && p.msgId in a && p.index < p.count <= p.totalLen <= limits.maxMessage
    requires a[p.msgId].count == p.count && a[p.msgId].totalLen == p.totalLen && a[p.msgId].chunks[p.index] != []
    ensures AfterPush(a, p, nowMs, limits) == (a, Incomplete)
  {
    hide Join, Complete;
  }

  /** A fragment of a message under way: refused when it is past the length declared; else it fills its place and no other, and the last one ends the message. */
  lemma PlaceFilled(a: Partials, p: Piece, nowMs: int, limits: Limits)
    requires Valid(a) && p.msgId in a && p.index < p.count <= p.totalLen <= limits.maxMessage
    requires a[p.msgId].count == p.count && a[p.msgId].totalLen == p.totalLen && a[p.msgId].chunks[p.index] == []
    ensures var was, (b, out) := a[p.msgId], AfterPush(a, p, nowMs, limits);
      var filled := was.chunks[p.index := p.chunk];
      var more := exists i :: 0 <= i < |filled| && filled[i] == [];
      if was.received + |p.chunk| > p.totalLen then (b, out) == (a, Refused(Overrun))
      else if more then b == a[p.msgId := Partial(p.count, p.totalLen, filled, was.received + |p.chunk|, was.startedMs)] && out == Incomplete
      else if |Join(filled)| == p.totalLen then b == a - {p.msgId} && out == Whole(Join(filled))
      else out == Refused(WrongLength)
  {
    hide Join;
  }

  /** The first fragment of a message: a partial begun now, which then takes it as any other. */
  lemma FirstOfItsMessage(a: Partials, p: Piece, nowMs: int, limits: Limits)
    requires Valid(a) && p.msgId !in a && p.index < p.count <= p.totalLen <= limits.maxMessage && |a| < limits.maxPartials
    ensures var begun := Partial(p.count, p.totalLen, seq(p.count, _ => []), 0, nowMs);
      AfterPush(a, p, nowMs, limits) == AfterPush(a[p.msgId := begun], p, nowMs, limits)
  {
    hide Join, Complete;
  }

  /** On a lossy channel with no room the one partial begun before all others makes it, of several begun then the lowest numbered; nothing else goes. */
  lemma OldestMakesRoom(a: Partials, p: Piece, nowMs: int, limits: Limits) returns (k: uint64)
    requires Valid(a) && a != map[] && p.msgId !in a && p.index < p.count <= p.totalLen <= limits.maxMessage
    requires limits.lossy && |a| == limits.maxPartials
    ensures k in a && forall j :: j in a && j != k ==> a[k].startedMs < a[j].startedMs || (a[k].startedMs == a[j].startedMs && k < j)
    ensures AfterPush(a, p, nowMs, limits) == AfterPush(a - {k}, p, nowMs, limits)
  {
    hide Join, Complete;
    k := Oldest(a);
    Laws.DropOne(a, k);
  }

  // ------------------------------------------------------------ how long a partial lives

  /** A sweep takes the partials begun more than the timeout ago, those alone, and leaves the others as they were. */
  lemma SweptExactly(a: Partials, nowMs: int, timeoutMs: int, id: uint64)
    ensures var b := Swept(a, nowMs, timeoutMs);
      && (id in b <==> id in a && nowMs <= a[id].startedMs + timeoutMs)
      && (id in b ==> b[id] == a[id])
  {
  }

  datatype Op = Push(p: Piece, nowMs: int) | Sweep(nowMs: int, timeoutMs: int)

  ghost function After(a: Partials, op: Op, limits: Limits): (b: Partials)
    requires Valid(a)
    ensures Valid(b)
  {
    match op
    case Push(p, nowMs) =>
      Laws.PushKeepsValid(a, p, nowMs, limits);
      AfterPush(a, p, nowMs, limits).0
    case Sweep(nowMs, timeoutMs) => Swept(a, nowMs, timeoutMs)
  }

  ghost function Ran(a: Partials, ops: seq<Op>, limits: Limits): (b: Partials)
    requires Valid(a)
    ensures Valid(b)
  {
    if ops == [] then a else After(Ran(a, ops[..|ops| - 1], limits), ops[|ops| - 1], limits)
  }

  lemma StartKept(a: Partials, op: Op, limits: Limits, id: uint64)
    requires Valid(a) && id in a && id in After(a, op, limits)
    ensures After(a, op, limits)[id].startedMs == a[id].startedMs
  {
    hide Join, Complete;
    if op.Push? && op.p.msgId != id && op.p.msgId !in a && op.p.index < op.p.count {
      var left := if |a| < limits.maxPartials then a else WithoutOldest(a);
      Laws.FiledKeys(Started(left, op.p, op.nowMs), op.p);
    }
  }

  /** A partial's time is that of its message's first fragment, whatever else comes: so the first sweep later than that by more than the timeout takes it, and no sweep before. */
  lemma {:induction false} LivesFromItsFirst(a: Partials, ops: seq<Op>, limits: Limits, id: uint64, nowMs: int, timeoutMs: int)
    requires Valid(a) && id in a && forall i :: 0 <= i <= |ops| ==> id in Ran(a, ops[..i], limits)
    ensures id in Ran(a, ops, limits) && Ran(a, ops, limits)[id].startedMs == a[id].startedMs
    ensures id in Swept(Ran(a, ops, limits), nowMs, timeoutMs) <==> nowMs <= a[id].startedMs + timeoutMs
  {
    assert ops[..|ops|] == ops;
    if ops != [] {
      var front := ops[..|ops| - 1];
      forall i | 0 <= i <= |front|
        ensures id in Ran(a, front[..i], limits)
      {
        assert front[..i] == ops[..i];
      }
      LivesFromItsFirst(a, front, limits, id, nowMs, timeoutMs);
      assert id in Ran(a, ops[..|ops|], limits);
      StartKept(Ran(a, front, limits), ops[|ops| - 1], limits, id);
    }
  }
}
