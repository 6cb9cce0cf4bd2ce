/**
 What MessageReassembly promises about fragments that senders really make:
 against the simple picture of which indexes of each message have come.
 */
module ReassemblyLaws {
  import opened Words
  import opened Chunks
  import opened ChannelWire
  import opened Reassembly

  /** The messages under way: how each id's payload was cut. */
  type Plan = map<uint64, seq<Bytes>>

  /** The simple picture: the indexes that have come of each unfinished message. */
  type Got = map<uint64, set<nat>>

  ghost predicate WellCut(chunks: seq<Bytes>, limits: Limits) {
    1 <= |chunks| < 0x1_0000 && Complete(chunks) && |Join(chunks)| <= limits.maxMessage && |Join(chunks)| < U32
  }

  ghost predicate PlanOk(plan: Plan, limits: Limits) {
    forall id :: id in plan ==> WellCut(plan[id], limits)
  }

  function All(n: nat): (s: set<nat>)
    ensures forall i: nat :: i in s <==> i < n
  {
    if n == 0 then {} else All(n - 1) + {n - 1}
  }

  /** Fragment `i` of a message, as its sender makes it. */
  ghost function Fragment(chunks: seq<Bytes>, id: uint64, i: nat, limits: Limits): Piece
    requires WellCut(chunks, limits) && i < |chunks|
  {
    Piece(id, i, |chunks|, |Join(chunks)|, chunks[i])
  }

  ghost predicate Holds(partial: Partial, chunks: seq<Bytes>, have: set<nat>) {
    && partial.count == |chunks| == |partial.chunks| && partial.totalLen == |Join(chunks)|
    && partial.received == JoinedLength(partial.chunks)
    && have <= All(|chunks|)
    && forall i :: 0 <= i < |chunks| ==> partial.chunks[i] == if i in have then chunks[i] else []
  }

  ghost predicate Refines(a: Partials, got: Got, plan: Plan) {
    && a.Keys == got.Keys && got.Keys <= plan.Keys
    && forall id :: id in got ==> Holds(a[id], plan[id], got[id]) && got[id] != All(|plan[id]|)
  }

  function HaveOf(got: Got, id: uint64): set<nat> {
    if id in got then got[id] else {}
  }

  /** What one fragment does in the simple picture. */
  ghost function Marked(got: Got, plan: Plan, id: uint64, i: nat): (Got, Pushed)
    requires id in plan
  {
    var have := HaveOf(got, id);
    if i in have then (got, Incomplete)
    else if have + {i} == All(|plan[id]|) then (got - {id}, Whole(Join(plan[id])))
    else (got[id := have + {i}], Incomplete)
  }

  // ------------------------------------------------------------ one fragment

  lemma {:induction false} ChunksFillTheirLength(chunks: seq<Bytes>)
    requires Complete(chunks)
    ensures |chunks| <= JoinedLength(chunks)
  {
    if chunks != [] { ChunksFillTheirLength(chunks[..|chunks| - 1]); }
  }

  lemma FillFits(partial: Partial, chunks: seq<Bytes>, have: set<nat>, i: nat)
    requires Holds(partial, chunks, have) && i < |chunks| && i !in have
    ensures partial.received + |chunks[i]| == JoinedLength(partial.chunks[i := chunks[i]]) <= |Join(chunks)|
  {
    LengthAfterUpdate(partial.chunks, i, chunks[i]);
    LengthMonotone(partial.chunks[i := chunks[i]], chunks);
    LengthOfJoin(chunks);
  }

  /** A fragment that has not come yet completes its message exactly when it is the last one missing. */
  lemma FillCompletes(partial: Partial, chunks: seq<Bytes>, have: set<nat>, i: nat)
    requires Holds(partial, chunks, have) && Complete(chunks) && i < |chunks| && i !in have
    ensures var filled := partial.chunks[i := chunks[i]];
      && partial.chunks[i] == []
      && (Complete(filled) <==> have + {i} == All(|chunks|))
      && (Complete(filled) ==> filled == chunks)
  {
    hide JoinedLength, Join;
    var filled := partial.chunks[i := chunks[i]];
    if have + {i} == All(|chunks|) {
      forall k | 0 <= k < |chunks|
        ensures filled[k] == chunks[k]
      {
        assert k in All(|chunks|);
        assert k in have || k == i;
      }
      assert filled == chunks;
    } else {
      assert have + {i} <= All(|chunks|);
      var k :| k in All(|chunks|) && k !in have + {i};
      assert filled[k] == [];
    }
  }

  lemma FiledMeans(a: Partials, id: uint64, chunks: seq<Bytes>, have: set<nat>, i: nat, limits: Limits)
    requires id in a && Holds(a[id], chunks, have) && WellCut(chunks, limits) && i < |chunks|
    ensures var (b, out) := Filed(a, Fragment(chunks, id, i, limits));
      if i in have then (b, out) == (a, Incomplete)
      else if have + {i} == All(|chunks|) then out == Whole(Join(chunks)) && b == a - {id}
      else out == Incomplete && id in b && b == a[id := b[id]] && Holds(b[id], chunks, have + {i})
  {
    if i !in have {
      FillFits(a[id], chunks, have, i);
      FillCompletes(a[id], chunks, have, i);
    }
    hide Join, JoinedLength, Complete;
  }

  function Opened(a: Partials, p: Piece, nowMs: int): Partials {
    if p.msgId in a then a else Started(a, p, nowMs)
  }

  /** The piece passes every check, and its message has or gets a partial. */
  lemma PushIsFiled(a: Partials, chunks: seq<Bytes>, id: uint64, i: nat, nowMs: int, limits: Limits)
    requires Valid(a) && WellCut(chunks, limits) && i < |chunks| && (id in a || |a| < limits.maxPartials)
    ensures var p := Fragment(chunks, id, i, limits);
      AfterPush(a, p, nowMs, limits) == Filed(Opened(a, p, nowMs), p)
  {
    LengthOfJoin(chunks);
    ChunksFillTheirLength(chunks);
    hide Filed, Join, JoinedLength;
  }

  /** One fragment of a message of which the chunks in `have` are there: nothing, or the whole message. */
  lemma PushHolds(a: Partials, chunks: seq<Bytes>, have: set<nat>, id: uint64, i: nat, nowMs: int, limits: Limits)
    requires Valid(a) && WellCut(chunks, limits) && i < |chunks| && i !in have
    requires if id in a then Holds(a[id], chunks, have) else have == {} && |a| < limits.maxPartials
    ensures var (b, out) := AfterPush(a, Fragment(chunks, id, i, limits), nowMs, limits);
      && b - {id} == a - {id}
      && if have + {i} == All(|chunks|) then out == Whole(Join(chunks)) && id !in b
         else out == Incomplete && id in b && Holds(b[id], chunks, have + {i})
  {
    hide Holds, Filed, AfterPush, Opened, Join, Complete, All, WellCut;
    var b := Opened(a, Fragment(chunks, id, i, limits), nowMs);
    PushIsFiled(a, chunks, id, i, nowMs, limits);
    OpenedAnew(a, chunks, have, id, i, nowMs, limits);
    FiledMeans(b, id, chunks, have, i, limits);
    FiledLeavesOthers(b, Filed(b, Fragment(chunks, id, i, limits)).0, id);
  }

  lemma FiledLeavesOthers(b: Partials, c: Partials, id: uint64)
    requires c == b - {id} || (id in c && c == b[id := c[id]])
    ensures c - {id} == b - {id}
  {
  }

  lemma OpenedAnew(a: Partials, chunks: seq<Bytes>, have: set<nat>, id: uint64, i: nat, nowMs: int, limits: Limits)
    requires WellCut(chunks, limits) && i < |chunks|
    requires if id in a then Holds(a[id], chunks, have) else have == {}
    ensures var b := Opened(a, Fragment(chunks, id, i, limits), nowMs);
      id in b && b - {id} == a - {id} && |b[id].chunks| == b[id].count && Holds(b[id], chunks, have)
  {
    var b := Opened(a, Fragment(chunks, id, i, limits), nowMs);
    if id !in a { LengthOfNone(b[id].chunks); }
    hide Join, JoinedLength, All;
  }

  lemma OpenedHolds(a: Partials, got: Got, plan: Plan, id: uint64, i: nat, nowMs: int, limits: Limits)
    requires PlanOk(plan, limits) && Refines(a, got, plan) && id in plan && i < |plan[id]|
    ensures var b := Opened(a, Fragment(plan[id], id, i, limits), nowMs);
      && Valid(a) && id in b && Holds(b[id], plan[id], HaveOf(got, id))
      && (b == a || (id !in a && b == a[id := b[id]]))
  {
    var b := Opened(a, Fragment(plan[id], id, i, limits), nowMs);
    if id !in a { LengthOfNone(b[id].chunks); }
    hide Join, JoinedLength, All;
  }

  lemma PushMeans(a: Partials, got: Got, plan: Plan, id: uint64, i: nat, nowMs: int, limits: Limits)
    requires PlanOk(plan, limits) && Refines(a, got, plan) && id in plan && i < |plan[id]|
    requires id in got || |got| < limits.maxPartials
    ensures Valid(a)
    ensures var (b, out) := AfterPush(a, Fragment(plan[id], id, i, limits), nowMs, limits);
      Refines(b, Marked(got, plan, id, i).0, plan) && out == Marked(got, plan, id, i).1
  {
    var chunks, p := plan[id], Fragment(plan[id], id, i, limits);
    assert |got| == |got.Keys| && |a| == |a.Keys|;
    hide Holds, Filed, AfterPush, Join, Complete;
    OpenedHolds(a, got, plan, id, i, nowMs, limits);
    var b := Opened(a, p, nowMs);
    PushIsFiled(a, chunks, id, i, nowMs, limits);
    FiledMeans(b, id, chunks, HaveOf(got, id), i, limits);
    RefinesAfter(a, b, Filed(b, p).0, got, plan, id, i);
  }

  lemma RefinesAfter(a: Partials, b: Partials, c: Partials, got: Got, plan: Plan, id: uint64, i: nat)
    requires Refines(a, got, plan) && id in plan && i < |plan[id]|
    requires id in b && (b == a || (id !in a && b == a[id := b[id]])) && Holds(b[id], plan[id], HaveOf(got, id))
    requires var have := HaveOf(got, id);
      if i in have then c == b
      else if have + {i} == All(|plan[id]|) then c == b - {id}
      else id in c && c == b[id := c[id]] && Holds(c[id], plan[id], have + {i})
    ensures Refines(c, Marked(got, plan, id, i).0, plan)
  {
    hide Holds, All, Join;
    var want := Marked(got, plan, id, i).0;
    assert i in HaveOf(got, id) ==> id in got;
    assert c.Keys == want.Keys;
  }

  // ------------------------------------------------------------ any stream of fragments

  /** One arrival: fragment `index` of message `id`. */
  datatype Arrival = Arrival(id: uint64, index: nat, nowMs: int)

  ghost predicate Of(plan: Plan, steps: seq<Arrival>) {
    forall k :: 0 <= k < |steps| ==> steps[k].id in plan && steps[k].index < |plan[steps[k].id]|
  }

  ghost function Fed(plan: Plan, steps: seq<Arrival>, limits: Limits): (a: Partials)
    requires PlanOk(plan, limits) && Of(plan, steps)
    ensures Valid(a)
  {
    if steps == [] then map[]
    else
      var n := |steps| - 1;
      PushKeepsValid(Fed(plan, steps[..n], limits), FragmentAt(plan, steps[n], limits), steps[n].nowMs, limits);
      AfterPush(Fed(plan, steps[..n], limits), FragmentAt(plan, steps[n], limits), steps[n].nowMs, limits).0
  }

  ghost function FragmentAt(plan: Plan, s: Arrival, limits: Limits): Piece
    requires PlanOk(plan, limits) && s.id in plan && s.index < |plan[s.id]|
  {
    Fragment(plan[s.id], s.id, s.index, limits)
  }

  lemma PushKeepsValid(a: Partials, p: Piece, nowMs: int, limits: Limits)
    requires Valid(a)
    ensures Valid(AfterPush(a, p, nowMs, limits).0)
  {
  }

  function Ids(steps: seq<Arrival>): set<uint64> {
    if steps == [] then {} else Ids(steps[..|steps| - 1]) + {steps[|steps| - 1].id}
  }

  /** The indexes of message `id` that have come. */
  function Seen(steps: seq<Arrival>, id: uint64): set<nat> {
    if steps == [] then {}
    else
      var s := steps[|steps| - 1];
      Seen(steps[..|steps| - 1], id) + if s.id == id then {s.index} else {}
  }

  lemma SubsetSize(a: set<uint64>, b: set<uint64>)
    requires a <= b
    ensures |a| <= |b| && (a != b ==> |a| < |b|)
  {
    assert b == a + (b - a);
    if a != b {
      assert b - a != {};
    }
  }

  /** The simple picture agrees with what has come of every message not yet whole. */
  ghost predicate Agrees(got: Got, plan: Plan, steps: seq<Arrival>) {
    && got.Keys <= Ids(steps)
    && forall id :: id in plan && Seen(steps, id) != All(|plan[id]|) ==> HaveOf(got, id) == Seen(steps, id)
  }

  lemma {:induction false} SeenWithin(plan: Plan, steps: seq<Arrival>, id: uint64)
    requires Of(plan, steps) && id in plan
    ensures Seen(steps, id) <= All(|plan[id]|)
  {
    if steps != [] {
      SeenWithin(plan, steps[..|steps| - 1], id);
    }
  }

  lemma MarkedAgrees(got: Got, plan: Plan, steps: seq<Arrival>)
    requires steps != [] && Of(plan, steps)
    requires Agrees(got, plan, steps[..|steps| - 1])
    ensures var s := steps[|steps| - 1];
      Agrees(Marked(got, plan, s.id, s.index).0, plan, steps)
  {
    var front, s := steps[..|steps| - 1], steps[|steps| - 1];
    hide All, Join;
    var next := Marked(got, plan, s.id, s.index).0;
    forall id | id in plan && Seen(steps, id) != All(|plan[id]|)
      ensures HaveOf(next, id) == Seen(steps, id)
    {
      SeenWithin(plan, steps, id);
      if id == s.id && s.index in Seen(front, id) { assert Seen(steps, id) == Seen(front, id); }
      assert Seen(front, id) != All(|plan[id]|);
    }
  }

  /** The simple picture after these arrivals. */
  ghost function Pictured(plan: Plan, steps: seq<Arrival>): Got
    requires Of(plan, steps)
  {
    if steps == [] then map[]
    else
      var s := steps[|steps| - 1];
      Marked(Pictured(plan, steps[..|steps| - 1]), plan, s.id, s.index).0
  }

  /** At no time were more than maxPartials messages unfinished. */
  ghost predicate RoomAlways(plan: Plan, steps: seq<Arrival>, limits: Limits)
    requires Of(plan, steps)
  {
    steps == [] ||
    (var front := steps[..|steps| - 1];
      && RoomAlways(plan, front, limits)
      && (steps[|steps| - 1].id in Pictured(plan, front) || |Pictured(plan, front)| < limits.maxPartials))
  }

  /** That is so when there are no more messages than that in all. */
  lemma {:induction false} FewMessagesFit(plan: Plan, steps: seq<Arrival>, limits: Limits)
    requires Of(plan, steps) && |Ids(steps)| <= limits.maxPartials
    ensures RoomAlways(plan, steps, limits) && Pictured(plan, steps).Keys <= Ids(steps)
  {
    if steps != [] {
      var front := steps[..|steps| - 1];
      hide All, Join;
      SubsetSize(Ids(front), Ids(steps));
      FewMessagesFit(plan, front, limits);
      SubsetSize(Pictured(plan, front).Keys, Ids(steps));
      assert |Pictured(plan, front)| == |Pictured(plan, front).Keys|;
    }
  }

  /** After any arrivals with never more than maxPartials messages unfinished, the reassembler holds just what came of each unfinished one. */
  lemma {:induction false} FedRefines(plan: Plan, steps: seq<Arrival>, limits: Limits)
    requires PlanOk(plan, limits) && Of(plan, steps) && RoomAlways(plan, steps, limits)
    ensures Refines(Fed(plan, steps, limits), Pictured(plan, steps), plan) && Agrees(Pictured(plan, steps), plan, steps)
  {
    if steps != [] {
      FedRefines(plan, steps[..|steps| - 1], limits);
      LastPush(plan, steps, limits, Pictured(plan, steps[..|steps| - 1]));
      hide Refines, Agrees, Marked, Fed;
    }
  }

  lemma LastPush(plan: Plan, steps: seq<Arrival>, limits: Limits, before: Got)
    requires PlanOk(plan, limits) && Of(plan, steps) && steps != []
    requires steps[|steps| - 1].id in before || |before| < limits.maxPartials
    requires Of(plan, steps[..|steps| - 1]) && Agrees(before, plan, steps[..|steps| - 1])
    requires Refines(Fed(plan, steps[..|steps| - 1], limits), before, plan)
    ensures var s := steps[|steps| - 1];
      && Refines(Fed(plan, steps, limits), Marked(before, plan, s.id, s.index).0, plan)
      && Agrees(Marked(before, plan, s.id, s.index).0, plan, steps)
      && LastAnswer(plan, steps, limits) == Marked(before, plan, s.id, s.index).1
  {
    var front, s := steps[..|steps| - 1], steps[|steps| - 1];
    MarkedAgrees(before, plan, steps);
    hide Refines, Agrees, AfterPush, Marked, PlanOk;
    PushMeans(Fed(plan, front, limits), before, plan, s.id, s.index, s.nowMs, limits);
  }

  /** What the reassembler answered to the last arrival. */
  ghost function LastAnswer(plan: Plan, steps: seq<Arrival>, limits: Limits): Pushed
    requires PlanOk(plan, limits) && Of(plan, steps) && steps != []
  {
    var n := |steps| - 1;
    AfterPush(Fed(plan, steps[..n], limits), FragmentAt(plan, steps[n], limits), steps[n].nowMs, limits).1
  }

  /**
   Fragments in any order, repeated, of any number of messages mixed, up to maxPartials of them
   unfinished at a time: until a message is whole its fragments bring nothing, and the one that
   makes it whole brings exactly its payload.
   */
  lemma WholeOnTheLastMissingPiece(plan: Plan, steps: seq<Arrival>, limits: Limits)
    requires PlanOk(plan, limits) && Of(plan, steps) && RoomAlways(plan, steps, limits)
    requires steps != []
    ensures var (front, s) := (steps[..|steps| - 1], steps[|steps| - 1]);
      Seen(front, s.id) != All(|plan[s.id]|) ==>
        LastAnswer(plan, steps, limits) ==
          if Seen(steps, s.id) == All(|plan[s.id]|) then Whole(Join(plan[s.id])) else Incomplete
  {
    var front, s := steps[..|steps| - 1], steps[|steps| - 1];
    hide All, Join, Fed, LastAnswer, Refines, Agrees, Marked, Seen, Ids, PlanOk, Pictured;
    SeenSnoc(steps);
    var before := Pictured(plan, front);
    FedRefines(plan, front, limits);
    LastAnswerIsMarked(plan, steps, limits, before);
    AgreeThere(before, plan, front, s.id);
    MarkedAnswer(before, plan, s.id, s.index, Seen(front, s.id));
  }

  lemma SeenSnoc(steps: seq<Arrival>)
    requires steps != []
    ensures var (front, s) := (steps[..|steps| - 1], steps[|steps| - 1]);
      Seen(steps, s.id) == Seen(front, s.id) + {s.index}
  {
  }

  lemma AgreeThere(got: Got, plan: Plan, steps: seq<Arrival>, id: uint64)
    requires Agrees(got, plan, steps) && id in plan
    ensures Seen(steps, id) != All(|plan[id]|) ==> HaveOf(got, id) == Seen(steps, id)
  {
  }

  lemma MarkedAnswer(got: Got, plan: Plan, id: uint64, i: nat, have: set<nat>)
    requires id in plan && (have != All(|plan[id]|) ==> HaveOf(got, id) == have)
    ensures have != All(|plan[id]|) ==>
      Marked(got, plan, id, i).1 == if have + {i} == All(|plan[id]|) then Whole(Join(plan[id])) else Incomplete
  {
    hide Join, All;
    if i in have { assert have + {i} == have; }
  }

  lemma LastAnswerIsMarked(plan: Plan, steps: seq<Arrival>, limits: Limits, before: Got)
    requires PlanOk(plan, limits) && Of(plan, steps) && steps != []
    requires steps[|steps| - 1].id in before || |before| < limits.maxPartials
    requires Of(plan, steps[..|steps| - 1]) && Agrees(before, plan, steps[..|steps| - 1])
    requires Refines(Fed(plan, steps[..|steps| - 1], limits), before, plan)
    ensures var s := steps[|steps| - 1];
      LastAnswer(plan, steps, limits) == Marked(before, plan, s.id, s.index).1
  {
    LastPush(plan, steps, limits, before);
  }

  /** What SendData cuts is well cut exactly when it is not empty, its fragments fit 16 bits and it fits the receiver's limit. */
  lemma SplitIsWellCut(payload: Bytes, size: nat, limits: Limits)
    requires size >= 1
    ensures WellCut(Split(payload, size), limits) <==>
            payload != [] && Needed(|payload|, size) <= 0xFFFF && |payload| <= limits.maxMessage && |payload| < U32
    ensures Join(Split(payload, size)) == payload
  {
    JoinSplit(payload, size);
    NeededBounds(|payload|, size);
    forall i | 0 <= i < Needed(|payload|, size)
      ensures Split(payload, size)[i] != []
    {
      ChunkSizes(payload, size, i);
    }
  }

  // ------------------------------------------------------------ how much it may hold

  lemma {:induction false} DropOne(a: Partials, k: uint64)
    requires k in a
    ensures |a - {k}| == |a| - 1
  {
    assert (a - {k}).Keys == a.Keys - {k};
    assert |a| == |a.Keys| && |a - {k}| == |(a - {k}).Keys|;
  }

  lemma FiledKeys(a: Partials, p: Piece)
    requires p.msgId in a && |a[p.msgId].chunks| == a[p.msgId].count && p.index < p.count
    ensures var b := Filed(a, p).0;
      && Filed(a, p).1 != Refused(TooManyPartials)
      && |b| <= |a| && a.Keys - {p.msgId} <= b.Keys <= a.Keys
      && forall id :: id in b && id != p.msgId ==> b[id] == a[id]
  {
    hide Join, Complete;
    var b := Filed(a, p).0;
    DropOne(a, p.msgId);
    assert b == a - {p.msgId} || b.Keys == a.Keys;
    assert |b| == |b.Keys| && |a| == |a.Keys|;
  }

  /** The partials there is room beside: all of them, or all but the oldest. */
  lemma RoomLeft(a: Partials, limits: Limits) returns (left: Partials)
    requires |a| <= Max(limits.maxPartials, if limits.lossy then 1 else 0)
    ensures left == if |a| < limits.maxPartials then a else WithoutOldest(a)
    ensures limits.lossy || |a| < limits.maxPartials ==> |left| < Max(limits.maxPartials, 1)
    ensures left.Keys <= a.Keys && forall id :: id in left ==> left[id] == a[id]
    ensures forall id :: id in a && id !in left ==> IsOldest(a, id)
  {
    hide IsOldest;
    left := if |a| < limits.maxPartials then a else WithoutOldest(a);
    if a != map[] { DropOne(a, Oldest(a)); }
  }

  /** Never more partials than the cap; a lossy one always has room for one, at the price of its oldest alone. */
  lemma PartialsBounded(a: Partials, p: Piece, nowMs: int, limits: Limits)
    requires Valid(a) && |a| <= Max(limits.maxPartials, if limits.lossy then 1 else 0)
    ensures var (b, out) := AfterPush(a, p, nowMs, limits);
      && |b| <= Max(limits.maxPartials, if limits.lossy then 1 else 0)
      && (limits.lossy ==> out != Refused(TooManyPartials))
      && (forall id :: id in a && id != p.msgId && id !in b ==> limits.lossy && IsOldest(a, id))
      && (forall id :: id in a && id != p.msgId && id in b ==> a[id] == b[id])
  {
    hide Join, Complete, IsOldest, Filed, WithoutOldest;
    if p.count != 0 && p.index < p.count {
      if p.msgId in a {
        FiledKeys(a, p);
      } else if limits.lossy || |a| < limits.maxPartials {
        var left := RoomLeft(a, limits);
        StartedSize(left, p, nowMs);
        FiledKeys(Started(left, p, nowMs), p);
      }
    }
  }

  lemma StartedSize(a: Partials, p: Piece, nowMs: int)
    ensures p.msgId !in a ==> |Started(a, p, nowMs)| == |a| + 1
  {
    if p.msgId !in a {
      assert Started(a, p, nowMs).Keys == a.Keys + {p.msgId};
      assert |a| == |a.Keys| && |Started(a, p, nowMs)| == |Started(a, p, nowMs).Keys|;
    }
  }
}
