/**
 MessageReassembly (src/L3/MessageReassembly.cpp): fragments of many messages,
 in any order and repeated, back into the messages.
 */
module Reassembly {
  import opened Words
  import opened Chunks
  import opened ChannelWire

  datatype Partial = Partial(count: uint16, totalLen: uint32, chunks: seq<Bytes>, received: nat, startedMs: int)
  type Partials = map<uint64, Partial>

  datatype Limits = Limits(maxMessage: nat, maxPartials: nat, lossy: bool)

  datatype Fault = BadIndices | TooLarge | TooManyFragments | TooManyPartials | Mismatch | Overrun | WrongLength
  datatype Pushed = Refused(why: Fault) | Incomplete | Whole(message: Bytes)

  ghost predicate Valid(a: Partials) {
    forall id :: id in a ==> |a[id].chunks| == a[id].count
  }

  // ------------------------------------------------------------ the operations

  /** The oldest partial; of several equally old ones the first in key order. */
  ghost predicate IsOldest(a: Partials, k: uint64) {
    && k in a
    && forall j :: j in a ==> a[k].startedMs < a[j].startedMs || (a[k].startedMs == a[j].startedMs && k <= j)
  }

  ghost predicate IsOldestOf(a: Partials, keys: set<uint64>, k: uint64) {
    && k in keys && keys <= a.Keys
    && forall j :: j in keys ==> a[k].startedMs < a[j].startedMs || (a[k].startedMs == a[j].startedMs && k <= j)
  }

  lemma {:induction false} OldestExists(a: Partials, keys: set<uint64>)
    requires keys != {} && keys <= a.Keys
    ensures exists k :: IsOldestOf(a, keys, k)
  {
    var one :| one in keys;
    if keys == {one} {
      assert IsOldestOf(a, keys, one);
    } else {
      OldestExists(a, keys - {one});
      var k :| IsOldestOf(a, keys - {one}, k);
      var older := if a[one].startedMs < a[k].startedMs || (a[one].startedMs == a[k].startedMs && one <= k) then one else k;
      forall j | j in keys
        ensures a[older].startedMs < a[j].startedMs || (a[older].startedMs == a[j].startedMs && older <= j)
      {
        assert j == one || j in keys - {one};
      }
      assert IsOldestOf(a, keys, older);
    }
  }

  ghost function Oldest(a: Partials): (k: uint64)
    requires a != map[]
    ensures IsOldest(a, k)
  {
    OldestExists(a, a.Keys);
    var k :| IsOldestOf(a, a.Keys, k);
    k
  }

  ghost function WithoutOldest(a: Partials): Partials {
    if a == map[] then a else a - {Oldest(a)}
  }

  predicate Complete(chunks: seq<Bytes>) {
    forall i :: 0 <= i < |chunks| ==> chunks[i] != []
  }

  /** A fragment put into the partial of its message. */
  function Filed(a: Partials, p: Piece): (Partials, Pushed)
    requires p.msgId in a && |a[p.msgId].chunks| == a[p.msgId].count
    requires p.index < p.count
  {
    var partial := a[p.msgId];
    if partial.count != p.count || partial.totalLen != p.totalLen then (a, Refused(Mismatch))
    else if partial.chunks[p.index] != [] then (a, Incomplete)
    else if partial.received + |p.chunk| > partial.totalLen then (a, Refused(Overrun))
    else
      var filled := partial.(received := partial.received + |p.chunk|, chunks := partial.chunks[p.index := p.chunk]);
      var b := a[p.msgId := filled];
      if !Complete(filled.chunks) then (b, Incomplete)
      else if |Join(filled.chunks)| != filled.totalLen then (b, Refused(WrongLength))
      else (b - {p.msgId}, Whole(Join(filled.chunks)))
  }

  function Started(a: Partials, p: Piece, nowMs: int): Partials {
    a[p.msgId := Partial(p.count, p.totalLen, seq(p.count, _ => []), 0, nowMs)]
  }

  ghost function AfterPush(a: Partials, p: Piece, nowMs: int, limits: Limits): (Partials, Pushed)
    requires Valid(a)
  {
    if p.count == 0 || p.index >= p.count then (a, Refused(BadIndices))
    else if p.totalLen > limits.maxMessage then (a, Refused(TooLarge))
    else if p.count > p.totalLen then (a, Refused(TooManyFragments))
    else if p.msgId in a then Filed(a, p)
    else if |a| < limits.maxPartials then Filed(Started(a, p, nowMs), p)
    else if !limits.lossy then (a, Refused(TooManyPartials))
    else Filed(Started(WithoutOldest(a), p, nowMs), p)
  }

  function Swept(a: Partials, nowMs: int, timeoutMs: int): Partials {
    map id | id in a && nowMs - a[id].startedMs <= timeoutMs :: a[id]
  }

  class MessageReassembly {
    const limits: Limits
    var partials: Partials

    constructor (maxMessage: nat, maxPartials: nat, lossy: bool)
      ensures limits == Limits(maxMessage, maxPartials, lossy) && partials == map[]
    {
      limits := Limits(maxMessage, maxPartials, lossy);
      partials := map[];
    }

    /** The reassembly of a channel record, which is held by value. */
    constructor Resumed(limits: Limits, partials: Partials)
      ensures this.limits == limits && this.partials == partials
    {
      this.limits, this.partials := limits, partials;
    }

    /** The first partial in key order, then any strictly older one. */
    method DropOldestPartial()
      modifies this
      ensures partials == WithoutOldest(old(partials))
    {
      if partials == map[] {
        return;
      }
      var oldest: uint64 := Least(partials.Keys);
      var rest := partials.Keys - {oldest};
      while rest != {}
        invariant rest <= partials.Keys && partials == old(partials)
        invariant IsOldestOf(partials, partials.Keys - rest, oldest)
        invariant forall seen, ahead :: seen in partials.Keys - rest && ahead in rest ==> seen < ahead
      {
        var it: uint64 := Least(rest);
        ghost var looked := partials.Keys - rest;
        if partials[it].startedMs < partials[oldest].startedMs {
          oldest := it;
        }
        assert partials.Keys - (rest - {it}) == looked + {it};
        rest := rest - {it};
      }
      assert partials.Keys - {} == partials.Keys;
      assert IsOldest(partials, oldest);
      partials := partials - {oldest};
    }

    method Push(p: Piece, nowMs: int) returns (out: Pushed)
      requires Valid(partials)
      modifies this
      ensures Valid(partials)
      ensures (partials, out) == AfterPush(old(partials), p, nowMs, limits)
    {
      if p.count == 0 || p.index >= p.count {
        return Refused(BadIndices);
      }
      if p.totalLen > limits.maxMessage {
        return Refused(TooLarge);
      }
      if p.count > p.totalLen {
        return Refused(TooManyFragments);
      }
      if p.msgId !in partials {
        if |partials| >= limits.maxPartials {
          if !limits.lossy {
            return Refused(TooManyPartials);
          }
          DropOldestPartial();
        }
        partials := partials[p.msgId := Partial(p.count, p.totalLen, seq(p.count, _ => []), 0, nowMs)];
      }
      out := File(p);
    }

    /** Push, from the point where the message has a partial. */
    method File(p: Piece) returns (out: Pushed)
      requires Valid(partials) && p.msgId in partials && p.index < p.count
      modifies this
      ensures Valid(partials)
      ensures (partials, out) == Filed(old(partials), p)
    {
      var partial := partials[p.msgId];
      if partial.count != p.count || partial.totalLen != p.totalLen {
        return Refused(Mismatch);
      }
      if partial.chunks[p.index] != [] {
        return Incomplete;
      }
      if partial.received + |p.chunk| > partial.totalLen {
        return Refused(Overrun);
      }
      partial := partial.(received := partial.received + |p.chunk|, chunks := partial.chunks[p.index := p.chunk]);
      partials := partials[p.msgId := partial];
      for i := 0 to |partial.chunks|
        invariant forall j :: 0 <= j < i ==> partial.chunks[j] != []
      {
        if partial.chunks[i] == [] {
          return Incomplete;
        }
      }
      var message := [];
      for i := 0 to |partial.chunks|
        invariant message == Join(partial.chunks[..i])
      {
        assert partial.chunks[..i + 1][..i] == partial.chunks[..i];
        message := message + partial.chunks[i];
      }
      assert partial.chunks[..|partial.chunks|] == partial.chunks;
      if |message| != partial.totalLen {
        return Refused(WrongLength);
      }
      partials := partials - {p.msgId};
      return Whole(message);
    }

    method SweepExpired(nowMs: int, timeoutMs: int)
      modifies this
      ensures partials == Swept(old(partials), nowMs, timeoutMs)
    {
      var rest := partials.Keys;
      while rest != {}
        invariant rest <= old(partials).Keys && partials.Keys <= old(partials).Keys && rest <= partials.Keys
        invariant forall id :: id in partials ==> partials[id] == old(partials)[id]
        invariant forall id :: id in old(partials) && id !in rest ==>
          (id in partials <==> nowMs - old(partials)[id].startedMs <= timeoutMs)
      {
        var it: uint64 := Least(rest);
        if nowMs - partials[it].startedMs > timeoutMs {
          partials := partials - {it};
        }
        rest := rest - {it};
      }
    }
  }
}
