/**
 What each operation of the link table does to its entries, one by one, and how long a handle is good for
 (src/link/LinkTable.cpp).
 */
module LinkTableUse {
  import opened Words
  import opened LinkTable

  // ------------------------------------------------------------ entry by entry

  /** Insert: the next id, the next generation, found by its key; everything else as it was. */
  lemma InsertedIs(t: Table, link: Link, other: uint64, key: string)
    ensures var u, id, generation := Inserted(t, link), (t.nextId + 1) % 0x1_0000_0000_0000_0000, (t.nextGeneration + 1) % 0x1_0000_0000;
      && u.nextId == id && u.nextGeneration == generation && u.byPeer == t.byPeer
      && id in u.links && u.links[id] == Link(id, generation, link.key, link.peer, link.transport, link.connected)
      && (other != id ==> (other in u.links <==> other in t.links) && (other in t.links ==> u.links[other] == t.links[other]))
      && link.key in u.byKey && u.byKey[link.key] == id
      && (key != link.key ==> (key in u.byKey <==> key in t.byKey) && (key in t.byKey ==> u.byKey[key] == t.byKey[key]))
  {
  }

  /** Erase: the link goes, and of either index just the entries that named it. */
  lemma ErasedExactly(t: Table, id: uint64, other: uint64, key: string, peer: string, transport: Transport)
    requires Inv(t)
    ensures var u := Erased(t, id);
      && (other in u.links <==> other in t.links && other != id) && (other in u.links ==> u.links[other] == t.links[other])
      && (key in u.byKey <==> key in t.byKey && t.byKey[key] != id) && (key in u.byKey ==> u.byKey[key] == t.byKey[key])
      && Slot(PresenceOf(u, peer), transport) ==
           (if Slot(PresenceOf(t, peer), transport) == Some(id) then None else Slot(PresenceOf(t, peer), transport))
      && u.nextId == t.nextId && u.nextGeneration == t.nextGeneration
  {
    assert SlotOk(t, peer, transport);
  }

  /** Erase by key is erase of the link the key names, if it names one. */
  lemma ErasedByKeyIs(t: Table, key: string)
    ensures ErasedByKey(t, key) == if key in t.byKey then Erased(t, t.byKey[key]) else t
  {
  }

  /** Bind: refused for a link that is gone, or a key not its own that names another, with no change; else the new key names it, its old one does not, and it is otherwise the same link. */
  lemma BoundExactly(t: Table, id: uint64, key: string, other: string)
    requires Inv(t)
    ensures var (u, ok) := Bound(t, id, key);
      && (ok <==> id in t.links && (key in t.byKey && t.byKey[key] != id ==> t.links[id].key == key))
      && (!ok ==> u == t)
      && (ok ==>
            && u.links == t.links[id := t.links[id].(key := key)] && u.byPeer == t.byPeer
            && key in u.byKey && u.byKey[key] == id
            && (other != key ==> (other in u.byKey <==> (other in t.byKey && t.byKey[other] != id)))
            && (other != key && other in u.byKey ==> u.byKey[other] == t.byKey[other]))
  {
    BindKeepsInv(t, id, key);
    if id in t.links { assert t.links[id].(key := t.links[id].key) == t.links[id]; }
  }

  /** SetPresence writes the one slot of that peer and transport; no peer or no link writes nothing. */
  lemma PresentExactly(t: Table, peer: string, transport: Transport, id: uint64, p: string, tr: Transport)
    ensures var u := PresenceSet(t, peer, transport, id);
      && u.links == t.links && u.byKey == t.byKey
      && Slot(PresenceOf(u, p), tr) ==
           (if p == peer && tr == transport && peer != "" && id != 0 then Some(id) else Slot(PresenceOf(t, p), tr))
  {
  }

  /** ClearPresence empties that slot if it names that link, and no other. */
  lemma AbsentExactly(t: Table, peer: string, transport: Transport, id: uint64, p: string, tr: Transport)
    ensures var u := PresenceCleared(t, peer, transport, id);
      && u.links == t.links && u.byKey == t.byKey
      && Slot(PresenceOf(u, p), tr) ==
           (if p == peer && tr == transport && Slot(PresenceOf(t, p), tr) == Some(id) then None else Slot(PresenceOf(t, p), tr))
  {
  }

  /** The adp and the carrier slot are two. */
  lemma TwoSlots(p: Presence)
    ensures Slot(p, Adp) == p.adp && Slot(p, Carrier) == p.carrier && Other(Adp) == Carrier && Other(Carrier) == Adp
  {
  }

  /** A link told of as present is the one found first by that peer and transport, as long as it is connected. */
  lemma PresentIsPicked(t: Table, peer: string, transport: Transport, id: uint64)
    requires Truthful(t, peer, transport, id) && peer != "" && id != 0
    ensures var u := PresenceSet(t, peer, transport, id);
      Picked(u, peer, transport) == if t.links[id].connected then Some(t.links[id]) else None
  {
  }

  // ------------------------------------------------------------ handles

  /** A handle resolves to the link of its id, only if that is of its generation. */
  lemma ResolvesExactlyWhen(t: Table, h: Handle)
    ensures FindLive(t, h).Some? <==> h.id in t.links && t.links[h.id].generation == h.generation
    ensures FindLive(t, h).Some? ==> FindLive(t, h).value == t.links[h.id]
  {
  }

  predicate Erases(t: Table, op: Op, id: uint64) {
    op == EraseId(id) || (op.EraseKey? && op.key in t.byKey && t.byKey[op.key] == id)
  }

  predicate NeverErased(t: Table, ops: seq<Op>, id: uint64) {
    ops == [] || (NeverErased(t, ops[..|ops| - 1], id) && !Erases(Ran(t, ops[..|ops| - 1]), ops[|ops| - 1], id))
  }

  lemma OpKeepsLink(t: Table, op: Op, h: Handle)
    requires Inv(t) && Proper(t, op) && FindLive(t, h).Some? && !Erases(t, op, h.id)
    ensures FindLive(After(t, op), h).Some? && After(t, op).links[h.id].transport == t.links[h.id].transport
  {
  }

  /** A handle resolves until its link is erased, by its id or by the key that names it, whatever else happens meanwhile. */
  lemma {:induction false} HandleGoodUntilErased(t: Table, ops: seq<Op>, h: Handle)
    requires Inv(t) && AllProper(t, ops) && FindLive(t, h).Some? && NeverErased(t, ops, h.id)
    ensures FindLive(Ran(t, ops), h).Some? && Ran(t, ops).links[h.id].transport == t.links[h.id].transport
  {
    if ops != [] {
      HandleGoodUntilErased(t, ops[..|ops| - 1], h);
      NothingDangles(t, ops[..|ops| - 1]);
      OpKeepsLink(Ran(t, ops[..|ops| - 1]), ops[|ops| - 1], h);
    }
  }
}
