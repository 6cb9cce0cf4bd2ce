/**
 LinkTable (src/link/LinkTable.cpp): the links by id, and two indexes beside them,
 by dial key and by peer. Links are held by value here; what changes in a link
 while the table holds it (its phase, its peer once known) comes in by `Identified`
 and `PhaseChanged`.
 */
module LinkTable {
  import opened Words

  datatype Transport = Adp | Carrier

  datatype Link = Link(id: uint64, generation: uint32, key: string, peer: string, transport: Transport, connected: bool)
  datatype Presence = Presence(adp: Option<uint64>, carrier: Option<uint64>)
  datatype Handle = Handle(id: uint64, generation: uint32)

  datatype Table = Table(
    links: map<uint64, Link>, byKey: map<string, uint64>, byPeer: map<string, Presence>, nextId: uint64, nextGeneration: uint32)

  const NOBODY := Presence(None, None)

  function Slot(p: Presence, t: Transport): Option<uint64> {
    if t.Carrier? then p.carrier else p.adp
  }

  function WithSlot(p: Presence, t: Transport, id: Option<uint64>): Presence {
    if t.Carrier? then p.(carrier := id) else p.(adp := id)
  }

  function PresenceOf(t: Table, peer: string): Presence {
    if peer in t.byPeer then t.byPeer[peer] else NOBODY
  }

  // ------------------------------------------------------------ the operations

  /** Insert, for a link that has no id yet. */
  function Inserted(t: Table, link: Link): Table {
    var id: uint64 := (t.nextId + 1) % U64;
    var generation := Add32(t.nextGeneration, 1);
    Table(t.links[id := link.(id := id, generation := generation)], t.byKey[link.key := id], t.byPeer, id, generation)
  }

  function PresenceCleared(t: Table, peer: string, transport: Transport, id: uint64): Table {
    if peer !in t.byPeer then t
    else
      var p := if Slot(t.byPeer[peer], transport) == Some(id) then WithSlot(t.byPeer[peer], transport, None) else t.byPeer[peer];
      if p == NOBODY then t.(byPeer := t.byPeer - {peer}) else t.(byPeer := t.byPeer[peer := p])
  }

  function Erased(t: Table, id: uint64): Table {
    if id !in t.links then t
    else
      var link := t.links[id];
      var unkeyed := if link.key in t.byKey && t.byKey[link.key] == id then t.(byKey := t.byKey - {link.key}) else t;
      var gone := if link.peer == "" then unkeyed else PresenceCleared(unkeyed, link.peer, link.transport, id);
      gone.(links := gone.links - {id})
  }

  function ErasedByKey(t: Table, key: string): Table {
    if key in t.byKey then Erased(t, t.byKey[key]) else t
  }

  function Bound(t: Table, id: uint64, key: string): (Table, bool) {
    if id !in t.links then (t, false)
    else
      var was := t.links[id].key;
      if was == key then (t.(byKey := t.byKey[key := id]), true)
      else if key in t.byKey && t.byKey[key] != id then (t, false)
      else
        var dropped := if was in t.byKey && t.byKey[was] == id then t.byKey - {was} else t.byKey;
        (t.(links := t.links[id := t.links[id].(key := key)], byKey := dropped[key := id]), true)
  }

  function PresenceSet(t: Table, peer: string, transport: Transport, id: uint64): Table {
    if peer == "" || id == 0 then t
    else t.(byPeer := t.byPeer[peer := WithSlot(PresenceOf(t, peer), transport, Some(id))])
  }

  function FindLive(t: Table, h: Handle): Option<Link> {
    if h.id in t.links && t.links[h.id].generation == h.generation then Some(t.links[h.id]) else None
  }

  predicate ConnectedTo(link: Link, peer: string) {
    link.connected && link.peer == peer
  }

  class LinkTable {
    var byId: map<uint64, Link>
    var byDialKey: map<string, uint64>
    var byPeer: map<string, Presence>
    var nextId: uint64
    var nextGeneration: uint32

    ghost function State(): Table
      reads this
    {
      Table(byId, byDialKey, byPeer, nextId, nextGeneration)
    }

    constructor ()
      ensures State() == Table(map[], map[], map[], 0, 0)
    {
      byId, byDialKey, byPeer, nextId, nextGeneration := map[], map[], map[], 0, 0;
    }

    method Insert(link: Link) returns (id: uint64)
      modifies this`byId, this`byDialKey, this`nextId, this`nextGeneration
      ensures State() == Inserted(old(State()), link) && id == nextId
    {
      nextId := (nextId + 1) % U64;
      nextGeneration := Add32(nextGeneration, 1);
      id := nextId;
      byId := byId[id := link.(id := id, generation := nextGeneration)];
      byDialKey := byDialKey[link.key := id];
    }

    method EraseById(id: uint64)
      modifies this`byId, this`byDialKey, this`byPeer
      ensures State() == Erased(old(State()), id)
    {
      if id !in byId {
        return;
      }
      var link := byId[id];
      if link.key in byDialKey && byDialKey[link.key] == id {
        byDialKey := byDialKey - {link.key};
      }
      if link.peer != "" {
        ClearPresence(link.peer, link.transport, id);
      }
      byId := byId - {id};
    }

    method EraseByDialKey(key: string)
      modifies this`byId, this`byDialKey, this`byPeer
      ensures State() == ErasedByKey(old(State()), key)
    {
      if key !in byDialKey {
        return;
      }
      EraseById(byDialKey[key]);
    }

    method BindDialKey(id: uint64, key: string) returns (ok: bool)
      modifies this`byId, this`byDialKey
      ensures (State(), ok) == Bound(old(State()), id, key)
    {
      if id !in byId {
        return false;
      }
      var was := byId[id].key;
      if was == key {
        byDialKey := byDialKey[key := id];
        return true;
      }
      if key in byDialKey && byDialKey[key] != id {
        return false;
      }
      if was in byDialKey && byDialKey[was] == id {
        byDialKey := byDialKey - {was};
      }
      byId := byId[id := byId[id].(key := key)];
      byDialKey := byDialKey[key := id];
      return true;
    }

    method UnbindDialKey(key: string)
      modifies this`byDialKey
      ensures State() == old(State()).(byKey := old(byDialKey) - {key})
    {
      byDialKey := byDialKey - {key};
    }

    method SetPresence(peer: string, transport: Transport, id: uint64)
      modifies this`byPeer
      ensures State() == PresenceSet(old(State()), peer, transport, id)
    {
      if peer == "" || id == 0 {
        return;
      }
      var p := if peer in byPeer then byPeer[peer] else NOBODY;
      if transport.Carrier? {
        p := p.(carrier := Some(id));
      } else {
        p := p.(adp := Some(id));
      }
      byPeer := byPeer[peer := p];
    }

    method ClearPresence(peer: string, transport: Transport, id: uint64)
      modifies this`byPeer
      ensures State() == PresenceCleared(old(State()), peer, transport, id)
    {
      if peer !in byPeer {
        return;
      }
      var p := byPeer[peer];
      if transport.Carrier? {
        if p.carrier == Some(id) {
          p := p.(carrier := None);
        }
      } else if p.adp == Some(id) {
        p := p.(adp := None);
      }
      byPeer := if p == NOBODY then byPeer - {peer} else byPeer[peer := p];
    }

    /** The presence's preferred slot, then its other, then any connected link of the peer. */
    method FindByPeerId(peer: string, prefer: Transport) returns (found: Option<Link>)
      requires Inv(State())
      ensures found.Some? ==> found.value.id in byId && found.value == byId[found.value.id] && ConnectedTo(found.value, peer)
      ensures found.None? <==> peer == "" || forall id :: id in byId ==> !ConnectedTo(byId[id], peer)
      ensures peer != "" && Picked(State(), peer, prefer).Some? ==> found == Picked(State(), peer, prefer)
      ensures peer != "" && Picked(State(), peer, prefer).None? && Picked(State(), peer, Other(prefer)).Some? ==>
        found == Picked(State(), peer, Other(prefer))
    {
      if peer == "" {
        return None;
      }
      assert SlotOk(State(), peer, prefer) && SlotOk(State(), peer, Other(prefer));
      var p := if peer in byPeer then byPeer[peer] else NOBODY;
      found := Pick(Slot(p, prefer));
      if found.Some? {
        return;
      }
      found := Pick(Slot(p, Other(prefer)));
      if found.Some? {
        return;
      }
      var rest := byId.Keys;
      while rest != {}
        invariant rest <= byId.Keys
        invariant found.Some? ==> found.value.id in byId && found.value == byId[found.value.id] && ConnectedTo(found.value, peer)
        invariant found.None? ==> forall id :: id in byId && id !in rest ==> !ConnectedTo(byId[id], peer)
      {
        var id: uint64 := Least(rest);
        if found.None? && byId[id].connected && byId[id].peer == peer {
          found := Some(byId[id]);
        }
        rest := rest - {id};
      }
    }

    /** The link in a presence slot, if it is connected. */
    method Pick(slot: Option<uint64>) returns (found: Option<Link>)
      ensures found == if slot.Some? && slot.value in byId && byId[slot.value].connected then Some(byId[slot.value]) else None
    {
      if slot.None? || slot.value !in byId || !byId[slot.value].connected {
        return None;
      }
      return Some(byId[slot.value]);
    }

    method Resolve(h: Handle) returns (found: Option<Link>)
      ensures found == FindLive(State(), h)
    {
      if h.id !in byId || byId[h.id].generation != h.generation {
        return None;
      }
      return Some(byId[h.id]);
    }
  }

  function Other(t: Transport): Transport {
    if t.Adp? then Carrier else Adp
  }

  function Picked(t: Table, peer: string, transport: Transport): Option<Link> {
    var slot := Slot(PresenceOf(t, peer), transport);
    if slot.Some? && slot.value in t.links && t.links[slot.value].connected then Some(t.links[slot.value]) else None
  }

  // ------------------------------------------------------------ no index dangles

  /** The slot names a live link of that peer and transport. */
  ghost predicate SlotOk(t: Table, peer: string, transport: Transport) {
    var slot := Slot(PresenceOf(t, peer), transport);
    slot.Some? ==>
      peer != "" && slot.value in t.links && t.links[slot.value].peer == peer && t.links[slot.value].transport == transport
  }

  ghost predicate Inv(t: Table) {
    && (forall id :: id in t.links ==> t.links[id].id == id && 1 <= id <= t.nextId)
    && (forall key :: key in t.byKey ==> t.byKey[key] in t.links && t.links[t.byKey[key]].key == key)
    && (forall peer, transport :: SlotOk(t, peer, transport))
    && (forall peer :: peer in t.byPeer ==> t.byPeer[peer] != NOBODY)
  }

  datatype Op =
    | Insert(link: Link)
    | EraseId(id: uint64)
    | EraseKey(key: string)
    | Bind(id: uint64, key: string)
    | Unbind(key: string)
    | Present(peer: string, transport: Transport, id: uint64)
    | Absent(peer: string, transport: Transport, id: uint64)
    | Identified(id: uint64, peer: string)
    | PhaseChanged(id: uint64, connected: bool)

  function After(t: Table, op: Op): Table {
    match op
    case Insert(link) => Inserted(t, link)
    case EraseId(id) => Erased(t, id)
    case EraseKey(key) => ErasedByKey(t, key)
    case Bind(id, key) => Bound(t, id, key).0
    case Unbind(key) => t.(byKey := t.byKey - {key})
    case Present(peer, transport, id) => PresenceSet(t, peer, transport, id)
    case Absent(peer, transport, id) => PresenceCleared(t, peer, transport, id)
    case Identified(id, peer) => if id in t.links then t.(links := t.links[id := t.links[id].(peer := peer)]) else t
    case PhaseChanged(id, connected) => if id in t.links then t.(links := t.links[id := t.links[id].(connected := connected)]) else t
  }

  /** A presence call the table takes is for a live link of that peer and transport. */
  predicate Truthful(t: Table, peer: string, transport: Transport, id: uint64) {
    peer == "" || id == 0 || (id in t.links && t.links[id].peer == peer && t.links[id].transport == transport)
  }

  /** Ids do not run out, presence is told truly, and a link's peer is learnt once. */
  predicate Proper(t: Table, op: Op) {
    match op
    case Insert(_) => t.nextId < U64 - 1
    case Present(peer, transport, id) => Truthful(t, peer, transport, id)
    case Identified(id, _) => id in t.links ==> t.links[id].peer == ""
    case _ => true
  }

  lemma InsertKeepsInv(t: Table, link: Link)
    requires Inv(t) && t.nextId < U64 - 1
    ensures Inv(Inserted(t, link))
  {
    var u := Inserted(t, link);
    forall peer, transport
      ensures SlotOk(u, peer, transport)
    {
      assert SlotOk(t, peer, transport);
    }
  }

  lemma ClearedKeeps(t: Table, peer: string, transport: Transport, id: uint64)
    requires Inv(t)
    ensures var u := PresenceCleared(t, peer, transport, id);
      && Inv(u) && u.links == t.links && u.byKey == t.byKey && u.nextId == t.nextId
      && Slot(PresenceOf(u, peer), transport) != Some(id)
      && (forall p, tr :: Slot(PresenceOf(u, p), tr).Some? ==> Slot(PresenceOf(u, p), tr) == Slot(PresenceOf(t, p), tr))
  {
    var u := PresenceCleared(t, peer, transport, id);
    forall p, tr
      ensures SlotOk(u, p, tr)
      ensures Slot(PresenceOf(u, p), tr).Some? ==> Slot(PresenceOf(u, p), tr) == Slot(PresenceOf(t, p), tr)
    {
      assert SlotOk(t, p, tr);
    }
  }

  lemma EraseKeepsInv(t: Table, id: uint64)
    requires Inv(t)
    ensures Inv(Erased(t, id)) && id !in Erased(t, id).links && Erased(t, id).nextId == t.nextId
    ensures forall other :: other in t.links && other != id ==> other in Erased(t, id).links
  {
    if id in t.links {
      var link := t.links[id];
      var unkeyed := if link.key in t.byKey && t.byKey[link.key] == id then t.(byKey := t.byKey - {link.key}) else t;
      forall p, tr
        ensures SlotOk(unkeyed, p, tr)
      {
        assert SlotOk(t, p, tr);
      }
      ClearedKeeps(unkeyed, link.peer, link.transport, id);
      var gone := if link.peer == "" then unkeyed else PresenceCleared(unkeyed, link.peer, link.transport, id);
      var u := Erased(t, id);
      forall p, tr
        ensures SlotOk(u, p, tr)
      {
        assert SlotOk(gone, p, tr) && SlotOk(unkeyed, p, tr);
        assert Slot(PresenceOf(u, p), tr) == Slot(PresenceOf(gone, p), tr);
      }
    }
  }

  lemma BindKeepsInv(t: Table, id: uint64, key: string)
    requires Inv(t)
    ensures Inv(Bound(t, id, key).0)
    ensures Bound(t, id, key).1 <==> id in t.links && (t.links[id].key == key || key !in t.byKey || t.byKey[key] == id)
    ensures Bound(t, id, key).1 ==> var u := Bound(t, id, key).0; u.byKey[key] == id && u.links[id].key == key
  {
    var u := Bound(t, id, key).0;
    forall p, tr
      ensures SlotOk(u, p, tr)
    {
      assert SlotOk(t, p, tr);
    }
  }

  /** SetPresence keeps the indexes sound exactly when it is told the truth. */
  lemma PresenceSoundExactlyWhen(t: Table, peer: string, transport: Transport, id: uint64)
    requires Inv(t)
    ensures Inv(PresenceSet(t, peer, transport, id)) <==> Truthful(t, peer, transport, id)
  {
    var u := PresenceSet(t, peer, transport, id);
    if Truthful(t, peer, transport, id) {
      forall p, tr
        ensures SlotOk(u, p, tr)
      {
        assert SlotOk(t, p, tr);
      }
    } else {
      assert !SlotOk(u, peer, transport);
    }
  }

  lemma LinkChangeKeepsInv(t: Table, id: uint64, link: Link)
    requires Inv(t) && id in t.links && link.id == id && link.key == t.links[id].key && link.transport == t.links[id].transport
    requires link.peer == t.links[id].peer || t.links[id].peer == ""
    ensures Inv(t.(links := t.links[id := link]))
  {
    var u := t.(links := t.links[id := link]);
    forall p, tr
      ensures SlotOk(u, p, tr)
    {
      assert SlotOk(t, p, tr);
    }
  }

  lemma OpKeepsInv(t: Table, op: Op)
    requires Inv(t) && Proper(t, op)
    ensures Inv(After(t, op)) && t.nextId <= After(t, op).nextId
    ensures forall id :: id in After(t, op).links && id !in t.links ==> id > t.nextId
  {
    match op {
      case Insert(link) => InsertKeepsInv(t, link);
      case EraseId(id) => EraseKeepsInv(t, id);
      case EraseKey(key) => if key in t.byKey { EraseKeepsInv(t, t.byKey[key]); }
      case Bind(id, key) => BindKeepsInv(t, id, key);
      case Unbind(key) =>
        forall p, tr
          ensures SlotOk(After(t, op), p, tr)
        {
          assert SlotOk(t, p, tr);
        }
      case Present(peer, transport, id) => PresenceSoundExactlyWhen(t, peer, transport, id);
      case Absent(peer, transport, id) => ClearedKeeps(t, peer, transport, id);
      case Identified(id, peer) => if id in t.links { LinkChangeKeepsInv(t, id, t.links[id].(peer := peer)); }
      case PhaseChanged(id, connected) => if id in t.links { LinkChangeKeepsInv(t, id, t.links[id].(connected := connected)); }
    }
  }

  // ------------------------------------------------------------ over any operations

  const EMPTY := Table(map[], map[], map[], 0, 0)

  function Ran(t: Table, ops: seq<Op>): Table {
    if ops == [] then t else After(Ran(t, ops[..|ops| - 1]), ops[|ops| - 1])
  }

  predicate AllProper(t: Table, ops: seq<Op>) {
    ops == [] || (AllProper(t, ops[..|ops| - 1]) && Proper(Ran(t, ops[..|ops| - 1]), ops[|ops| - 1]))
  }

  /** Over any proper operations no index dangles, and an id that is gone does not come back. */
  lemma {:induction false} NothingDangles(t: Table, ops: seq<Op>)
    requires Inv(t) && AllProper(t, ops)
    ensures Inv(Ran(t, ops)) && t.nextId <= Ran(t, ops).nextId
    ensures forall id :: id in Ran(t, ops).links && id !in t.links ==> id > t.nextId
  {
    if ops != [] {
      NothingDangles(t, ops[..|ops| - 1]);
      OpKeepsInv(Ran(t, ops[..|ops| - 1]), ops[|ops| - 1]);
    }
  }

  /** A handle whose link was erased never resolves again, whatever is inserted later. */
  lemma ErasedHandleStaysDead(before: seq<Op>, after: seq<Op>, h: Handle)
    requires AllProper(EMPTY, before) && FindLive(Ran(EMPTY, before), h).Some?
    requires AllProper(Erased(Ran(EMPTY, before), h.id), after)
    ensures FindLive(Ran(Erased(Ran(EMPTY, before), h.id), after), h) == None
  {
    EmptyInv();
    NothingDangles(EMPTY, before);
    EraseKeepsInv(Ran(EMPTY, before), h.id);
    NothingDangles(Erased(Ran(EMPTY, before), h.id), after);
  }

  lemma EmptyInv()
    ensures Inv(EMPTY)
  {
  }

  /** Told wrongly, the peer index outlives its link: link 1 of nobody, presence for "b", then the link goes. */
  lemma UntruthDangles()
    ensures var ops := [Insert(Link(0, 0, "k", "", Adp, true)), Present("b", Adp, 1), EraseId(1)];
      var t := Ran(EMPTY, ops);
      Slot(PresenceOf(t, "b"), Adp) == Some(1) && 1 !in t.links
  {
    var ops := [Insert(Link(0, 0, "k", "", Adp, true)), Present("b", Adp, 1), EraseId(1)];
    assert ops[..2][..1] == ops[..1] == [ops[0]] && ops[..1][..0] == [];
    assert Ran(EMPTY, ops[..1]) == After(EMPTY, ops[..1][0]);
    var t1 := Ran(EMPTY, ops[..1]);
    assert t1 == Inserted(EMPTY, ops[0].link);
    var t2 := Ran(EMPTY, ops[..2]);
    assert t2 == PresenceSet(t1, "b", Adp, 1);
    assert Ran(EMPTY, ops) == Erased(t2, 1);
  }
}
