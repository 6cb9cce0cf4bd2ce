/**
 Handshake messages in pieces: EncodeMshChunked and DecodeMshChunk
 (src/link/AmpAdpCarrier.cpp:28-64, 100-109), and the one-message reassembly of
 PeerLink::PushMshChunk (src/link/PeerLink.cpp:394-438).
 */
module MshChunks {
  import opened Words
  import opened Chunks
  import R = Reassembly
  import Laws = ReassemblyLaws

  const MSH: uint8 := 0
  const MSH_CHUNK: uint8 := 2
  const MAX_BODY_PER_DATAGRAM: nat := 900
  const MAX_MESSAGE_BYTES: nat := 12288
  const MAX_CHUNK_COUNT: nat := 14

  /** One chunk, read off the wire. */
  datatype Chunk = Chunk(kind: uint8, index: uint16, count: uint16, bytes: Bytes)

  datatype Assembly = Assembly(kind: uint8, count: uint16, parts: seq<Bytes>, bytes: nat)
  datatype Outcome = Bad | NotYet | Message(wire: Bytes)

  // ------------------------------------------------------------ the wire form

  function EncodeMsh(kind: uint8, body: Bytes): Bytes {
    [MSH, kind] + body
  }

  function ChunkWire(kind: uint8, index: uint16, count: uint16, bytes: Bytes): Bytes {
    [MSH_CHUNK, kind] + LeOf16(index) + LeOf16(count) + bytes
  }

  function DecodeMshChunk(w: Bytes): Option<Chunk> {
    if |w| < 6 || w[0] != MSH_CHUNK then None
    else Some(Chunk(w[1], Of16Le(w[2..4]), Of16Le(w[4..6]), w[6..]))
  }

  /** The count goes into 16 bits as it is: a body past 65535 chunks would lose its end here. */
  function CountOf(body: Bytes): uint16 {
    Needed(|body|, MAX_BODY_PER_DATAGRAM) % 0x1_0000
  }

  function Chunked(kind: uint8, body: Bytes): seq<Bytes> {
    if |body| <= MAX_BODY_PER_DATAGRAM then [EncodeMsh(kind, body)]
    else
      var count := CountOf(body);
      seq(count, i requires 0 <= i < count => ChunkWire(kind, i, count, ChunkAt(body, MAX_BODY_PER_DATAGRAM, i)))
  }

  method EncodeMshChunked(kind: uint8, body: Bytes) returns (out: seq<Bytes>)
    ensures out == Chunked(kind, body)
  {
    if |body| <= MAX_BODY_PER_DATAGRAM {
      return [EncodeMsh(kind, body)];
    }
    var count: uint16 := (|body| + MAX_BODY_PER_DATAGRAM - 1) / MAX_BODY_PER_DATAGRAM % 0x1_0000;
    out := [];
    NeededBounds(|body|, MAX_BODY_PER_DATAGRAM);
    for i: int := 0 to count
      invariant |out| == i
      invariant forall k :: 0 <= k < i ==>
        out[k] == ChunkWire(kind, k, count, ChunkAt(body, MAX_BODY_PER_DATAGRAM, k))
    {
      var offset := i * MAX_BODY_PER_DATAGRAM;
      ChunkSizes(body, MAX_BODY_PER_DATAGRAM, i);
      var length := Min(MAX_BODY_PER_DATAGRAM, |body| - offset);
      var wire := [MSH_CHUNK, kind];
      wire := wire + LeOf16(i);
      wire := wire + LeOf16(count);
      wire := wire + body[offset..offset + length];
      out := out + [wire];
    }
  }

  lemma ChunkRoundTrip(kind: uint8, index: uint16, count: uint16, bytes: Bytes)
    ensures DecodeMshChunk(ChunkWire(kind, index, count, bytes)) == Some(Chunk(kind, index, count, bytes))
  {
    var w := ChunkWire(kind, index, count, bytes);
    assert w[2..4] == LeOf16(index) + [] && w[4..6] == LeOf16(count) + [] && w[6..] == bytes;
    RoundTrip16(index, []);
    RoundTrip16(count, []);
  }

  // ------------------------------------------------------------ putting one together

  const IDLE := Assembly(0, 0, [], 0)

  predicate Valid(s: Assembly) {
    |s.parts| == s.count && s.bytes == JoinedLength(s.parts) <= MAX_MESSAGE_BYTES
  }

  /** PushMshChunk from the point where an assembly is under way. */
  function Placed(s: Assembly, c: Chunk): (Assembly, Outcome)
    requires |s.parts| == s.count && c.index < c.count
  {
    if c.kind != s.kind || c.count != s.count then (s, Bad)
    else if s.parts[c.index] == [] && s.bytes + |c.bytes| > MAX_MESSAGE_BYTES then (s, Bad)
    else
      var t := if s.parts[c.index] != [] then s
               else s.(parts := s.parts[c.index := c.bytes], bytes := s.bytes + |c.bytes|);
      if R.Complete(t.parts) then (t.(count := 0, parts := [], bytes := 0), Message(EncodeMsh(t.kind, Join(t.parts))))
      else (t, NotYet)
  }

  function Begun(s: Assembly, c: Chunk): Assembly {
    if s.count == 0 then Assembly(c.kind, c.count, seq(c.count, _ => []), 0) else s
  }

  function AfterChunk(s: Assembly, c: Chunk): (Assembly, Outcome)
    requires |s.parts| == s.count
  {
    if c.count == 0 || c.index >= c.count || c.count > MAX_CHUNK_COUNT then (s, Bad) else Placed(Begun(s, c), c)
  }

  class MshAssembly {
    var chunkType: uint8
    var chunkCount: uint16
    var chunkParts: seq<Bytes>
    var chunkBytes: nat

    ghost function State(): Assembly
      reads this
    {
      Assembly(chunkType, chunkCount, chunkParts, chunkBytes)
    }

    constructor ()
      ensures State() == IDLE
    {
      chunkType, chunkCount, chunkParts, chunkBytes := 0, 0, [], 0;
    }

    static method Joined(parts: seq<Bytes>) returns (body: Bytes)
      ensures body == Join(parts)
    {
      body := [];
      for i := 0 to |parts|
        invariant body == Join(parts[..i])
      {
        assert parts[..i + 1][..i] == parts[..i];
        body := body + parts[i];
      }
      assert parts[..|parts|] == parts;
    }

    method PushMshChunk(c: Chunk) returns (out: Outcome)
      requires |chunkParts| == chunkCount
      modifies this
      ensures |chunkParts| == chunkCount
      ensures (State(), out) == AfterChunk(old(State()), c)
    {
      if c.count == 0 || c.index >= c.count {
        return Bad;
      }
      if c.count > MAX_CHUNK_COUNT {
        return Bad;
      }
      if chunkCount == 0 {
        chunkType, chunkCount, chunkParts, chunkBytes := c.kind, c.count, seq(c.count, _ => []), 0;
      }
      if c.kind != chunkType || c.count != chunkCount {
        return Bad;
      }
      if chunkParts[c.index] == [] {
        if chunkBytes + |c.bytes| > MAX_MESSAGE_BYTES {
          return Bad;
        }
        chunkBytes := chunkBytes + |c.bytes|;
        chunkParts := chunkParts[c.index := c.bytes];
      }
      for i := 0 to |chunkParts|
        invariant forall j :: 0 <= j < i ==> chunkParts[j] != []
      {
        if chunkParts[i] == [] {
          return NotYet;
        }
      }
      var body := Joined(chunkParts);
      chunkCount, chunkParts, chunkBytes := 0, [], 0;
      out := Message(EncodeMsh(chunkType, body));
    }
  }

  // ------------------------------------------------------------ what comes out is what went in

  /** The chunk a body's i-th wire decodes to. */
  function ChunkOf(kind: uint8, body: Bytes, i: nat): Chunk
    requires i < CountOf(body)
  {
    Chunk(kind, i, CountOf(body), ChunkAt(body, MAX_BODY_PER_DATAGRAM, i))
  }

  lemma ChunkedDecodes(kind: uint8, body: Bytes, i: nat)
    requires |body| > MAX_BODY_PER_DATAGRAM && i < CountOf(body)
    ensures DecodeMshChunk(Chunked(kind, body)[i]) == Some(ChunkOf(kind, body, i))
  {
    ChunkRoundTrip(kind, i, CountOf(body), ChunkAt(body, MAX_BODY_PER_DATAGRAM, i));
  }

  function PiecesOf(body: Bytes): seq<Bytes> {
    Split(body, MAX_BODY_PER_DATAGRAM)
  }

  /** The assembly holds exactly the chunks numbered in `have`; idle when there are none. */
  ghost predicate Assembles(s: Assembly, kind: uint8, body: Bytes, have: set<nat>) {
    || (s.count == 0 && s.parts == [] && have == {})
    || (s.kind == kind && |body| < U32
        && Laws.Holds(AsPartial(s, |body|), PiecesOf(body), have)
        && have != Laws.All(|PiecesOf(body)|))
  }

  lemma CountFits(body: Bytes)
    requires 0 < |body| <= MAX_MESSAGE_BYTES
    ensures CountOf(body) == |PiecesOf(body)| == Needed(|body|, MAX_BODY_PER_DATAGRAM) <= MAX_CHUNK_COUNT
    ensures Join(PiecesOf(body)) == body && R.Complete(PiecesOf(body)) && 1 <= CountOf(body)
  {
    NeededBounds(|body|, MAX_BODY_PER_DATAGRAM);
    JoinSplit(body, MAX_BODY_PER_DATAGRAM);
    forall i | 0 <= i < |PiecesOf(body)|
      ensures PiecesOf(body)[i] != []
    {
      ChunkSizes(body, MAX_BODY_PER_DATAGRAM, i);
    }
  }

  lemma BegunAssembles(s: Assembly, kind: uint8, body: Bytes, have: set<nat>, i: nat)
    requires 0 < |body| <= MAX_MESSAGE_BYTES && i < CountOf(body) && Assembles(s, kind, body, have)
    ensures var b := Begun(s, ChunkOf(kind, body, i));
      && b.kind == kind
      && Laws.Holds(AsPartial(b, |body|), PiecesOf(body), have)
  {
    CountFits(body);
    var b := Begun(s, ChunkOf(kind, body, i));
    if s.count == 0 {
      if s.parts == [] && have == {} { LengthOfNone(b.parts); }
    }
    hide Join, JoinedLength, Split;
  }

  /** The assembly as a partial of a message of `total` bytes. */
  function AsPartial(s: Assembly, total: uint32): R.Partial {
    R.Partial(s.count, total, s.parts, s.bytes, 0)
  }

  lemma PlacedAgain(s: Assembly, total: uint32, pieces: seq<Bytes>, have: set<nat>, c: Chunk)
    requires Laws.Holds(AsPartial(s, total), pieces, have) && have != Laws.All(|pieces|) && R.Complete(pieces)
    requires c.kind == s.kind && c.count == |pieces| && c.index in have
    ensures Placed(s, c) == (s, NotYet)
  {
    MissingOne(AsPartial(s, total), pieces, have);
    hide Join, JoinedLength;
    assert c.index in Laws.All(|pieces|);
  }

  lemma PlacedAnew(s: Assembly, total: uint32, pieces: seq<Bytes>, have: set<nat>, c: Chunk)
    requires Laws.Holds(AsPartial(s, total), pieces, have) && R.Complete(pieces) && |Join(pieces)| <= MAX_MESSAGE_BYTES
    requires c.kind == s.kind && c.index < c.count == |pieces| && c.bytes == pieces[c.index] && c.index !in have
    ensures var (t, out) := Placed(s, c);
      if have + {c.index} == Laws.All(|pieces|) then
        out == Message(EncodeMsh(s.kind, Join(pieces))) && t.count == 0 && t.parts == []
      else out == NotYet && t.kind == s.kind && Laws.Holds(AsPartial(t, total), pieces, have + {c.index})
  {
    Laws.FillFits(AsPartial(s, total), pieces, have, c.index);
    Laws.FillCompletes(AsPartial(s, total), pieces, have, c.index);
    hide Join, JoinedLength, R.Complete;
    assert c.index in Laws.All(|pieces|);
  }

  lemma PlacedMeans(s: Assembly, kind: uint8, body: Bytes, have: set<nat>, i: nat)
    requires 0 < |body| <= MAX_MESSAGE_BYTES && i < CountOf(body)
    requires s.kind == kind && Laws.Holds(AsPartial(s, |body|), PiecesOf(body), have)
    requires have != Laws.All(|PiecesOf(body)|)
    ensures var (t, out) := Placed(s, ChunkOf(kind, body, i));
      if have + {i} == Laws.All(CountOf(body)) then out == Message(EncodeMsh(kind, body)) && t.count == 0 && t.parts == []
      else out == NotYet && Assembles(t, kind, body, have + {i})
  {
    CountFits(body);
    assert PiecesOf(body)[i] == ChunkAt(body, MAX_BODY_PER_DATAGRAM, i);
    hide Join, Placed, Laws.Holds, PiecesOf, R.Complete, Laws.All, CountOf, ChunkAt, Needed, EncodeMsh;
    if i in have {
      assert have + {i} == have;
      PlacedAgain(s, |body|, PiecesOf(body), have, ChunkOf(kind, body, i));
    } else {
      PlacedAnew(s, |body|, PiecesOf(body), have, ChunkOf(kind, body, i));
    }
  }

  lemma MissingOne(partial: R.Partial, chunks: seq<Bytes>, have: set<nat>)
    requires Laws.Holds(partial, chunks, have) && have != Laws.All(|chunks|)
    ensures !R.Complete(partial.chunks)
  {
    var k :| k in Laws.All(|chunks|) && k !in have;
    assert partial.chunks[k] == [];
  }

  /** The indexes that have come. */
  function Come(arrivals: seq<nat>): set<nat> {
    if arrivals == [] then {} else Come(arrivals[..|arrivals| - 1]) + {arrivals[|arrivals| - 1]}
  }

  /** The assembly and the last answer after the chunks of `body` arrived in this order. */
  function Arrived(kind: uint8, body: Bytes, arrivals: seq<nat>): (r: (Assembly, Outcome))
    requires forall k :: 0 <= k < |arrivals| ==> arrivals[k] < CountOf(body)
    ensures |r.0.parts| == r.0.count
  {
    if arrivals == [] then (IDLE, NotYet)
    else
      var n := |arrivals| - 1;
      AfterChunk(Arrived(kind, body, arrivals[..n]).0, ChunkOf(kind, body, arrivals[n]))
  }

  /**
   The chunks of any message up to 12288 bytes, in any order and repeated: nothing
   until every one has come, then the whole message.
   */
  lemma {:induction false} MessageOnTheLastMissingChunk(kind: uint8, body: Bytes, arrivals: seq<nat>)
    requires 0 < |body| <= MAX_MESSAGE_BYTES
    requires forall k :: 0 <= k < |arrivals| ==> arrivals[k] < CountOf(body)
    requires arrivals == [] || Come(arrivals[..|arrivals| - 1]) != Laws.All(CountOf(body))
    ensures var (s, out) := Arrived(kind, body, arrivals);
      if Come(arrivals) == Laws.All(CountOf(body)) then out == Message(EncodeMsh(kind, body)) && s.count == 0
      else out == NotYet && Assembles(s, kind, body, Come(arrivals))
  {
    CountFits(body);
    if arrivals == [] {
      assert 0 in Laws.All(CountOf(body));
    } else {
      var n := |arrivals| - 1;
      if n > 0 { ComeGrows(arrivals[..n], body); }
      MessageOnTheLastMissingChunk(kind, body, arrivals[..n]);
      var before, i := Arrived(kind, body, arrivals[..n]).0, arrivals[n];
      BegunAssembles(before, kind, body, Come(arrivals[..n]), i);
      PlacedMeans(Begun(before, ChunkOf(kind, body, i)), kind, body, Come(arrivals[..n]), i);
    }
  }

  lemma ComeGrows(arrivals: seq<nat>, body: Bytes)
    requires arrivals != [] && Come(arrivals) != Laws.All(CountOf(body))
    requires forall k :: 0 <= k < |arrivals| ==> arrivals[k] < CountOf(body)
    ensures Come(arrivals[..|arrivals| - 1]) != Laws.All(CountOf(body))
  {
    var all, last := Laws.All(CountOf(body)), arrivals[|arrivals| - 1];
    assert all + {last} == all;
  }

  /** And only those: no chunk, in any state, ever yields the message of a body past 12288 bytes. */
  lemma LongerNeverComes(s: Assembly, c: Chunk, kind: uint8, body: Bytes)
    requires Valid(s) && |body| > MAX_MESSAGE_BYTES
    ensures Valid(AfterChunk(s, c).0)
    ensures AfterChunk(s, c).1 != Message(EncodeMsh(kind, body))
  {
    if c.count != 0 && c.index < c.count <= MAX_CHUNK_COUNT {
      var b := Begun(s, c);
      if s.count == 0 { LengthOfNone(b.parts); }
      LengthAfterUpdate(b.parts, if c.count == b.count then c.index else 0, c.bytes);
      var t := if c.kind == b.kind && c.count == b.count && b.parts[c.index] == [] then b.parts[c.index := c.bytes] else b.parts;
      LengthOfJoin(t);
      assert |EncodeMsh(b.kind, Join(t))| == 2 + |Join(t)|;
    }
  }

  // ------------------------------------------------------------ how it is cut, and what is refused

  /** A body up to 900 bytes goes whole; a longer one in chunks of 900, the last with what is left, each with its place and their number. */
  lemma CutIn900s(kind: uint8, body: Bytes, i: nat)
    requires |body| <= 65535 * 900 && i < |Chunked(kind, body)|
    ensures var all, count := Chunked(kind, body), (|body| + 899) / 900;
      if |body| <= 900 then all == [[0, kind] + body]
      else
        && |all| == count && 900 * i < |body|
        && all[i] == [2, kind] + LeOf16(i) + LeOf16(count) + (if |body| - 900 * i <= 900 then body[900 * i..] else body[900 * i..][..900])
  {
    if |body| > 900 {
      assert Needed(|body|, 900) == (|body| + 899) / 900 <= 65535;
      ChunkSizes(body, 900, i);
      assert i * 900 == 900 * i;
    }
  }

  /** A chunk is refused when its numbers make no sense, when it is of another message than the one under way, or when the message would be past 12288 bytes; it takes no place then. */
  lemma ChunkRefusedWhen(s: Assembly, c: Chunk)
    requires Valid(s)
    ensures var (t, out) := AfterChunk(s, c);
      var senseless := c.count == 0 || c.index >= c.count || c.count > 14;
      var other := s.count != 0 && (c.kind != s.kind || c.count != s.count);
      var place := if s.count == 0 || senseless || other then [] else s.parts[c.index];
      var tooLong := place == [] && (if s.count == 0 then 0 else s.bytes) + |c.bytes| > 12288;
      && (out == Bad <==> senseless || other || tooLong)
      && (out == Bad ==> t == s || (s.count == 0 && t == Assembly(c.kind, c.count, seq(c.count, _ => []), 0)))
      && (out == NotYet && place == [] ==> t.parts[c.index] == c.bytes)
      && (out == NotYet && place != [] ==> t == s)
      && (out.Message? ==> t.count == 0 && t.parts == [])
  {
    hide JoinedLength, Join;
  }
}
