/**
 The carrier lane's two wire forms (src/link/AmpAdpCarrier.cpp):
 lane data `[3][seq u32][inner]` and lane ack `[4][cumulative u32][selective u64]`.
 */
module LaneCodec {
  import opened Words

  const LANE_DATA: uint8 := 3
  const LANE_ACK: uint8 := 4

  datatype LaneAck = LaneAck(cumulative: uint32, selective: uint64)
  datatype LaneData = LaneData(seqNo: uint32, inner: Bytes)

  function EncodeLaneData(seqNo: uint32, inner: Bytes): Bytes {
    [LANE_DATA] + LeOf32(seqNo) + inner
  }

  /** A frame numbered 0, or one with nothing inside, is refused. */
  function DecodeLaneData(wire: Bytes): Option<LaneData> {
    if |wire| == 0 || wire[0] != LANE_DATA then None
    else if |wire| < 5 then None
    else
      var seqNo := Of32Le(wire[1..]);
      if seqNo == 0 || |wire| <= 5 then None else Some(LaneData(seqNo, wire[5..]))
  }

  function EncodeLaneAck(ack: LaneAck): Bytes {
    [LANE_ACK] + LeOf32(ack.cumulative) + LeOf32(ack.selective % U32) + LeOf32(ack.selective / U32)
  }

  /** Bytes past the thirteenth are ignored, as in the source. */
  function DecodeLaneAck(wire: Bytes): Option<LaneAck> {
    if |wire| == 0 || wire[0] != LANE_ACK then None
    else if |wire| < 13 then None
    else Some(LaneAck(Of32Le(wire[1..5]), (Of32Le(wire[5..9]) as int) + U32 * Of32Le(wire[9..])))
  }

  // ------------------------------------------------------------ the code: bytes pushed, an offset moved

  method AppendU32(out: Bytes, v: uint32) returns (longer: Bytes)
    ensures longer == out + LeOf32(v)
  {
    longer := out + [v % 0x100];
    longer := longer + [v / 0x100 % 0x100];
    longer := longer + [v / 0x1_0000 % 0x100];
    longer := longer + [v / 0x100_0000];
  }

  method ReadU32(wire: Bytes, offset: nat) returns (v: Option<uint32>, after: nat)
    ensures if offset + 4 > |wire| then v == None else v == Some(Of32Le(wire[offset..])) && after == offset + 4
  {
    if offset + 4 > |wire| {
      return None, offset;
    }
    var sum: int := wire[offset];
    sum := sum + 0x100 * (wire[offset + 1] as int);
    sum := sum + 0x1_0000 * (wire[offset + 2] as int);
    sum := sum + 0x100_0000 * (wire[offset + 3] as int);
    return Some(sum), offset + 4;
  }

  method WriteLaneData(seqNo: uint32, inner: Bytes) returns (wire: Bytes)
    ensures wire == EncodeLaneData(seqNo, inner)
  {
    wire := AppendU32([LANE_DATA], seqNo);
    wire := wire + inner;
  }

  method ReadLaneData(wire: Bytes) returns (data: Option<LaneData>)
    ensures data == DecodeLaneData(wire)
  {
    if wire == [] || wire[0] != LANE_DATA {
      return None;
    }
    hide Of32Le;
    var seqNo, offset := ReadU32(wire, 1);
    if seqNo.None? || seqNo.value == 0 || offset == |wire| {
      return None;
    }
    data := Some(LaneData(seqNo.value, wire[offset..]));
  }

  method WriteLaneAck(ack: LaneAck) returns (wire: Bytes)
    ensures wire == EncodeLaneAck(ack)
  {
    hide LeOf32;
    wire := AppendU32([LANE_ACK], ack.cumulative);
    wire := AppendU32(wire, ack.selective % U32);
    wire := AppendU32(wire, ack.selective / U32);
  }

  method ReadLaneAck(wire: Bytes) returns (ack: Option<LaneAck>)
    ensures ack == DecodeLaneAck(wire)
  {
    if wire == [] || wire[0] != LANE_ACK {
      return None;
    }
    var cumulative, afterCumulative := ReadU32(wire, 1);
    if cumulative.None? {
      return None;
    }
    var low, afterLow := ReadU32(wire, afterCumulative);
    if low.None? {
      return None;
    }
    var high, offset := ReadU32(wire, afterLow);
    if high.None? {
      return None;
    }
    FirstFour(wire[1..]);
    FirstFour(wire[5..]);
    assert wire[1..][..4] == wire[1..5] && wire[5..][..4] == wire[5..9];
    ack := Some(LaneAck(cumulative.value, low.value + U32 * high.value));
  }

  lemma FirstFour(b: Bytes)
    requires |b| >= 4
    ensures Of32Le(b) == Of32Le(b[..4])
  {
  }

  // ------------------------------------------------------------ each undoes the other

  /** A lane frame comes back as it went in exactly when it is numbered and not empty. */
  lemma LaneDataRoundTrip(seqNo: uint32, inner: Bytes)
    ensures DecodeLaneData(EncodeLaneData(seqNo, inner)) ==
            if seqNo == 0 || inner == [] then None else Some(LaneData(seqNo, inner))
    ensures DecodeLaneAck(EncodeLaneData(seqNo, inner)) == None
  {
    var wire := EncodeLaneData(seqNo, inner);
    assert wire[1..] == LeOf32(seqNo) + inner;
    assert wire[5..] == inner;
    RoundTrip32(seqNo, inner);
  }

  lemma LaneAckRoundTrip(ack: LaneAck)
    ensures DecodeLaneAck(EncodeLaneAck(ack)) == Some(ack)
    ensures DecodeLaneData(EncodeLaneAck(ack)) == None
  {
    var wire := EncodeLaneAck(ack);
    assert wire[1..5] == LeOf32(ack.cumulative) + [];
    assert wire[5..9] == LeOf32(ack.selective % U32) + [];
    assert wire[9..] == LeOf32(ack.selective / U32) + [];
    RoundTrip32(ack.cumulative, []);
    RoundTrip32(ack.selective % U32, []);
    RoundTrip32(ack.selective / U32, []);
  }

  /** Two different numbers never make the same wire, whatever they carry. */
  lemma LaneDataInjective(seqA: uint32, a: Bytes, seqB: uint32, b: Bytes)
    requires EncodeLaneData(seqA, a) == EncodeLaneData(seqB, b)
    ensures seqA == seqB && a == b
  {
    var x, y := EncodeLaneData(seqA, a), EncodeLaneData(seqB, b);
    assert x[1..] == LeOf32(seqA) + a && y[1..] == LeOf32(seqB) + b;
    RoundTrip32(seqA, a);
    RoundTrip32(seqB, b);
    assert a == x[5..] && b == y[5..];
  }
}
