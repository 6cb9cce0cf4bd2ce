/**
 ChannelWire (src/L3/ChannelWire.cpp): the bytes of a channel frame.

 A frame is one of six kinds; the fields a kind does not carry are not part of
 its value. `Encoded` / `Decoded` say what the wire form is, the methods build and
 read it as the source does, pushing bytes and moving a cursor.
 */
module ChannelWire {
  import opened Words

  const HEADER_BYTES: nat := 9
  const FRAG_FIELDS_BYTES: nat := 16

  datatype Frame =
    | Open(channel: uint32, seqNo: uint32, protocol: Bytes, cls: uint8, flags: uint16, maxBytes: uint32)
    | OpenAck(channel: uint32, seqNo: uint32, result: uint8)
    | Data(channel: uint32, seqNo: uint32, payload: Bytes)
    | Close(channel: uint32, seqNo: uint32, reason: Bytes)
    | Reset(channel: uint32, seqNo: uint32, code: uint32)
    | Frag(channel: uint32, seqNo: uint32, piece: Piece)

  /** A fragment's own fields. */
  datatype Piece = Piece(msgId: uint64, index: uint16, count: uint16, totalLen: uint32, chunk: Bytes)

  function TypeOf(f: Frame): uint8 {
    match f
    case Open(_, _, _, _, _, _) => 0
    case OpenAck(_, _, _) => 1
    case Data(_, _, _) => 2
    case Close(_, _, _) => 3
    case Reset(_, _, _) => 4
    case Frag(_, _, _) => 5
  }

  // ------------------------------------------------------------ the wire form

  function LenUtf8(text: Bytes): Bytes {
    LeOf32(|text| % U32) + text
  }

  function Fields(p: Piece): Bytes {
    LeOf64(p.msgId) + LeOf16(p.index) + LeOf16(p.count) + LeOf32(p.totalLen) + p.chunk
  }

  function Body(f: Frame): Bytes {
    match f
    case Open(_, _, protocol, cls, flags, maxBytes) => LenUtf8(protocol) + [cls] + LeOf16(flags) + LeOf32(maxBytes)
    case OpenAck(_, _, result) => [result]
    case Data(_, _, payload) => payload
    case Close(_, _, reason) => if reason == [] then [] else LenUtf8(reason)
    case Reset(_, _, code) => LeOf32(code)
    case Frag(_, _, piece) => Fields(piece)
  }

  function Header(f: Frame): Bytes {
    [TypeOf(f)] + LeOf32(f.channel) + LeOf32(f.seqNo)
  }

  /** A length-prefixed string counts its bytes in 32 bits. */
  predicate Encodable(f: Frame) {
    (f.Open? ==> |f.protocol| < U32) && (f.Close? ==> |f.reason| < U32)
  }

  function Encoded(f: Frame): Option<Bytes> {
    if Encodable(f) then Some(Header(f) + Body(f)) else None
  }

  /** A length-prefixed string at the front, and what follows it. */
  function TextOf(w: Bytes): Option<(Bytes, Bytes)> {
    if |w| < 4 then None
    else
      var n := Of32Le(w);
      if |w| - 4 < n then None else Some((w[4..4 + n], w[4 + n..]))
  }

  function OpenOf(channel: uint32, seqNo: uint32, w: Bytes): Option<Frame> {
    match TextOf(w)
    case None => None
    case Some((protocol, rest)) =>
      if |rest| == 3 then Some(Open(channel, seqNo, protocol, rest[0], Of16Le(rest[1..]), 0))
      else if |rest| == 7 then Some(Open(channel, seqNo, protocol, rest[0], Of16Le(rest[1..]), Of32Le(rest[3..])))
      else None
  }

  function CloseOf(channel: uint32, seqNo: uint32, w: Bytes): Option<Frame> {
    if w == [] then Some(Close(channel, seqNo, []))
    else
      match TextOf(w)
      case None => None
      case Some((reason, rest)) => if rest == [] then Some(Close(channel, seqNo, reason)) else None
  }

  function PieceOf(w: Bytes): Option<Piece> {
    if |w| < FRAG_FIELDS_BYTES then None
    else Some(Piece(Of64Le(w), Of16Le(w[8..]), Of16Le(w[10..]), Of32Le(w[12..]), w[16..]))
  }

  /** What follows the header, read as `kind` says. */
  function DecodedBody(kind: uint8, channel: uint32, seqNo: uint32, body: Bytes): Option<Frame> {
    match kind
    case 0 => OpenOf(channel, seqNo, body)
    case 1 => if |body| == 1 then Some(OpenAck(channel, seqNo, body[0])) else None
    case 2 => Some(Data(channel, seqNo, body))
    case 3 => CloseOf(channel, seqNo, body)
    case 4 => if |body| == 4 then Some(Reset(channel, seqNo, Of32Le(body))) else None
    case 5 =>
      (match PieceOf(body)
       case None => None
       case Some(piece) => Some(Frag(channel, seqNo, piece)))
    case _ => None
  }

  function Decoded(w: Bytes): Option<Frame> {
    if |w| < HEADER_BYTES then None
    else DecodedBody(w[0], Of32Le(w[1..]), Of32Le(w[5..]), w[9..])
  }

  // ------------------------------------------------------------ the code

  method AppendU64(out: Bytes, v: uint64) returns (longer: Bytes)
    ensures longer == out + LeOf64(v)
  {
    var rest: uint64 := v;
    longer := out;
    for i := 0 to 8
      invariant longer == out + LeOf64(v)[..i] && rest == ShiftedRight(v, i)
    {
      ByteOf64(v, i);
      longer := longer + [rest % 0x100];
      rest := rest / 0x100;
    }
    assert LeOf64(v)[..8] == LeOf64(v);
  }

  function ShiftedRight(v: uint64, bytes: nat): uint64 {
    if bytes == 0 then v else ShiftedRight(v, bytes - 1) / 0x100
  }

  lemma ShiftSum(x: nat, m: nat)
    ensures (x + 0x100 * m) / 0x100 == x / 0x100 + m && (x + 0x100 * m) % 0x100 == x % 0x100
  {
  }

  lemma LowShifts(low: uint32, high: uint32)
    ensures ShiftedRight(low + U32 * high, 0) % 0x100 == low % 0x100
    ensures ShiftedRight(low + U32 * high, 1) % 0x100 == low / 0x100 % 0x100
    ensures ShiftedRight(low + U32 * high, 2) % 0x100 == low / 0x1_0000 % 0x100
    ensures ShiftedRight(low + U32 * high, 3) % 0x100 == low / 0x100_0000
    ensures ShiftedRight(low + U32 * high, 4) == high
  {
    ShiftSum(low, 0x100_0000 * high);
    ShiftSum(low / 0x100, 0x1_0000 * high);
    ShiftSum(low / 0x1_0000, 0x100 * high);
    ShiftSum(low / 0x100_0000, high);
    assert ShiftedRight(low + U32 * high, 1) == low / 0x100 + 0x100_0000 * high;
    assert ShiftedRight(low + U32 * high, 2) == low / 0x1_0000 + 0x1_0000 * high;
    assert ShiftedRight(low + U32 * high, 3) == low / 0x100_0000 + 0x100 * high;
  }

  lemma ByteOf64(v: uint64, i: nat)
    requires i < 8
    ensures LeOf64(v)[i] == ShiftedRight(v, i) % 0x100
  {
    LowShifts(v % U32, v / U32);
    assert v == v % U32 + U32 * (v / U32);
    if i >= 4 {
      var high := ShiftedRight(v, 4);
      assert ShiftedRight(v, 5) == high / 0x100;
      assert ShiftedRight(v, 6) == high / 0x1_0000;
      assert ShiftedRight(v, 7) == high / 0x100_0000;
      assert LeOf64(v)[i] == LeOf32(high)[i - 4];
    }
  }

  method EncodeLenUtf8Le(text: Bytes) returns (out: Option<Bytes>)
    ensures out == if |text| < U32 then Some(LenUtf8(text)) else None
  {
    hide LeOf32;
    if |text| > 0xFFFF_FFFF {
      return None;
    }
    assert |text| % U32 == |text|;
    out := Some(LeOf32(|text|) + text);
  }

  method EncodeFrag(channel: uint32, seqNo: uint32, piece: Piece) returns (out: Bytes)
    ensures Encoded(Frag(channel, seqNo, piece)) == Some(out)
  {
    out := [5];
    out := out + LeOf32(channel);
    out := out + LeOf32(seqNo);
    var fields := AppendU64([], piece.msgId);
    fields := fields + LeOf16(piece.index);
    fields := fields + LeOf16(piece.count);
    fields := fields + LeOf32(piece.totalLen);
    assert fields == LeOf64(piece.msgId) + LeOf16(piece.index) + LeOf16(piece.count) + LeOf32(piece.totalLen);
    out := out + (fields + piece.chunk);
  }

  method Encode(f: Frame) returns (out: Option<Bytes>)
    ensures out == Encoded(f)
  {
    if f.Frag? {
      var wire := EncodeFrag(f.channel, f.seqNo, f.piece);
      return Some(wire);
    }
    var wire := [TypeOf(f)];
    wire := wire + LeOf32(f.channel);
    wire := wire + LeOf32(f.seqNo);
    match f {
      case Open(_, _, protocol, cls, flags, maxBytes) =>
        var text := EncodeLenUtf8Le(protocol);
        if text.None? {
          return None;
        }
        var body := text.value + [cls];
        body := body + LeOf16(flags);
        wire := wire + (body + LeOf32(maxBytes));
      case OpenAck(_, _, result) =>
        wire := wire + [result];
      case Data(_, _, payload) =>
        wire := wire + payload;
      case Close(_, _, reason) =>
        if reason != [] {
          var text := EncodeLenUtf8Le(reason);
          if text.None? {
            return None;
          }
          wire := wire + text.value;
        }
      case Reset(_, _, code) =>
        wire := wire + LeOf32(code);
      case Frag(_, _, _) =>
        // Handled above.
    }
    assert wire == Header(f) + Body(f);
    out := Some(wire);
  }

  method ReadU32(wire: Bytes) returns (v: Option<uint32>, rest: Bytes)
    ensures if |wire| < 4 then v == None else v == Some(Of32Le(wire)) && rest == wire[4..]
  {
    if |wire| < 4 {
      return None, wire;
    }
    var n: int := wire[0];
    n := n + 0x100 * (wire[1] as int) + 0x1_0000 * (wire[2] as int) + 0x100_0000 * (wire[3] as int);
    return Some(n), wire[4..];
  }

  method ReadU16(wire: Bytes) returns (v: Option<uint16>, rest: Bytes)
    ensures if |wire| < 2 then v == None else v == Some(Of16Le(wire)) && rest == wire[2..]
  {
    if |wire| < 2 {
      return None, wire;
    }
    var n: int := wire[0];
    return Some(n + 0x100 * (wire[1] as int)), wire[2..];
  }

  /** `1 << (8 * n)`. */
  function Place(n: nat): nat {
    if n == 0 then 1 else 0x100 * Place(n - 1)
  }

  /** The number the first `n` bytes spell, low byte first. */
  function LowBytes(b: Bytes, n: nat): nat
    requires n <= |b|
  {
    if n == 0 then 0 else LowBytes(b, n - 1) + (b[n - 1] as int) * Place(n - 1)
  }

  lemma Places()
    ensures Place(1) == 0x100 && Place(2) == 0x1_0000 && Place(3) == 0x100_0000 && Place(4) == U32
    ensures Place(5) == 0x100 * U32 && Place(6) == 0x1_0000 * U32 && Place(7) == 0x100_0000 * U32
  {
  }

  lemma FourLowBytes(b: Bytes, n: nat)
    requires n + 4 <= |b|
    ensures LowBytes(b, n + 4) == LowBytes(b, n) + (b[n] as int) * Place(n) + (b[n + 1] as int) * Place(n + 1)
                                + (b[n + 2] as int) * Place(n + 2) + (b[n + 3] as int) * Place(n + 3)
  {
    hide Place;
    assert LowBytes(b, n + 1) == LowBytes(b, n) + (b[n] as int) * Place(n);
    assert LowBytes(b, n + 2) == LowBytes(b, n + 1) + (b[n + 1] as int) * Place(n + 1);
    assert LowBytes(b, n + 3) == LowBytes(b, n + 2) + (b[n + 2] as int) * Place(n + 2);
  }

  lemma EightLowBytes(b: Bytes)
    requires |b| >= 8
    ensures LowBytes(b, 8) == Of64Le(b)
  {
    FourLowBytes(b, 0);
    FourLowBytes(b, 4);
    Places();
    hide Place, LowBytes;
    var b1, b2, b3, b5, b6, b7: int := b[1], b[2], b[3], b[5], b[6], b[7];
    assert LowBytes(b, 4) == Of32Le(b[..4]);
    assert b5 * (0x100 * U32) == U32 * (0x100 * b5) && b6 * (0x1_0000 * U32) == U32 * (0x1_0000 * b6);
    assert b7 * (0x100_0000 * U32) == U32 * (0x100_0000 * b7);
  }

  method ReadU64(wire: Bytes) returns (v: Option<uint64>, rest: Bytes)
    ensures if |wire| < 8 then v == None else v == Some(Of64Le(wire)) && rest == wire[8..]
  {
    if |wire| < 8 {
      return None, wire;
    }
    // The bytes do not overlap, so the source's bitwise or is a sum.
    var sum: nat := 0;
    for i := 0 to 8
      invariant sum == LowBytes(wire, i)
    {
      sum := sum + (wire[i] as int) * Place(i);
    }
    EightLowBytes(wire);
    return Some(sum), wire[8..];
  }

  method DecodeLenUtf8Le(wire: Bytes) returns (text: Option<Bytes>, consumed: nat)
    ensures match TextOf(wire)
            case None => text == None
            case Some((t, rest)) => text == Some(t) && consumed <= |wire| && rest == wire[consumed..]
  {
    var n, span := ReadU32(wire);
    if n.None? || |span| < n.value {
      return None, 0;
    }
    assert wire[4..4 + n.value] == span[..n.value];
    return Some(span[..n.value]), |wire| - |span| + n.value;
  }

  method DecodeOpen(channel: uint32, seqNo: uint32, wire: Bytes) returns (f: Option<Frame>)
    ensures f == OpenOf(channel, seqNo, wire)
  {
    var protocol, consumed := DecodeLenUtf8Le(wire);
    if protocol.None? {
      return None;
    }
    var body := wire[consumed..];
    if body == [] {
      return None;
    }
    ghost var rest := body;
    var cls := body[0];
    body := body[1..];
    var flags;
    flags, body := ReadU16(body);
    if flags.None? {
      return None;
    }
    var maxBytes: uint32 := 0;
    if body != [] {
      var declared;
      declared, body := ReadU32(body);
      if declared.None? {
        return None;
      }
      maxBytes := declared.value;
    }
    if body != [] {
      return None;
    }
    assert |rest| == 7 ==> rest[1..][2..] == rest[3..];
    f := Some(Open(channel, seqNo, protocol.value, cls, flags.value, maxBytes));
  }

  method DecodePiece(wire: Bytes) returns (piece: Option<Piece>)
    ensures piece == PieceOf(wire)
  {
    hide Of64Le, Of32Le, Of16Le;
    var msgId, body := ReadU64(wire);
    if msgId.None? {
      return None;
    }
    var index;
    index, body := ReadU16(body);
    if index.None? {
      return None;
    }
    var count;
    count, body := ReadU16(body);
    if count.None? {
      return None;
    }
    var totalLen;
    totalLen, body := ReadU32(body);
    if totalLen.None? {
      return None;
    }
    assert wire[8..][2..] == wire[10..] && wire[10..][2..] == wire[12..] && wire[12..][4..] == wire[16..];
    piece := Some(Piece(msgId.value, index.value, count.value, totalLen.value, body));
  }

  method Decode(wire: Bytes) returns (f: Option<Frame>)
    ensures f == Decoded(wire)
  {
    hide Of32Le, OpenOf, PieceOf, TextOf;
    if |wire| < HEADER_BYTES {
      return None;
    }
    var channel, after := ReadU32(wire[1..]);
    var seqNo, body := ReadU32(after);
    assert wire[1..][4..] == wire[5..] && wire[5..][4..] == wire[9..];
    match wire[0] {
      case 0 =>
        f := DecodeOpen(channel.value, seqNo.value, body);
      case 1 =>
        if |body| != 1 {
          return None;
        }
        f := Some(OpenAck(channel.value, seqNo.value, body[0]));
      case 2 =>
        f := Some(Data(channel.value, seqNo.value, body));
      case 3 =>
        if body == [] {
          return Some(Close(channel.value, seqNo.value, []));
        }
        var reason, consumed := DecodeLenUtf8Le(body);
        if reason.None? || body[consumed..] != [] {
          return None;
        }
        f := Some(Close(channel.value, seqNo.value, reason.value));
      case 4 =>
        var code, rest := ReadU32(body);
        if code.None? || rest != [] {
          return None;
        }
        f := Some(Reset(channel.value, seqNo.value, code.value));
      case 5 =>
        var piece := DecodePiece(body);
        if piece.None? {
          return None;
        }
        f := Some(Frag(channel.value, seqNo.value, piece.value));
      case _ =>
        f := None;
    }
  }

  // ------------------------------------------------------------ each undoes the other

  lemma TextRoundTrip(text: Bytes, rest: Bytes)
    requires |text| < U32
    ensures TextOf(LenUtf8(text) + rest) == Some((text, rest))
  {
    var w := LenUtf8(text) + rest;
    assert w == LeOf32(|text|) + (text + rest);
    RoundTrip32(|text|, text + rest);
    assert w[4..4 + |text|] == text && w[4 + |text|..] == rest;
  }

  lemma PieceRoundTrip(p: Piece)
    ensures PieceOf(Fields(p)) == Some(p)
  {
    FieldPlaces(p);
    hide LeOf16, LeOf32, LeOf64, Of16Le, Of32Le, Of64Le, Fields;
    var w := Fields(p);
    RoundTrip64(p.msgId, w[8..]);
    RoundTrip16(p.index, w[10..]);
    RoundTrip16(p.count, w[12..]);
    RoundTrip32(p.totalLen, p.chunk);
  }

  lemma FieldPlaces(p: Piece)
    ensures var w := Fields(p);
      && |w| >= FRAG_FIELDS_BYTES
      && w == LeOf64(p.msgId) + w[8..] && w[8..] == LeOf16(p.index) + w[10..]
      && w[10..] == LeOf16(p.count) + w[12..] && w[12..] == LeOf32(p.totalLen) + p.chunk && w[16..] == p.chunk
  {
    WordLengths(p);
    hide LeOf16, LeOf32, LeOf64;
    var tail4 := LeOf32(p.totalLen) + p.chunk;
    var tail3 := LeOf16(p.count) + tail4;
    var tail2 := LeOf16(p.index) + tail3;
    var w := Fields(p);
    assert w == LeOf64(p.msgId) + tail2;
    assert w[8..] == tail2;
    assert w[10..] == tail2[2..] == tail3;
    assert w[12..] == tail3[2..] == tail4;
    assert w[16..] == tail4[4..] == p.chunk;
  }

  lemma WordLengths(p: Piece)
    ensures |LeOf64(p.msgId)| == 8 && |LeOf16(p.index)| == 2 && |LeOf16(p.count)| == 2 && |LeOf32(p.totalLen)| == 4
  {
  }

  lemma HeaderRoundTrip(f: Frame)
    requires Encodable(f)
    ensures var w := Header(f) + Body(f);
      |w| >= 9 && w[0] == TypeOf(f) && Of32Le(w[1..]) == f.channel && Of32Le(w[5..]) == f.seqNo && w[9..] == Body(f)
  {
    hide Body;
    var w := Header(f) + Body(f);
    assert w[1..] == LeOf32(f.channel) + w[5..];
    assert w[5..] == LeOf32(f.seqNo) + Body(f);
    RoundTrip32(f.channel, w[5..]);
    RoundTrip32(f.seqNo, Body(f));
  }

  lemma OpenRoundTrip(channel: uint32, seqNo: uint32, protocol: Bytes, cls: uint8, flags: uint16, maxBytes: uint32)
    requires |protocol| < U32
    ensures OpenOf(channel, seqNo, LenUtf8(protocol) + [cls] + LeOf16(flags) + LeOf32(maxBytes)) ==
            Some(Open(channel, seqNo, protocol, cls, flags, maxBytes))
  {
    hide LenUtf8, TextOf;
    var rest := [cls] + LeOf16(flags) + LeOf32(maxBytes);
    assert LenUtf8(protocol) + [cls] + LeOf16(flags) + LeOf32(maxBytes) == LenUtf8(protocol) + rest;
    TextRoundTrip(protocol, rest);
    assert rest[1..] == LeOf16(flags) + LeOf32(maxBytes) && rest[3..] == LeOf32(maxBytes) + [];
    RoundTrip16(flags, LeOf32(maxBytes));
    RoundTrip32(maxBytes, []);
  }

  lemma CloseRoundTrip(channel: uint32, seqNo: uint32, reason: Bytes)
    requires |reason| < U32
    ensures CloseOf(channel, seqNo, if reason == [] then [] else LenUtf8(reason)) == Some(Close(channel, seqNo, reason))
  {
    assert LenUtf8(reason) == LenUtf8(reason) + [];
    TextRoundTrip(reason, []);
  }

  lemma BodyRoundTrip(f: Frame)
    requires Encodable(f)
    ensures DecodedBody(TypeOf(f), f.channel, f.seqNo, Body(f)) == Some(f)
  {
    hide OpenOf, CloseOf, PieceOf, LenUtf8, Fields, LeOf32, LeOf16;
    match f {
      case Open(channel, seqNo, protocol, cls, flags, maxBytes) =>
        OpenRoundTrip(channel, seqNo, protocol, cls, flags, maxBytes);
      case Close(channel, seqNo, reason) =>
        CloseRoundTrip(channel, seqNo, reason);
      case Reset(channel, seqNo, code) =>
        ResetRoundTrip(code);
      case Frag(_, _, piece) =>
        PieceRoundTrip(piece);
      case _ =>
    }
  }

  lemma ResetRoundTrip(code: uint32)
    ensures |LeOf32(code)| == 4 && Of32Le(LeOf32(code)) == code
  {
    assert LeOf32(code) == LeOf32(code) + [];
    RoundTrip32(code, []);
  }

  /** Decode undoes Encode on every frame that has a wire form. */
  lemma EncodedComesBack(f: Frame)
    requires Encodable(f)
    ensures Decoded(Encoded(f).value) == Some(f)
  {
    HeaderRoundTrip(f);
    BodyRoundTrip(f);
  }

  /** So no two frames share a wire. */
  lemma EncodedInjective(f: Frame, g: Frame)
    requires Encodable(f) && Encoded(f) == Encoded(g)
    ensures f == g
  {
    EncodedComesBack(f);
    EncodedComesBack(g);
  }
}
