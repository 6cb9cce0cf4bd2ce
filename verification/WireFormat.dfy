/**
 The bytes on the wire, place by place, and what the decoders take: nothing but what the encoders write, and the few
 forms older peers send (src/L3/ChannelWire.cpp:90-264; src/L3/Capability.cpp:7-126; src/link/AmpAdpCarrier.cpp:28-177).
 */
module WireFormat {
  import opened Words
  import opened ChannelWire
  import LC = LaneCodec
  import C = Capability
  import M = MshChunks

  /** `n` bytes from `at` on hold `v`, the lowest byte first. */
  predicate Holds(w: Bytes, at: nat, n: nat, v: int)
    decreases n
  {
    n == 0 || (at < |w| && v >= 0 && w[at] as int == v % 256 && Holds(w, at + 1, n - 1, v / 256))
  }

  lemma Holds4(w: Bytes, at: nat, v: uint32)
    requires at + 4 <= |w| && w[at..at + 4] == LeOf32(v)
    ensures Holds(w, at, 4, v)
  {
    var b := w[at..at + 4];
    assert w[at] == b[0] && w[at + 1] == b[1] && w[at + 2] == b[2] && w[at + 3] == b[3];
    assert v / 256 / 256 == v / 0x1_0000 && v / 256 / 256 / 256 == v / 0x100_0000;
    assert Holds(w, at + 4, 0, v / 256 / 256 / 256 / 256);
    assert Holds(w, at + 3, 1, v / 256 / 256 / 256);
    assert Holds(w, at + 2, 2, v / 256 / 256);
    assert Holds(w, at + 1, 3, v / 256);
  }

  lemma Holds2(w: Bytes, at: nat, v: uint16)
    requires at + 2 <= |w| && w[at..at + 2] == LeOf16(v)
    ensures Holds(w, at, 2, v)
  {
    var b := w[at..at + 2];
    assert w[at] == b[0] && w[at + 1] == b[1];
    assert Holds(w, at + 2, 0, v / 256 / 256);
    assert Holds(w, at + 1, 1, v / 256);
  }

  // ------------------------------------------------------------ channel frames

  /** The nine bytes every frame starts with: its type 0 to 5, its channel, its number. */
  lemma HeaderLayout(f: Frame)
    requires Encodable(f)
    ensures var w := Encoded(f).value;
      && |w| >= 9 && Holds(w, 1, 4, f.channel) && Holds(w, 5, 4, f.seqNo)
      && w[0] == (match f case Open(_, _, _, _, _, _) => 0 case OpenAck(_, _, _) => 1 case Data(_, _, _) => 2
                          case Close(_, _, _) => 3 case Reset(_, _, _) => 4 case Frag(_, _, _) => 5)
  {
    var w := Encoded(f).value;
    hide Body;
    assert w[1..5] == LeOf32(f.channel) && w[5..9] == LeOf32(f.seqNo);
    Holds4(w, 1, f.channel);
    Holds4(w, 5, f.seqNo);
  }

  lemma AfterHeader(f: Frame)
    requires Encodable(f)
    ensures |Header(f)| == 9 && Encoded(f).value[9..] == Body(f) && |Encoded(f).value| == 9 + |Body(f)|
  {
    hide Body;
  }

  /** What follows: nothing is padded, and every length, count and number is in its place. */
  lemma BodyLayout(f: Frame)
    requires Encodable(f)
    ensures var w := Encoded(f).value;
      match f
      case Data(_, _, payload) => w[9..] == payload
      case OpenAck(_, _, result) => |w| == 10 && w[9] == result
      case Reset(_, _, code) => |w| == 13 && Holds(w, 9, 4, code)
      case Close(_, _, reason) => if reason == [] then |w| == 9 else |w| == 13 + |reason| && Holds(w, 9, 4, |reason|) && w[13..] == reason
      case Open(_, _, protocol, cls, flags, maxBytes) =>
        var end := 13 + |protocol|;
        && |w| == end + 7 && Holds(w, 9, 4, |protocol|) && w[13..end] == protocol
        && w[end] == cls && Holds(w, end + 1, 2, flags) && Holds(w, end + 3, 4, maxBytes)
      case Frag(_, _, p) =>
        && |w| == 25 + |p.chunk| && Holds(w, 9, 4, p.msgId % 0x1_0000_0000) && Holds(w, 13, 4, p.msgId / 0x1_0000_0000)
        && Holds(w, 17, 2, p.index) && Holds(w, 19, 2, p.count) && Holds(w, 21, 4, p.totalLen) && w[25..] == p.chunk
  {
    AfterHeader(f);
    hide Holds, LeOf32, LeOf16, Encoded;
    var w := Encoded(f).value;
    match f {
      case Data(_, _, _) =>
      case OpenAck(_, _, result) => assert w[9] == w[9..][0];
      case Reset(_, _, code) =>
        WordSizes(code, code, 0);
        assert w[9..13] == w[9..];
        Holds4(w, 9, code);
      case Close(_, _, reason) =>
        if reason != [] { CloseLayout(w, reason); }
      case Open(_, _, protocol, cls, flags, maxBytes) =>
        OpenBody(f);
        OpenLayout(w, protocol, cls, flags, maxBytes);
      case Frag(_, _, p) => FragLayout(w, p);
    }
  }

  lemma TwoPlaces(w: Bytes, at: nat, a: Bytes, b: Bytes)
    requires at <= |w| && w[at..] == a + b
    ensures |w| == at + |a| + |b| && w[at..at + |a|] == a && w[at + |a|..] == b
  {
    assert w == w[..at] + a + b;
  }

  lemma CloseLayout(w: Bytes, reason: Bytes)
    requires |reason| < U32 && |w| >= 9 && w[9..] == LenUtf8(reason)
    ensures |w| == 13 + |reason| && Holds(w, 9, 4, |reason|) && w[13..] == reason
  {
    hide Holds, LeOf32;
    WordSizes(|reason|, |reason|, 0);
    assert |reason| % U32 == |reason|;
    TwoPlaces(w, 9, LeOf32(|reason|), reason);
    Holds4(w, 9, |reason|);
  }

  lemma OpenLayout(w: Bytes, protocol: Bytes, cls: uint8, flags: uint16, maxBytes: uint32)
    requires |protocol| < U32 && |w| >= 9 && w[9..] == LeOf32(|protocol|) + protocol + [cls] + LeOf16(flags) + LeOf32(maxBytes)
    ensures var end := 13 + |protocol|;
      && |w| == end + 7 && Holds(w, 9, 4, |protocol|) && w[13..end] == protocol
      && w[end] == cls && Holds(w, end + 1, 2, flags) && Holds(w, end + 3, 4, maxBytes)
  {
    hide Holds, LeOf32, LeOf16;
    var end := 13 + |protocol|;
    WordSizes(|protocol|, maxBytes, flags);
    var length, two, four := LeOf32(|protocol|), LeOf16(flags), LeOf32(maxBytes);
    FivePlaces(w, length, protocol, cls, two, four);
    PlacesHold(w, |protocol|, end, flags, maxBytes);
  }

  lemma OpenBody(f: Frame)
    requires f.Open? && Encodable(f)
    ensures Body(f) == LeOf32(|f.protocol|) + f.protocol + [f.cls] + LeOf16(f.flags) + LeOf32(f.maxBytes)
  {
    hide LeOf32, LeOf16;
    assert |f.protocol| % U32 == |f.protocol|;
  }

  lemma PlacesHold(w: Bytes, length: uint32, end: nat, flags: uint16, maxBytes: uint32)
    requires 13 <= end && end + 7 == |w|
    requires w[9..13] == LeOf32(length) && w[end + 1..end + 3] == LeOf16(flags) && w[end + 3..end + 7] == LeOf32(maxBytes)
    ensures Holds(w, 9, 4, length) && Holds(w, end + 1, 2, flags) && Holds(w, end + 3, 4, maxBytes)
  {
    hide Holds, LeOf32, LeOf16;
    assert 9 + 4 == 13 && end + 1 + 2 == end + 3 && end + 3 + 4 == end + 7;
    Holds4(w, 9, length);
    Holds2(w, end + 1, flags);
    Holds4(w, end + 3, maxBytes);
  }

  lemma FivePlaces(w: Bytes, length: Bytes, text: Bytes, byte: uint8, two: Bytes, four: Bytes)
    requires |w| >= 9 && |length| == 4 && |two| == 2 && |four| == 4
    requires w[9..] == length + text + [byte] + two + four
    ensures var end := 13 + |text|;
      && |w| == end + 7 && w[9..13] == length && w[13..end] == text && w[end] == byte
      && w[end + 1..end + 3] == two && w[end + 3..end + 7] == four
  {
    assert w == w[..9] + length + text + [byte] + two + four;
  }

  lemma WordSizes(u: uint32, v: uint32, s: uint16)
    ensures |LeOf32(u)| == 4 && |LeOf32(v)| == 4 && |LeOf16(s)| == 2
  {
  }

  lemma FragLayout(w: Bytes, p: Piece)
    requires |w| >= 9 && w[9..] == Fields(p)
    ensures |w| == 25 + |p.chunk| && Holds(w, 9, 4, p.msgId % 0x1_0000_0000) && Holds(w, 13, 4, p.msgId / 0x1_0000_0000)
    ensures Holds(w, 17, 2, p.index) && Holds(w, 19, 2, p.count) && Holds(w, 21, 4, p.totalLen) && w[25..] == p.chunk
  {
    hide Holds, LeOf32, LeOf16;
    var b := w[9..];
    FieldLengths(p);
    assert w[9..13] == b[..4] == LeOf32(p.msgId % U32);
    assert w[13..17] == b[4..8] == LeOf32(p.msgId / U32);
    assert w[17..19] == b[8..10] == LeOf16(p.index);
    assert w[19..21] == b[10..12] == LeOf16(p.count);
    assert w[21..25] == b[12..16] == LeOf32(p.totalLen);
    assert w[25..] == b[16..] == p.chunk;
    Holds4(w, 9, p.msgId % U32);
    Holds4(w, 13, p.msgId / U32);
    Holds2(w, 17, p.index);
    Holds2(w, 19, p.count);
    Holds4(w, 21, p.totalLen);
  }

  lemma FieldLengths(p: Piece)
    ensures |LeOf32(p.msgId % U32)| == 4 && |LeOf32(p.msgId / U32)| == 4 && |LeOf16(p.index)| == 2 && |LeOf16(p.count)| == 2 && |LeOf32(p.totalLen)| == 4
    ensures |Fields(p)| == 16 + |p.chunk|
  {
  }

  // ------------------------------------------------------------ only what was written is read

  lemma LowByte(low: uint8, rest: nat)
    ensures (low + 0x100 * rest) % 0x100 == low && (low + 0x100 * rest) / 0x100 == rest
  {
  }

  lemma Reads32(b: Bytes)
    requires |b| >= 4
    ensures LeOf32(Of32Le(b)) == b[..4]
  {
    var v := Of32Le(b);
    var above3: nat := b[3];
    var above2: nat := b[2] + 0x100 * above3;
    var above1: nat := b[1] + 0x100 * above2;
    assert v == b[0] + 0x100 * above1;
    LowByte(b[0], above1);
    LowByte(b[1], above2);
    LowByte(b[2], above3);
    InBytes(v);
  }

  lemma InBytes(v: uint32)
    ensures LeOf32(v) == [v % 0x100, v / 0x100 % 0x100, v / 0x100 / 0x100 % 0x100, v / 0x100 / 0x100 / 0x100]
  {
  }

  lemma Reads64(b: Bytes)
    requires |b| >= 8
    ensures LeOf64(Of64Le(b)) == b[..8]
  {
    Reads32(b[..4]);
    Reads32(b[4..]);
    hide LeOf32, Of32Le;
    assert Of64Le(b) % U32 == Of32Le(b[..4]) && Of64Le(b) / U32 == Of32Le(b[4..]);
    assert b[..4][..4] + b[4..][..4] == b[..8];
  }

  lemma Reads16(b: Bytes)
    requires |b| >= 2
    ensures LeOf16(Of16Le(b)) == b[..2]
  {
  }

  lemma TextReads(w: Bytes)
    requires TextOf(w).Some?
    ensures var (text, rest) := TextOf(w).value;
      |text| < U32 && w == LenUtf8(text) + rest
  {
    Reads32(w);
    hide LeOf32, Of32Le;
    var n := Of32Le(w);
    var text := w[4..4 + n];
    assert |text| % U32 == n;
    assert w == w[..4] + text + w[4 + n..];
  }

  /** A frame is read from the bytes it is written as, or from an OPEN without its last field, or a CLOSE with an empty text; from nothing else. */
  lemma OnlyFramesDecode(w: Bytes)
    requires Decoded(w).Some?
    ensures var f := Decoded(w).value;
      && Encodable(f)
      && (|| w == Encoded(f).value
          || (f.Open? && f.maxBytes == 0 && w + [0, 0, 0, 0] == Encoded(f).value)
          || (f.Close? && f.reason == [] && w == Encoded(f).value + [0, 0, 0, 0]))
  {
    var f := Decoded(w).value;
    HeadReads(w);
    BodyReads(w[0], f.channel, f.seqNo, w[9..]);
    hide Decoded, DecodedBody, Body, LeOf32, Encodable;
    var b, tail := w[9..], [0, 0, 0, 0];
    assert w == w[..9] + b && w[..9] == Header(f);
    assert (w[..9] + b) + tail == w[..9] + (b + tail);
  }

  lemma HeadReads(w: Bytes)
    requires Decoded(w).Some?
    ensures var f := Decoded(w).value;
      |w| >= 9 && Decoded(w) == DecodedBody(w[0], f.channel, f.seqNo, w[9..]) && w[..9] == [w[0]] + LeOf32(f.channel) + LeOf32(f.seqNo)
  {
    Reads32(w[1..]);
    Reads32(w[5..]);
    hide DecodedBody;
    KindOfBody(w[0], Of32Le(w[1..]), Of32Le(w[5..]), w[9..]);
    assert w[1..][..4] == w[1..5] && w[5..][..4] == w[5..9];
    assert w[..9] == [w[0]] + w[1..5] + w[5..9];
  }

  lemma KindOfBody(kind: uint8, channel: uint32, seqNo: uint32, b: Bytes)
    requires DecodedBody(kind, channel, seqNo, b).Some?
    ensures var f := DecodedBody(kind, channel, seqNo, b).value; f.channel == channel && f.seqNo == seqNo && TypeOf(f) == kind
  {
  }

  lemma BodyReads(kind: uint8, channel: uint32, seqNo: uint32, b: Bytes)
    requires DecodedBody(kind, channel, seqNo, b).Some?
    ensures var f := DecodedBody(kind, channel, seqNo, b).value;
      && f.channel == channel && f.seqNo == seqNo && TypeOf(f) == kind && Encodable(f)
      && (|| b == Body(f)
          || (f.Open? && f.maxBytes == 0 && b + [0, 0, 0, 0] == Body(f))
          || (f.Close? && f.reason == [] && b == [0, 0, 0, 0] && Body(f) == []))
  {
    KindOfBody(kind, channel, seqNo, b);
    var f := DecodedBody(kind, channel, seqNo, b).value;
    match f {
      case Open(_, _, _, _, _, _) => OpenReads(channel, seqNo, b);
      case Close(_, _, _) => CloseReads(channel, seqNo, b);
      case Reset(_, _, _) => Reads32(b);
      case Frag(_, _, _) => PieceReads(b);
      case _ =>
    }
  }

  lemma OpenReads(channel: uint32, seqNo: uint32, b: Bytes)
    requires OpenOf(channel, seqNo, b).Some?
    ensures var f := OpenOf(channel, seqNo, b).value;
      f.Open? && Encodable(f) && (b == Body(f) || (f.maxBytes == 0 && b + [0, 0, 0, 0] == Body(f)))
  {
    TextReads(b);
    var (protocol, rest) := TextOf(b).value;
    Reads16(rest[1..]);
    if |rest| == 7 { Reads32(rest[3..]); }
    hide LenUtf8;
    assert rest[1..][..2] == rest[1..3];
    if |rest| == 7 {
      assert rest == [rest[0]] + rest[1..3] + rest[3..];
    } else {
      assert rest == [rest[0]] + rest[1..3];
      assert LeOf32(0) == [0, 0, 0, 0];
    }
  }

  lemma CloseReads(channel: uint32, seqNo: uint32, b: Bytes)
    requires CloseOf(channel, seqNo, b).Some?
    ensures var f := CloseOf(channel, seqNo, b).value;
      f.Close? && Encodable(f) && (b == Body(f) || (f.reason == [] && b == [0, 0, 0, 0] && Body(f) == []))
  {
    if b != [] {
      TextReads(b);
      var (reason, rest) := TextOf(b).value;
      if reason == [] { assert LeOf32(0) == [0, 0, 0, 0]; }
    }
  }

  lemma PieceReads(b: Bytes)
    requires PieceOf(b).Some?
    ensures Fields(PieceOf(b).value) == b
  {
    Reads64(b);
    Reads16(b[8..]);
    Reads16(b[10..]);
    Reads32(b[12..]);
    hide LeOf64, LeOf32, LeOf16, Of64Le, Of32Le, Of16Le;
    assert b == b[..8] + b[8..][..2] + b[10..][..2] + b[12..][..4] + b[16..];
  }

  // ------------------------------------------------------------ lane frames

  /** Lane data: a 3, the number, the frame. */
  lemma LaneDataLayout(seqNo: uint32, inner: Bytes)
    ensures var w := LC.EncodeLaneData(seqNo, inner);
      |w| == 5 + |inner| && w[0] == 3 && Holds(w, 1, 4, seqNo) && w[5..] == inner
  {
    var w := LC.EncodeLaneData(seqNo, inner);
    assert w[1..5] == LeOf32(seqNo);
    Holds4(w, 1, seqNo);
  }

  /** A lane ack: a 4, the number up to which everything came, and a bit for each of the 64 after it. */
  lemma LaneAckLayout(ack: LC.LaneAck)
    ensures var w := LC.EncodeLaneAck(ack);
      && |w| == 13 && w[0] == 4 && Holds(w, 1, 4, ack.cumulative)
      && Holds(w, 5, 4, ack.selective % 0x1_0000_0000) && Holds(w, 9, 4, ack.selective / 0x1_0000_0000)
  {
    hide Holds;
    var w := LC.EncodeLaneAck(ack);
    assert w[1..5] == LeOf32(ack.cumulative);
    assert w[5..9] == LeOf32(ack.selective % U32);
    assert w[9..13] == LeOf32(ack.selective / U32);
    Holds4(w, 1, ack.cumulative);
    Holds4(w, 5, ack.selective % U32);
    Holds4(w, 9, ack.selective / U32);
  }

  /** Lane data is read from nothing but its own wire; a lane ack also from one with bytes after it. */
  lemma OnlyLaneFramesDecode(w: Bytes)
    ensures var data := LC.DecodeLaneData(w);
      data.Some? ==> data.value.seqNo != 0 && data.value.inner != [] && w == LC.EncodeLaneData(data.value.seqNo, data.value.inner)
    ensures var ack := LC.DecodeLaneAck(w);
      ack.Some? ==> |w| >= 13 && w[..13] == LC.EncodeLaneAck(ack.value)
  {
    hide Of32Le, LeOf32;
    if LC.DecodeLaneData(w).Some? {
      Reads32(w[1..]);
      assert w == w[..1] + w[1..][..4] + w[5..];
    }
    if LC.DecodeLaneAck(w).Some? {
      LC.FirstFour(w[9..]);
      Reads32(w[1..5]);
      Reads32(w[5..9]);
      Reads32(w[9..]);
      var low, high := Of32Le(w[5..9]), Of32Le(w[9..]);
      assert (low + U32 * high) % U32 == low && (low + U32 * high) / U32 == high;
      assert w[1..5][..4] == w[1..5] && w[5..9][..4] == w[5..9] && w[9..][..4] == w[9..13];
      assert w[..13] == w[..1] + w[1..5] + w[5..9] + w[9..13];
    }
  }

  // ------------------------------------------------------------ pieces of handshake messages

  /** A chunk: a 2, its kind, its place, how many there are, its bytes. */
  lemma MshChunkLayout(kind: uint8, index: uint16, count: uint16, bytes: Bytes)
    ensures var w := M.ChunkWire(kind, index, count, bytes);
      |w| == 6 + |bytes| && w[0] == 2 && w[1] == kind && Holds(w, 2, 2, index) && Holds(w, 4, 2, count) && w[6..] == bytes
  {
    var w := M.ChunkWire(kind, index, count, bytes);
    assert w[2..4] == LeOf16(index) && w[4..6] == LeOf16(count);
    Holds2(w, 2, index);
    Holds2(w, 4, count);
  }

  lemma OnlyMshChunksDecode(w: Bytes)
    ensures var c := M.DecodeMshChunk(w);
      c.Some? ==> w == M.ChunkWire(c.value.kind, c.value.index, c.value.count, c.value.bytes)
  {
    hide Of16Le, LeOf16;
    if M.DecodeMshChunk(w).Some? {
      Reads16(w[2..4]);
      Reads16(w[4..6]);
      assert w == w[..2] + w[2..4][..2] + w[4..6][..2] + w[6..];
    }
  }

  // ------------------------------------------------------------ capability messages

  lemma {:induction false} TextsRead(w: Bytes, n: nat)
    requires C.TextsOf(w, n).Some?
    ensures var (texts, rest) := C.TextsOf(w, n).value;
      |texts| == n && (forall i :: 0 <= i < n ==> C.TextFits(texts[i])) && w == C.Texts(texts) + rest
    decreases n
  {
    hide LenUtf8, TextOf;
    if n > 0 {
      TextReads(w);
      var (text, rest) := TextOf(w).value;
      TextsRead(rest, n - 1);
      var (texts, after) := C.TextsOf(rest, n - 1).value;
      assert ([text] + texts)[1..] == texts;
      assert w == LenUtf8(text) + (C.Texts(texts) + after) == (LenUtf8(text) + C.Texts(texts)) + after;
    }
  }

  lemma Joined(w: Bytes, a: Bytes, b: Bytes, c: Bytes)
    requires |a| <= |w| && w[..|a|] == a && w[|a|..] == b + c
    ensures w == (a + b) + c
  {
    assert w == w[..|a|] + w[|a|..];
  }

  lemma ListReads(w: Bytes)
    requires C.ListOf(w).Some?
    ensures var (items, rest) := C.ListOf(w).value;
      C.ListFits(items) && w == C.ListText(items) + rest
  {
    Reads16(w);
    hide LeOf16, Of16Le, C.TextsOf, C.Texts;
    var n := Of16Le(w);
    TextsRead(w[2..], n);
    var (items, rest) := C.TextsOf(w[2..], n).value;
    assert |items| % 0x1_0000 == n;
    Joined(w, w[..2], C.Texts(items), rest);
  }

  /** An offer is read from nothing but its own wire; an extension also from one with bytes after it, the first always a 1 and the second a 3. */
  lemma OnlyCapabilitiesDecode(w: Bytes)
    ensures C.DecodedOffer(w).Some? ==> w[0] == 1 && C.EncodedOffer(C.DecodedOffer(w).value) == Some(w)
    ensures C.DecodedExtension(w).Some? ==>
              var own := C.EncodedExtension(C.DecodedExtension(w).value);
              w[0] == 3 && own.Some? && |own.value| <= |w| && w[..|own.value|] == own.value
  {
    if C.DecodedOffer(w).Some? { OfferReads(w); }
    if C.DecodedExtension(w).Some? { ExtensionReads(w); }
  }

  lemma OfferReads(w: Bytes)
    requires C.DecodedOffer(w).Some?
    ensures w[0] == 1 && C.EncodedOffer(C.DecodedOffer(w).value) == Some(w)
  {
    hide LenUtf8, TextOf, C.ListOf, C.ListText, C.ListFits;
    TextReads(w[1..]);
    var (peerId, w1) := TextOf(w[1..]).value;
    ListReads(w1);
    var (addresses, w2) := C.ListOf(w1).value;
    ListReads(w2);
    var (protocols, w3) := C.ListOf(w2).value;
    assert w == w[..1] + w[1..];
    assert w == [1] + LenUtf8(peerId) + C.ListText(addresses) + C.ListText(protocols);
  }

  lemma ExtensionReads(w: Bytes)
    requires C.DecodedExtension(w).Some?
    ensures var own := C.EncodedExtension(C.DecodedExtension(w).value);
            w[0] == 3 && own.Some? && |own.value| <= |w| && w[..|own.value|] == own.value
  {
    hide LenUtf8, TextOf, C.ListOf, C.ListText, C.ListFits;
    TextReads(w[2..]);
    var (version, w1) := TextOf(w[2..]).value;
    ListReads(w1);
    var (features, rest) := C.ListOf(w1).value;
    assert w == w[..2] + w[2..];
    assert w == ([3, w[1]] + LenUtf8(version) + C.ListText(features)) + rest;
  }

  /** An offer, from the front: a 1, the peer, its addresses, its protocols, and no more; a text after its length, a list after its count. */
  lemma OfferLayout(o: C.Offer)
    requires C.OfferFits(o)
    ensures var w := C.EncodedOffer(o).value;
      && w != [] && w[0] == 1
      && TextOf(w[1..]).Some? && TextOf(w[1..]).value.0 == o.peerId
      && var w1 := TextOf(w[1..]).value.1;
      && C.ListOf(w1).Some? && C.ListOf(w1).value.0 == o.addresses
      && C.ListOf(C.ListOf(w1).value.1) == Some((o.protocols, []))
  {
    hide LenUtf8, C.ListText, TextOf, C.ListOf, C.ListFits;
    var w2 := C.ListText(o.protocols) + [];
    var w1 := C.ListText(o.addresses) + w2;
    var w := C.EncodedOffer(o).value;
    assert w[1..] == LenUtf8(o.peerId) + w1;
    TextRoundTrip(o.peerId, w1);
    C.ListRoundTrip(o.addresses, w2);
    C.ListRoundTrip(o.protocols, []);
  }

  /** An extension: a 3, the wire version, the version text, its features. */
  lemma ExtensionLayout(e: C.Extension)
    requires C.ExtensionFits(e)
    ensures var w := C.EncodedExtension(e).value;
      && |w| >= 2 && w[0] == 3 && w[1] == e.wire
      && TextOf(w[2..]).Some? && TextOf(w[2..]).value.0 == e.version
      && C.ListOf(TextOf(w[2..]).value.1) == Some((e.features, []))
  {
    hide LenUtf8, C.ListText, TextOf, C.ListOf, C.ListFits;
    var w := C.EncodedExtension(e).value;
    assert w[2..] == LenUtf8(e.version) + (C.ListText(e.features) + []);
    TextRoundTrip(e.version, C.ListText(e.features) + []);
    C.ListRoundTrip(e.features, []);
  }

  /** What four bytes hold is what is read off them. */
  lemma HeldIsRead(w: Bytes, v: uint32)
    requires |w| >= 4
    ensures Of32Le(w) == v <==> Holds(w, 0, 4, v)
  {
    if Of32Le(w) == v {
      Reads32(w);
      Holds4(w, 0, v);
    }
    if Holds(w, 0, 4, v) {
      assert Holds(w, 1, 3, v / 256) && Holds(w, 2, 2, v / 256 / 256) && Holds(w, 3, 1, v / 256 / 256 / 256);
      BytesOfWord(v);
    }
  }

  /** A text is read off the front exactly when four bytes hold its length and it follows them. */
  lemma TextIs(w: Bytes, text: Bytes, rest: Bytes)
    ensures TextOf(w) == Some((text, rest)) <==> |w| >= 4 && |text| < 0x1_0000_0000 && Holds(w, 0, 4, |text|) && w[4..] == text + rest
  {
    if |w| >= 4 && |text| < 0x1_0000_0000 { HeldIsRead(w, |text|); }
    hide Holds, Of32Le;
    if |w| >= 4 && w[4..] == text + rest {
      assert w[4..4 + |text|] == w[4..][..|text|] == text && w[4 + |text|..] == w[4..][|text|..] == rest;
    }
    if TextOf(w) == Some((text, rest)) { assert w[4..] == text + rest; }
  }

  /** A list begins with its count, low byte first. */
  lemma ListCounts(w: Bytes)
    requires C.ListOf(w).Some?
    ensures |w| >= 2 && w[0] as int + 0x100 * (w[1] as int) == |C.ListOf(w).value.0|
  {
    TextsRead(w[2..], Of16Le(w));
    hide C.TextsOf, C.Texts;
  }
}
