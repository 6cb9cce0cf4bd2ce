/**
 Capability payloads (src/L3/Capability.cpp): lists of length-prefixed strings, and the
 extension whose later fields may only be appended.
 */
module Capability {
  import opened Words
  import opened ChannelWire

  const OFFER: uint8 := 1
  const EXTENSION: uint8 := 3
  const MAX_ITEMS: nat := 0xFFFF

  datatype Offer = Offer(peerId: Bytes, addresses: seq<Bytes>, protocols: seq<Bytes>)
  datatype Extension = Extension(wire: uint8, version: Bytes, features: seq<Bytes>)

  // ------------------------------------------------------------ the wire form

  predicate TextFits(t: Bytes) {
    |t| < U32
  }

  predicate ListFits(items: seq<Bytes>) {
    |items| <= MAX_ITEMS && forall i :: 0 <= i < |items| ==> TextFits(items[i])
  }

  function Texts(items: seq<Bytes>): Bytes {
    if items == [] then [] else LenUtf8(items[0]) + Texts(items[1..])
  }

  function ListText(items: seq<Bytes>): Bytes {
    LeOf16(|items| % 0x1_0000) + Texts(items)
  }

  predicate OfferFits(o: Offer) {
    TextFits(o.peerId) && ListFits(o.addresses) && ListFits(o.protocols)
  }

  function EncodedOffer(o: Offer): Option<Bytes> {
    if OfferFits(o) then Some([OFFER] + LenUtf8(o.peerId) + ListText(o.addresses) + ListText(o.protocols)) else None
  }

  predicate ExtensionFits(e: Extension) {
    TextFits(e.version) && ListFits(e.features)
  }

  function EncodedExtension(e: Extension): Option<Bytes> {
    if ExtensionFits(e) then Some([EXTENSION, e.wire] + LenUtf8(e.version) + ListText(e.features)) else None
  }

  /** `n` strings from the front, and what follows them. */
  function TextsOf(w: Bytes, n: nat): Option<(seq<Bytes>, Bytes)> {
    if n == 0 then Some(([], w))
    else
      match TextOf(w)
      case None => None
      case Some((text, rest)) =>
        match TextsOf(rest, n - 1)
        case None => None
        case Some((texts, after)) => Some(([text] + texts, after))
  }

  function ListOf(w: Bytes): Option<(seq<Bytes>, Bytes)> {
    if |w| < 2 then None else TextsOf(w[2..], Of16Le(w))
  }

  function DecodedOffer(w: Bytes): Option<Offer> {
    if w == [] || w[0] != OFFER then None
    else
      match TextOf(w[1..])
      case None => None
      case Some((peerId, w1)) =>
        match ListOf(w1)
        case None => None
        case Some((addresses, w2)) =>
          match ListOf(w2)
          case None => None
          case Some((protocols, w3)) => if w3 == [] then Some(Offer(peerId, addresses, protocols)) else None
  }

  function DecodedExtension(w: Bytes): Option<Extension> {
    if |w| < 2 || w[0] != EXTENSION then None
    else
      match TextOf(w[2..])
      case None => None
      case Some((version, w1)) =>
        match ListOf(w1)
        case None => None
        case Some((features, _)) => Some(Extension(w[1], version, features))
  }

  // ------------------------------------------------------------ the code

  method AppendStringList(out: Bytes, items: seq<Bytes>) returns (longer: Option<Bytes>)
    ensures longer == if ListFits(items) then Some(out + ListText(items)) else None
  {
    hide LenUtf8, LeOf16;
    if |items| > MAX_ITEMS {
      return None;
    }
    var texts: Bytes := [];
    var i := 0;
    while i < |items|
      invariant 0 <= i <= |items| && forall j :: 0 <= j < i ==> TextFits(items[j])
      invariant texts + Texts(items[i..]) == Texts(items)
    {
      var text := EncodeLenUtf8Le(items[i]);
      if text.None? {
        return None;
      }
      assert items[i..][1..] == items[i + 1..];
      assert texts + (text.value + Texts(items[i + 1..])) == (texts + text.value) + Texts(items[i + 1..]);
      texts := texts + text.value;
      i := i + 1;
    }
    assert items[|items|..] == [] && texts == Texts(items);
    longer := Some(out + (LeOf16(|items|) + texts));
  }

  method ReadStringList(wire: Bytes) returns (items: Option<seq<Bytes>>, rest: Bytes)
    ensures match ListOf(wire)
            case None => items == None
            case Some((list, after)) => items == Some(list) && rest == after
  {
    hide TextOf, Of16Le;
    var count, span := ReadU16(wire);
    if count.None? {
      return None, wire;
    }
    var list: seq<Bytes> := [];
    var i := 0;
    assert ListOf(wire).Some? ==> list + ListOf(wire).value.0 == ListOf(wire).value.0;
    while i < count.value
      invariant 0 <= i <= count.value
      invariant match TextsOf(span, count.value - i)
                case None => ListOf(wire) == None
                case Some((texts, after)) => ListOf(wire) == Some((list + texts, after))
    {
      var text, consumed := DecodeLenUtf8Le(span);
      if text.None? {
        return None, wire;
      }
      ghost var tail := TextsOf(span[consumed..], count.value - i - 1);
      assert tail.Some? ==> list + ([text.value] + tail.value.0) == (list + [text.value]) + tail.value.0;
      list := list + [text.value];
      span := span[consumed..];
      i := i + 1;
    }
    assert list + [] == list;
    return Some(list), span;
  }

  method EncodeOffer(o: Offer) returns (out: Option<Bytes>)
    ensures out == EncodedOffer(o)
  {
    hide LenUtf8, ListText, ListFits;
    var peer := EncodeLenUtf8Le(o.peerId);
    if peer.None? {
      return None;
    }
    var addressed := AppendStringList([OFFER] + peer.value, o.addresses);
    if addressed.None? {
      return None;
    }
    out := AppendStringList(addressed.value, o.protocols);
  }

  method DecodeOffer(wire: Bytes) returns (o: Option<Offer>)
    ensures o == DecodedOffer(wire)
  {
    hide TextOf, ListOf;
    if wire == [] || wire[0] != OFFER {
      return None;
    }
    var peer, consumed := DecodeLenUtf8Le(wire[1..]);
    if peer.None? {
      return None;
    }
    var addresses, afterAddresses := ReadStringList(wire[1..][consumed..]);
    if addresses.None? {
      return None;
    }
    var protocols, rest := ReadStringList(afterAddresses);
    if protocols.None? || rest != [] {
      return None;
    }
    o := Some(Offer(peer.value, addresses.value, protocols.value));
  }

  method EncodeExtension(e: Extension) returns (out: Option<Bytes>)
    ensures out == EncodedExtension(e)
  {
    hide LenUtf8, ListText, ListFits;
    var version := EncodeLenUtf8Le(e.version);
    if version.None? {
      return None;
    }
    out := AppendStringList([EXTENSION, e.wire] + version.value, e.features);
  }

  method DecodeExtension(wire: Bytes) returns (e: Option<Extension>)
    ensures e == DecodedExtension(wire)
  {
    hide TextOf, ListOf;
    if |wire| < 2 || wire[0] != EXTENSION {
      return None;
    }
    var version, consumed := DecodeLenUtf8Le(wire[2..]);
    if version.None? {
      return None;
    }
    var features, rest := ReadStringList(wire[2..][consumed..]);
    if features.None? {
      return None;
    }
    e := Some(Extension(wire[1], version.value, features.value));
  }

  // ------------------------------------------------------------ round trips

  lemma {:induction false} TextsRoundTrip(items: seq<Bytes>, rest: Bytes)
    requires forall i :: 0 <= i < |items| ==> TextFits(items[i])
    ensures TextsOf(Texts(items) + rest, |items|) == Some((items, rest))
  {
    if items == [] {
      assert Texts(items) + rest == rest;
    } else {
      assert TextFits(items[0]);
      assert Texts(items) + rest == LenUtf8(items[0]) + (Texts(items[1..]) + rest);
      TextRoundTrip(items[0], Texts(items[1..]) + rest);
      hide LenUtf8, TextOf;
      TextsRoundTrip(items[1..], rest);
      assert [items[0]] + items[1..] == items;
    }
  }

  lemma ListRoundTrip(items: seq<Bytes>, rest: Bytes)
    requires ListFits(items)
    ensures ListOf(ListText(items) + rest) == Some((items, rest))
  {
    var w := ListText(items) + rest;
    assert w == LeOf16(|items|) + (Texts(items) + rest);
    assert w[2..] == Texts(items) + rest;
    RoundTrip16(|items|, Texts(items) + rest);
    hide LeOf16, Of16Le, Texts, TextsOf;
    TextsRoundTrip(items, rest);
  }

  /** An offer with any lists comes back as it went in; a longer or shorter wire is refused by neither more nor less than its bytes. */
  lemma OfferRoundTrip(o: Offer, suffix: Bytes)
    requires OfferFits(o)
    ensures DecodedOffer(EncodedOffer(o).value + suffix) == if suffix == [] then Some(o) else None
  {
    hide LenUtf8, ListText, TextOf, ListOf, ListFits;
    var w2 := ListText(o.protocols) + suffix;
    var w1 := ListText(o.addresses) + w2;
    var w := EncodedOffer(o).value + suffix;
    assert w == [OFFER] + (LenUtf8(o.peerId) + w1);
    assert w[1..] == LenUtf8(o.peerId) + w1;
    TextRoundTrip(o.peerId, w1);
    ListRoundTrip(o.addresses, w2);
    ListRoundTrip(o.protocols, suffix);
  }

  /** An extension comes back whatever a later version appended to it. */
  lemma ExtensionIgnoresSuffix(e: Extension, suffix: Bytes)
    requires ExtensionFits(e)
    ensures DecodedExtension(EncodedExtension(e).value + suffix) == Some(e)
    ensures DecodedOffer(EncodedExtension(e).value + suffix) == None
  {
    hide LenUtf8, ListText, TextOf, ListOf, ListFits;
    var w1 := ListText(e.features) + suffix;
    var w := EncodedExtension(e).value + suffix;
    assert w == [EXTENSION, e.wire] + (LenUtf8(e.version) + w1);
    assert w[2..] == LenUtf8(e.version) + w1;
    TextRoundTrip(e.version, w1);
    ListRoundTrip(e.features, suffix);
  }
}
