/**
 Session keys, nonces and rekey grace (src/L2/Session.cpp, src/L2/SessionCrypto.cpp, src/L2/SessionKeys.cpp).

 Ideal cryptography: a derived key is the tuple it is derived from, and an AEAD ciphertext
 opens under its own key, nonce and header only.
 */
module Session {
  import opened Words

  const NONCE_BYTES := 24
  const REKEY_GRACE_MS := 1000

  datatype Direction = InitiatorToResponder | ResponderToInitiator
  datatype Space = BestEffort | Reliable | CarrierBestEffort | CarrierReliable

  function DirectionByte(d: Direction): uint8 {
    if d.InitiatorToResponder? then 0 else 1
  }

  function SpaceByte(s: Space): uint8 {
    match s
    case BestEffort => 0
    case Reliable => 1
    case CarrierBestEffort => 2
    case CarrierReliable => 3
  }

  /** Direction, space, epoch (four bytes), number (four bytes), then zeros. */
  function Nonce(d: Direction, s: Space, epoch: uint32, number: uint32): Bytes {
    [DirectionByte(d), SpaceByte(s)] + LeOf32(epoch) + LeOf32(number) + seq(14, _ => 0)
  }

  /** PacketNonce: fills the array byte by byte. */
  method PacketNonce(d: Direction, s: Space, epoch: uint32, number: uint32) returns (nonce: array<uint8>)
    ensures nonce.Length == NONCE_BYTES && nonce[..] == Nonce(d, s, epoch, number)
  {
    nonce := new uint8[NONCE_BYTES](_ => 0);
    nonce[0] := DirectionByte(d);
    nonce[1] := SpaceByte(s);
    for i := 0 to 4
      invariant nonce[0] == DirectionByte(d) && nonce[1] == SpaceByte(s)
      invariant forall j :: 0 <= j < i ==> nonce[2 + j] == LeOf32(epoch)[j] && nonce[6 + j] == LeOf32(number)[j]
      invariant forall j :: 10 <= j < NONCE_BYTES ==> nonce[j] == 0
    {
      nonce[2 + i] := ByteAt(epoch, i);
      nonce[6 + i] := ByteAt(number, i);
    }
    assert nonce[..] == Nonce(d, s, epoch, number);
  }

  /** `static_cast<uint8_t>(v >> (8 * i))`. */
  function ByteAt(v: uint32, i: nat): (b: uint8)
    requires i < 4
    ensures b == LeOf32(v)[i]
  {
    if i == 0 then v % 0x100 else if i == 1 then v / 0x100 % 0x100 else if i == 2 then v / 0x1_0000 % 0x100 else v / 0x100_0000
  }

  /** Nonces repeat only for the same direction, space, epoch and number. */
  lemma NonceInjective(
    d: Direction, s: Space, epoch: uint32, number: uint32, d': Direction, s': Space, epoch': uint32, number': uint32)
    requires Nonce(d, s, epoch, number) == Nonce(d', s', epoch', number')
    ensures d == d' && s == s' && epoch == epoch' && number == number'
  {
    var a, b := Nonce(d, s, epoch, number), Nonce(d', s', epoch', number');
    assert a[0] == b[0] && a[1] == b[1];
    assert a[2..6] == LeOf32(epoch) + [] && b[2..6] == LeOf32(epoch') + [];
    assert a[6..10] == LeOf32(number) + [] && b[6..10] == LeOf32(number') + [];
    RoundTrip32(epoch, []);
    RoundTrip32(epoch', []);
    RoundTrip32(number, []);
    RoundTrip32(number', []);
  }

  // ------------------------------------------------------------ keys

  datatype Secret = Secret(masterIkm: Bytes, transcriptHash: Bytes)
  datatype KeyRole = Client | Server
  datatype Key = Key(secret: Secret, role: KeyRole, epoch: uint32)

  /** Send and receive key of one end at one epoch. */
  function SendKey(secret: Secret, initiator: bool, epoch: uint32): Key {
    Key(secret, if initiator then Client else Server, epoch)
  }

  function RecvKey(secret: Secret, initiator: bool, epoch: uint32): Key {
    Key(secret, if initiator then Server else Client, epoch)
  }

  datatype Sealed = Sealed(key: Key, nonce: Bytes, header: Bytes, plaintext: Bytes)

  function OpenUnder(key: Key, nonce: Bytes, header: Bytes, s: Sealed): Option<Bytes> {
    if s.key == key && s.nonce == nonce && s.header == header then Some(s.plaintext) else None
  }

  // ------------------------------------------------------------ the session

  datatype SessionState = SessionState(
    secret: Secret, initiator: bool, epoch: uint32, kSend: Key, kRecv: Key, previousRecv: Option<Key>, graceUntilMs: int)

  function Established(secret: Secret, initiator: bool): SessionState {
    SessionState(secret, initiator, 1, SendKey(secret, initiator, 1), RecvKey(secret, initiator, 1), None, 0)
  }

  function OutDirection(initiator: bool): Direction {
    if initiator then InitiatorToResponder else ResponderToInitiator
  }

  function InDirection(initiator: bool): Direction {
    if initiator then ResponderToInitiator else InitiatorToResponder
  }

  predicate HasGrace(s: SessionState, nowMs: int) {
    s.previousRecv.Some? && nowMs > 0 && nowMs <= s.graceUntilMs
  }

  function SealPacket(s: SessionState, space: Space, number: uint32, header: Bytes, plaintext: Bytes): Sealed {
    Sealed(s.kSend, Nonce(OutDirection(s.initiator), space, s.epoch, number), header, plaintext)
  }

  function OpenPacket(s: SessionState, space: Space, number: uint32, header: Bytes, packet: Sealed, nowMs: int): Option<Bytes> {
    var now := OpenUnder(s.kRecv, Nonce(InDirection(s.initiator), space, s.epoch, number), header, packet);
    if now.Some? || !HasGrace(s, nowMs) then now
    else OpenUnder(s.previousRecv.value, Nonce(InDirection(s.initiator), space, Sub32(s.epoch, 1), number), header, packet)
  }

  /** ApplyRekey: to the next epoch only, keeping the old receive key for the grace window. */
  function AfterApply(s: SessionState, target: uint32, nowMs: int): (SessionState, bool) {
    if target != Add32(s.epoch, 1) then (s, false)
    else
      (s.(previousRecv := Some(s.kRecv), graceUntilMs := nowMs + REKEY_GRACE_MS, epoch := target,
          kSend := SendKey(s.secret, s.initiator, target), kRecv := RecvKey(s.secret, s.initiator, target)), true)
  }

  /** Rekey, on this end alone: the next epoch, and no grace key. */
  function AfterRekey(s: SessionState): SessionState {
    s.(epoch := Add32(s.epoch, 1), kSend := SendKey(s.secret, s.initiator, Add32(s.epoch, 1)),
       kRecv := RecvKey(s.secret, s.initiator, Add32(s.epoch, 1)), previousRecv := None, graceUntilMs := 0)
  }

  class AmpSession {
    const secret: Secret
    const initiator: bool
    var epoch: uint32
    var kSend: Key
    var kRecv: Key
    var previousRecvKey: Option<Key>
    var graceUntilMs: int

    ghost function State(): SessionState
      reads this
    {
      SessionState(secret, initiator, epoch, kSend, kRecv, previousRecvKey, graceUntilMs)
    }

    constructor (secret: Secret, initiator: bool)
      ensures State() == Established(secret, initiator)
    {
      this.secret, this.initiator := secret, initiator;
      epoch, kSend, kRecv := 1, SendKey(secret, initiator, 1), RecvKey(secret, initiator, 1);
      previousRecvKey, graceUntilMs := None, 0;
    }

    /** Rekey on this end alone: the grace key goes. */
    method Rekey()
      modifies this
      ensures State() == AfterRekey(old(State()))
    {
      epoch := Add32(epoch, 1);
      kSend, kRecv := SendKey(secret, initiator, epoch), RecvKey(secret, initiator, epoch);
      previousRecvKey := None;
      graceUntilMs := 0;
    }

    method ApplyRekey(target: uint32, nowMs: int) returns (ok: bool)
      modifies this
      ensures (State(), ok) == AfterApply(old(State()), target, nowMs)
    {
      if target != Add32(epoch, 1) {
        return false;
      }
      previousRecvKey := Some(kRecv);
      graceUntilMs := nowMs + REKEY_GRACE_MS;
      epoch := target;
      kSend, kRecv := SendKey(secret, initiator, epoch), RecvKey(secret, initiator, epoch);
      return true;
    }

    method Open(space: Space, number: uint32, header: Bytes, packet: Sealed, nowMs: int) returns (r: Option<Bytes>)
      ensures r == OpenPacket(State(), space, number, header, packet, nowMs)
    {
      var nonce := PacketNonce(InDirection(initiator), space, epoch, number);
      r := OpenUnder(kRecv, nonce[..], header, packet);
      if r.Some? || !(previousRecvKey.Some? && nowMs > 0 && nowMs <= graceUntilMs) {
        return;
      }
      var previousNonce := PacketNonce(InDirection(initiator), space, Sub32(epoch, 1), number);
      r := OpenUnder(previousRecvKey.value, previousNonce[..], header, packet);
    }
  }

  // ------------------------------------------------------------ what opens where

  /** A session's keys are those of its epoch, and its grace key, if any, the receive key of the epoch before. */
  predicate Consistent(s: SessionState) {
    && s.kSend == SendKey(s.secret, s.initiator, s.epoch)
    && s.kRecv == RecvKey(s.secret, s.initiator, s.epoch)
    && (s.previousRecv.Some? ==> s.previousRecv.value == RecvKey(s.secret, s.initiator, Sub32(s.epoch, 1)))
  }

  predicate Peers(a: SessionState, b: SessionState) {
    a.secret == b.secret && a.initiator != b.initiator && Consistent(a) && Consistent(b)
  }

  /** A packet sealed at epoch s opens at the peer's epoch r, to its own plaintext, iff s == r, or s == r - 1 inside the grace window. */
  lemma OpensWhere(a: SessionState, b: SessionState, space: Space, number: uint32, header: Bytes, plaintext: Bytes, nowMs: int)
    requires Peers(a, b)
    ensures var r := OpenPacket(b, space, number, header, SealPacket(a, space, number, header, plaintext), nowMs);
      r == if a.epoch == b.epoch || (Add32(a.epoch, 1) == b.epoch && HasGrace(b, nowMs)) then Some(plaintext) else None
  {
    hide Nonce;
    var packet := SealPacket(a, space, number, header, plaintext);
    assert OutDirection(a.initiator) == InDirection(b.initiator);
    if packet.nonce == Nonce(InDirection(b.initiator), space, b.epoch, number) {
      NonceInjective(OutDirection(a.initiator), space, a.epoch, number, InDirection(b.initiator), space, b.epoch, number);
    }
  }

  /** Opening under any other space, number or header fails: nothing sealed for one place opens in another. */
  lemma OpensOnlyInPlace(
    a: SessionState, b: SessionState, space: Space, number: uint32, header: Bytes, plaintext: Bytes,
    space': Space, number': uint32, header': Bytes, nowMs: int)
    requires Peers(a, b) && (space != space' || number != number' || header != header')
    ensures OpenPacket(b, space', number', header', SealPacket(a, space, number, header, plaintext), nowMs) == None
  {
    hide Nonce;
    var packet := SealPacket(a, space, number, header, plaintext);
    if packet.nonce == Nonce(InDirection(b.initiator), space', b.epoch, number') {
      NonceInjective(OutDirection(a.initiator), space, a.epoch, number, InDirection(b.initiator), space', b.epoch, number');
    }
    if packet.nonce == Nonce(InDirection(b.initiator), space', Sub32(b.epoch, 1), number') {
      NonceInjective(OutDirection(a.initiator), space, a.epoch, number, InDirection(b.initiator), space', Sub32(b.epoch, 1), number');
    }
  }

  /** An end's own packets never open at that end. */
  lemma NoReflection(a: SessionState, space: Space, number: uint32, header: Bytes, plaintext: Bytes, nowMs: int)
    requires Consistent(a)
    ensures OpenPacket(a, space, number, header, SealPacket(a, space, number, header, plaintext), nowMs) == None
  {
  }

  /** The nonce byte by byte: direction 0 from the initiator and 1 to it, space 0 to 3, epoch and number little-endian, zeros. */
  lemma NonceLayout(d: Direction, s: Space, epoch: uint32, number: uint32)
    ensures var n := Nonce(d, s, epoch, number);
      && |n| == 24 && n[0] == (if d.InitiatorToResponder? then 0 else 1)
      && n[1] == (match s case BestEffort => 0 case Reliable => 1 case CarrierBestEffort => 2 case CarrierReliable => 3)
      && n[2] == epoch % 0x100 && n[3] == epoch / 0x100 % 0x100 && n[4] == epoch / 0x1_0000 % 0x100 && n[5] == epoch / 0x100_0000
      && n[6] == number % 0x100 && n[7] == number / 0x100 % 0x100 && n[8] == number / 0x1_0000 % 0x100 && n[9] == number / 0x100_0000
      && forall i :: 10 <= i < 24 ==> n[i] == 0
  {
  }

  /** After a coordinated rekey at `rekeyMs` packets of the epoch before open for one second more, and no longer. */
  lemma GraceLasts(a: SessionState, b: SessionState, rekeyMs: int, space: Space, number: uint32, header: Bytes, plaintext: Bytes, nowMs: int)
    requires Peers(a, b) && a.epoch == b.epoch && a.epoch + 1 < U32
    ensures var (t, ok) := AfterApply(b, b.epoch + 1, rekeyMs);
      && ok && Peers(a, t) && t.epoch == b.epoch + 1
      && OpenPacket(t, space, number, header, SealPacket(a, space, number, header, plaintext), nowMs) ==
           if 0 < nowMs <= rekeyMs + 1000 then Some(plaintext) else None
  {
    var t := AfterApply(b, b.epoch + 1, rekeyMs).0;
    OpensWhere(a, t, space, number, header, plaintext, nowMs);
    hide OpenPacket, SealPacket;
  }

  /** ApplyRekey to any other epoch does nothing. */
  lemma OnlyTheNextEpoch(s: SessionState, target: uint32, nowMs: int)
    requires target != (s.epoch + 1) % 0x1_0000_0000
    ensures AfterApply(s, target, nowMs) == (s, false)
  {
  }

  /** A rekey on one end alone shuts out the epoch before at once; with both ends rekeyed they understand each other again. */
  lemma OwnRekeyShutsOut(a: SessionState, b: SessionState, space: Space, number: uint32, header: Bytes, plaintext: Bytes, nowMs: int)
    requires Peers(a, b) && a.epoch == b.epoch && a.epoch + 1 < U32
    ensures OpenPacket(AfterRekey(b), space, number, header, SealPacket(a, space, number, header, plaintext), nowMs) == None
    ensures OpenPacket(AfterRekey(b), space, number, header, SealPacket(AfterRekey(a), space, number, header, plaintext), nowMs) == Some(plaintext)
  {
    OpensWhere(a, AfterRekey(b), space, number, header, plaintext, nowMs);
    OpensWhere(AfterRekey(a), AfterRekey(b), space, number, header, plaintext, nowMs);
    hide OpenPacket, SealPacket;
  }

  /** The initiator sends as the client and the responder as the server, each under its own way's nonces, and receives as the other. */
  lemma KeysByRole(secret: Secret, epoch: uint32)
    ensures SendKey(secret, true, epoch) == RecvKey(secret, false, epoch) == Key(secret, Client, epoch)
    ensures SendKey(secret, false, epoch) == RecvKey(secret, true, epoch) == Key(secret, Server, epoch)
    ensures OutDirection(true) == InDirection(false) == InitiatorToResponder && OutDirection(false) == InDirection(true) == ResponderToInitiator
  {
  }
}
