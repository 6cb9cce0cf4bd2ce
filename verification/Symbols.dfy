/**
 Symbolic bytes for the handshake: what the two honest ends and anybody else can put
 on the wire, under ideal cryptography.

 A symbol is a plain byte, or the i-th byte of a public key, nonce, ciphertext,
 identity, signature or MAC. Hash and MAC are injective; a KEM secret is known to
 outsiders only if it was made for a key that is not an honest end's, or by somebody
 else; a signature of an honest identity comes from its owner only. The sizes are
 those of ML-KEM-768 (FIPS 203) and ML-DSA-65 (FIPS 204).
 */
module Symbols {
  import opened Words

  const KEM_KEY_BYTES: nat := 1184
  const KEM_CIPHER_BYTES: nat := 1088
  const IDENTITY_BYTES: nat := 1952
  const SIGNATURE_BYTES: nat := 3309
  const NONCE_BYTES: nat := 32
  const MAC_BYTES: nat := 32

  /** The dialing end and the answering end. */
  datatype End = Initiator | Responder

  type Text = seq<Symbol>

  datatype Symbol =
    | Plain(b: uint8)
    | KeyByte(owner: End, i: int)
    | NonceByte(maker: End, i: int)
    | CipherByte(maker: End, round: nat, forKey: Text, i: int)
    | IdentityByte(who: End, i: int)
    | SignatureByte(signer: End, signed: Text, i: int)
    | MacByte(master: Master, input: Text, i: int)

  /** A KEM shared secret: encapsulated by an honest end to some key, or got from a ciphertext no honest end made. */
  datatype Shared = Made(maker: End, round: nat, forKey: Text) | Foreign(taker: End, cipher: Text)

  /** The two shared secrets side by side, client's first. */
  datatype Master = Master(client: Shared, server: Shared)

  function KeyText(e: End): Text {
    seq(KEM_KEY_BYTES, i => KeyByte(e, i))
  }

  function NonceText(e: End): Text {
    seq(NONCE_BYTES, i => NonceByte(e, i))
  }

  function CipherText(maker: End, round: nat, forKey: Text): Text {
    seq(KEM_CIPHER_BYTES, i => CipherByte(maker, round, forKey, i))
  }

  function IdentityText(e: End): Text {
    seq(IDENTITY_BYTES, i => IdentityByte(e, i))
  }

  function SignatureText(e: End, signed: Text): Text {
    seq(SIGNATURE_BYTES, i => SignatureByte(e, signed, i))
  }

  function MacText(master: Master, input: Text): Text {
    seq(MAC_BYTES, i => MacByte(master, input, i))
  }

  /** Decapsulate with end e's own key. */
  function Decapsulated(e: End, c: Text): Shared {
    if c != [] && c[0].CipherByte? && c == CipherText(c[0].maker, c[0].round, KeyText(e))
    then Made(c[0].maker, c[0].round, KeyText(e))
    else Foreign(e, c)
  }

  /** Decapsulation undoes encapsulation. */
  lemma DecapsulatedMade(maker: End, round: nat, e: End)
    ensures Decapsulated(e, CipherText(maker, round, KeyText(e))) == Made(maker, round, KeyText(e))
  {
    assert CipherText(maker, round, KeyText(e))[0] == CipherByte(maker, round, KeyText(e), 0);
  }

  /** Whether an outsider can hold the secret. */
  predicate SharedKnown(s: Shared) {
    s.Foreign? || (s.forKey != KeyText(Initiator) && s.forKey != KeyText(Responder))
  }

  predicate MasterKnown(m: Master) {
    SharedKnown(m.client) && SharedKnown(m.server)
  }

  /**
   MlDsa::Verify. A signature of an honest identity verifies only if it is that
   identity's on that message; for any other identity it is taken to verify.
   */
  predicate Verifies(identity: Text, signed: Text, signature: Text) {
    && (identity == IdentityText(Initiator) ==> signature == SignatureText(Initiator, signed))
    && (identity == IdentityText(Responder) ==> signature == SignatureText(Responder, signed))
  }

  /** Concat of all parts: what the transcript hash is fed. */
  function Concat(parts: seq<Text>): Text {
    if parts == [] then [] else Concat(parts[..|parts| - 1]) + parts[|parts| - 1]
  }

  function LengthOf(parts: seq<Text>): nat {
    if parts == [] then 0 else LengthOf(parts[..|parts| - 1]) + |parts[|parts| - 1]|
  }

  lemma {:induction false} ConcatLength(parts: seq<Text>)
    ensures |Concat(parts)| == LengthOf(parts)
  {
    if parts != [] { ConcatLength(parts[..|parts| - 1]); }
  }

  /** Parts of the same sizes are told apart by their concatenation. */
  lemma {:induction false} ConcatUnambiguous(a: seq<Text>, b: seq<Text>)
    requires |a| == |b| && Concat(a) == Concat(b)
    requires forall i :: 0 <= i < |a| ==> |a[i]| == |b[i]|
    ensures a == b
  {
    if a != [] {
      var n := |a| - 1;
      ConcatLength(a[..n]);
      ConcatLength(b[..n]);
      SameSizes(a[..n], b[..n]);
      var x, y := Concat(a), Concat(b);
      assert Concat(a[..n]) == x[..LengthOf(a[..n])] && a[n] == x[LengthOf(a[..n])..];
      assert Concat(b[..n]) == y[..LengthOf(b[..n])] && b[n] == y[LengthOf(b[..n])..];
      ConcatUnambiguous(a[..n], b[..n]);
      assert a == a[..n] + [a[n]] && b == b[..n] + [b[n]];
    }
  }

  lemma {:induction false} SameSizes(a: seq<Text>, b: seq<Text>)
    requires |a| == |b| && forall i :: 0 <= i < |a| ==> |a[i]| == |b[i]|
    ensures LengthOf(a) == LengthOf(b)
  {
    if a != [] { SameSizes(a[..|a| - 1], b[..|b| - 1]); }
  }
}
