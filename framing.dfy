/**
 * Byte layouts around the AEAD and the signatures: M5 sends ciphertext followed
 * by the 16-byte authentication tag, M6 is split at length - 16, and the signed
 * material is derived key, pairing identifier and long-term public key in a row.
 */
module Framing {
  import opened Wrappers
  import opened Wire

  const AuthTagLength := 16
  const DerivedKeyLength := 32

  /** EncryptedData of M5: the ciphertext buffer then the tag buffer. */
  function SealedPayload(ciphertext: Bytes, tag: Bytes): Bytes
  {
    ciphertext + tag
  }

  datatype Split = Split(ciphertext: Bytes, tag: Bytes)

  /**
   * M6's split of EncryptedData into message and authentication tag. Below
   * 16 bytes the message buffer would have negative size, which the model
   * reports as None.
   */
  function SplitSealed(encrypted: Bytes): (r: Option<Split>)
    ensures r.Some? <==> |encrypted| >= AuthTagLength
    ensures r.Some? ==> |r.value.tag| == AuthTagLength
    ensures r.Some? ==> SealedPayload(r.value.ciphertext, r.value.tag) == encrypted
  {
    if |encrypted| < AuthTagLength then None
    else Some(Split(encrypted[..|encrypted| - AuthTagLength], encrypted[|encrypted| - AuthTagLength..]))
  }

  /** Splitting undoes the concatenation of a ciphertext with a 16-byte tag. */
  lemma SplitInvertsSeal(ciphertext: Bytes, tag: Bytes)
    requires |tag| == AuthTagLength
    ensures SplitSealed(SealedPayload(ciphertext, tag)) == Some(Split(ciphertext, tag))
  {
  }

  /** The bytes that are signed (M5) or verified (M6). */
  function SignedMaterial(derived: Bytes, pairingId: Bytes, ltpk: Bytes): Bytes
  {
    derived + pairingId + ltpk
  }

  /** With a 32-byte derived key, each part sits at a fixed place in the material. */
  lemma SignedMaterialFields(derived: Bytes, pairingId: Bytes, ltpk: Bytes)
    requires |derived| == DerivedKeyLength
    ensures var m := SignedMaterial(derived, pairingId, ltpk);
      && |m| == DerivedKeyLength + |pairingId| + |ltpk|
      && m[..DerivedKeyLength] == derived
      && m[DerivedKeyLength..DerivedKeyLength + |pairingId|] == pairingId
      && m[DerivedKeyLength + |pairingId|..] == ltpk
  {
  }

  /**
   * A fact about the layout only: nothing else in the model relies on it.
   * For identifiers of one length (a UUID string is always 36 bytes), equal
   * material means equal derived key, identifier and public key.
   */
  lemma SignedMaterialInjective(d1: Bytes, id1: Bytes, k1: Bytes, d2: Bytes, id2: Bytes, k2: Bytes)
    requires |d1| == DerivedKeyLength && |d2| == DerivedKeyLength && |id1| == |id2|
    requires SignedMaterial(d1, id1, k1) == SignedMaterial(d2, id2, k2)
    ensures d1 == d2 && id1 == id2 && k1 == k2
  {
    SignedMaterialFields(d1, id1, k1);
    SignedMaterialFields(d2, id2, k2);
  }
}
