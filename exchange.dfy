/**
 * The key schedule and the mutual authentication of M5 and M6. Every derived
 * value is HKDF-SHA512 over the SRP shared secret with a fixed salt and info label.
 */
module Exchange {
  import opened Wrappers
  import opened Wire
  import opened Faults
  import opened Crypto
  import opened Framing

  const SrpIdentity := "Pair-Setup"
  const ControllerSignSalt := "Pair-Setup-Controller-Sign-Salt"
  const ControllerSignInfo := "Pair-Setup-Controller-Sign-Info"
  const EncryptSalt := "Pair-Setup-Encrypt-Salt"
  const EncryptInfo := "Pair-Setup-Encrypt-Info"
  const AccessorySignSalt := "Pair-Setup-Accessory-Sign-Salt"
  const AccessorySignInfo := "Pair-Setup-Accessory-Sign-Info"
  const M5Nonce := "PS-Msg05"
  const M6Nonce := "PS-Msg06"

  /**
   * The key that seals M5 and opens M6. Its length is the one that sound
   * primitives give every HKDF output.
   */
  function SessionKey(p: Primitives, sharedSecret: Bytes): (k: Bytes)
    ensures p.Sound() ==> |k| == DerivedKeyLength
  {
    p.hkdf(EncryptSalt, sharedSecret, EncryptInfo)
  }

  /** What the controller signs: its derived signing context, pairing identifier and LTPK. */
  function ControllerMaterial(p: Primitives, sharedSecret: Bytes, pairingId: Bytes, ltpk: Bytes): Bytes
  {
    SignedMaterial(p.hkdf(ControllerSignSalt, sharedSecret, ControllerSignInfo), pairingId, ltpk)
  }

  /** The inner TLV of M5: identifier, LTPK and the signature over the controller material. */
  function ControllerSubTlv(p: Primitives, sharedSecret: Bytes, pairingId: Bytes, keys: Keypair): Tlv8
  {
    var signature := p.sign(ControllerMaterial(p, sharedSecret, pairingId, keys.publicKey), keys.privateKey);
    ControllerInfo(pairingId, keys.publicKey, signature)
  }

  /**
   * EncryptedData of M5. It is one tag longer than the encoded inner TLV, and
   * M6's split recovers exactly the ciphertext and tag that sealing produced.
   */
  function ControllerEncryptedData(p: Primitives, sharedSecret: Bytes, pairingId: Bytes, keys: Keypair): (enc: Bytes)
    ensures p.Sound() ==>
      var inner := p.encode(ControllerSubTlv(p, sharedSecret, pairingId, keys));
      var sealed := p.seal(SessionKey(p, sharedSecret), M5Nonce, inner);
      && |enc| == |inner| + AuthTagLength
      && SplitSealed(enc) == Some(Split(sealed.ciphertext, sealed.tag))
  {
    var inner := p.encode(ControllerSubTlv(p, sharedSecret, pairingId, keys));
    var sealed := p.seal(SessionKey(p, sharedSecret), M5Nonce, inner);
    SealedPayload(sealed.ciphertext, sealed.tag)
  }

  /** The accessory's inner TLV, as decoded from the plaintext buffer of M6. */
  function AccessoryInfo(p: Primitives, key: Bytes, split: Split): Tlv8
  {
    p.decode(p.open(key, M6Nonce, split.ciphertext, split.tag))
  }

  /** What the accessory's signature must cover. */
  function AccessoryMaterial(p: Primitives, sharedSecret: Bytes, pairingId: Bytes, ltpk: Bytes): Bytes
  {
    SignedMaterial(p.hkdf(AccessorySignSalt, sharedSecret, AccessorySignInfo), pairingId, ltpk)
  }

  datatype Verdict =
    | Accepted(pairingId: Bytes, ltpk: Bytes)
    | SignatureRejected
    | Failed(fault: Fault)

  /**
   * The checks of M6 in the order the handler runs them. The verdict of
   * decryption is not consulted, so a wrong tag only shows up as whatever the
   * plaintext buffer decodes to.
   */
  function VerifyAccessory(p: Primitives, tlv: Tlv8, encryptionKey: Option<Bytes>, sharedSecret: Option<Bytes>): (v: Verdict)
    ensures EncryptedData !in tlv ==> v == Failed(TypeError)
    ensures EncryptedData in tlv && |tlv[EncryptedData]| < AuthTagLength ==> v == Failed(RangeError)
    ensures EncryptedData in tlv && |tlv[EncryptedData]| >= AuthTagLength ==>
      && (encryptionKey.None? ==> v == Failed(UndefinedArgument))
      && (encryptionKey.Some? ==>
            var info := AccessoryInfo(p, encryptionKey.value, SplitSealed(tlv[EncryptedData]).value);
            && (sharedSecret.None? ==> v == Failed(UndefinedArgument))
            && (sharedSecret.Some? && (Identifier !in info || PublicKey !in info) ==> v == Failed(TypeError))
            && (sharedSecret.Some? && Identifier in info && PublicKey in info && Signature !in info ==>
                  v == Failed(UndefinedArgument))
            && (sharedSecret.Some? && Identifier in info && PublicKey in info && Signature in info ==>
                  !v.Failed?))
    ensures !v.Failed? ==>
      && EncryptedData in tlv
      && SplitSealed(tlv[EncryptedData]).Some?
      && encryptionKey.Some? && sharedSecret.Some?
      && var info := AccessoryInfo(p, encryptionKey.value, SplitSealed(tlv[EncryptedData]).value);
      && Identifier in info && PublicKey in info && Signature in info
      && (v.Accepted? <==>
            p.verify(AccessoryMaterial(p, sharedSecret.value, info[Identifier], info[PublicKey]), info[Signature], info[PublicKey]))
      && (v.Accepted? ==> v.pairingId == info[Identifier] && v.ltpk == info[PublicKey])
  {
    if EncryptedData !in tlv then Failed(TypeError)
    else match SplitSealed(tlv[EncryptedData])
      case None => Failed(RangeError)
      case Some(split) =>
        if encryptionKey.None? then Failed(UndefinedArgument)
        else
          var info := AccessoryInfo(p, encryptionKey.value, split);
          if sharedSecret.None? then Failed(UndefinedArgument)
          else if Identifier !in info || PublicKey !in info then Failed(TypeError)
          else if Signature !in info then Failed(UndefinedArgument)
          else if !p.verify(AccessoryMaterial(p, sharedSecret.value, info[Identifier], info[PublicKey]), info[Signature], info[PublicKey])
          then SignatureRejected
          else Accepted(info[Identifier], info[PublicKey])
  }
}
