/**
 * The cryptographic collaborators, kept as black boxes: the SRP-6a client of
 * RFC 5054 (3072-bit group), HKDF-SHA512 of RFC 5869, Ed25519 of RFC 8032, the
 * ChaCha20-Poly1305 seal/open of the encryption module, and the TLV8 codec.
 * Only the lengths of their outputs that the handshake relies on are stated.
 */
module Crypto {
  import opened Wrappers
  import opened Wire

  /** The SRP client object: built from the salt, identity, password and private value; B is set afterwards. */
  datatype SrpClient = SrpClient(salt: Bytes, identity: string, password: Bytes, secret: Bytes, serverPublicKey: Option<Bytes>)

  datatype Keypair = Keypair(privateKey: Bytes, publicKey: Bytes)

  /** What encryptAndSeal writes into its two output buffers. */
  datatype Sealed = Sealed(ciphertext: Bytes, tag: Bytes)

  datatype Primitives = Primitives(
    encode: Tlv8 -> Bytes,
    decode: Bytes -> Tlv8,
    computeA: SrpClient -> Bytes,
    computeM1: SrpClient -> Bytes,
    computeK: SrpClient -> Bytes,
    checkM2: (SrpClient, Option<Bytes>) -> bool,   // false: checkM2 throws
    hkdf: (string, Bytes, string) -> Bytes,         // salt label, input key, info label; 32 bytes out
    makeKeypair: Bytes -> Keypair,
    sign: (Bytes, Bytes) -> Bytes,                  // message, private key
    verify: (Bytes, Bytes, Bytes) -> bool,          // message, signature, public key
    seal: (Bytes, string, Bytes) -> Sealed,         // key, nonce label, plaintext
    open: (Bytes, string, Bytes, Bytes) -> Bytes)   // key, nonce label, ciphertext, tag; the plaintext buffer
  {
    /**
     * The output sizes the handshake fixes: HKDF is asked for 32 bytes, and
     * encryptAndSeal fills a ciphertext buffer of the plaintext's length and a
     * 16-byte tag buffer.
     */
    ghost predicate Sound()
    {
      && (forall salt, ikm, info :: |hkdf(salt, ikm, info)| == 32)
      && (forall key, nonce, plaintext ::
            |seal(key, nonce, plaintext).ciphertext| == |plaintext| && |seal(key, nonce, plaintext).tag| == 16)
    }
  }
}
