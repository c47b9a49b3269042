/**
 * The cryptographic primitives the adapters call, kept opaque.
 *
 * The key derivation is PBKDF2 with HMAC-SHA-256, 4096 iterations and a 32-byte
 * output (RFC 8018, section 5.2). Each adapter runs a 16-byte block cipher (AES,
 * Twofish or Serpent) in GCM mode (NIST SP 800-38D, sections 7.1 and 7.2). None
 * of these is defined here: a `Suite` carries them as function values, and the
 * laws the model relies on are stated by `SuiteLaws`, which the lemmas that need
 * them take as a hypothesis.
 */
module Primitives {
  import opened Types

  /** Length of the derived key: `pbkdf2.Key(password, salt, 4096, 32, sha256.New)`. */
  const KeyLen: nat := 32
  /** Nonce length of `cipher.NewGCM` (the standard GCM nonce size). */
  const NonceSize: nat := 12
  /** Length of the GCM authentication tag appended by `Seal`. */
  const TagSize: nat := 16
  /** The only block size `cipher.NewGCM` accepts. */
  const GcmBlockSize: nat := 16

  /** Password-based key derivation: (password, salt) to key. */
  type Kdf = (Bytes, Bytes) -> Bytes

  /**
   * One block cipher in GCM mode.
   *   acceptsKey: whether the block-cipher constructor accepts the key
   *   blockSize:  the block size it reports to cipher.NewGCM
   *   seal/open:  GCM authenticated encryption / decryption (key, nonce, input),
   *               with no additional data
   */
  datatype Gcm = Gcm(
    acceptsKey: Bytes -> bool,
    blockSize: nat,
    seal: (Bytes, Bytes, Bytes) -> Bytes,
    open: (Bytes, Bytes, Bytes) -> Option<Bytes>)

  /** Everything the three adapters call into: one KDF and three block ciphers in GCM mode. */
  datatype Suite = Suite(kdf: Kdf, aes: Gcm, twofish: Gcm, serpent: Gcm)

  /** The derived key always has the configured length. */
  ghost predicate KdfLaws(kdf: Kdf)
  {
    forall password, salt :: |kdf(password, salt)| == KeyLen
  }

  /**
   * The block cipher accepts 32-byte keys and has 16-byte blocks; `open` inverts
   * `seal` under the same key and nonce, and `seal` adds exactly one tag.
   */
  ghost predicate GcmLaws(g: Gcm)
  {
    && g.blockSize == GcmBlockSize
    && (forall key :: |key| == KeyLen ==> g.acceptsKey(key))
    && (forall key, nonce, p ::
          |g.seal(key, nonce, p)| == |p| + TagSize && g.open(key, nonce, g.seal(key, nonce, p)) == Some(p))
  }

  ghost predicate SuiteLaws(s: Suite)
  {
    KdfLaws(s.kdf) && GcmLaws(s.aes) && GcmLaws(s.twofish) && GcmLaws(s.serpent)
  }

  /**
   * A draw of `n` bytes from the secure random source: `io.ReadFull` either
   * fills the whole buffer or fails (None).
   */
  predicate FullRead(draw: Option<Bytes>, n: nat)
  {
    draw.Some? ==> |draw.value| == n
  }
}
