/**
 * The three cipher adapters (AES256, Twofish, Serpent). They share one shape and
 * differ only in the block cipher, so they are one tagged datatype whose member
 * `Mode` picks that cipher's GCM instance out of the primitive suite.
 *
 * Payload layout written by Encrypt and read by Decrypt:
 *   nonce (NonceSize bytes) ++ GCM seal of the data (data ++ tag) ++ salt (SaltSize bytes)
 */
module Ciphers {
  import opened Types
  import opened Primitives

  /** `defaultSaltSize`: salt length for key derivation, independent of the nonce size. */
  const SaltSize: nat := 12

  datatype Cipher = AES256Cipher | TwofishCipher | SerpentCipher
  {
    function GetName(): string
    {
      match this
      case AES256Cipher => "AES256"
      case TwofishCipher => "TWOFISH"
      case SerpentCipher => "SERPENT"
    }

    function GetDescription(): string
    {
      match this
      case AES256Cipher => "AES256-GCM cipher"
      case TwofishCipher => "Twofish-GCM cipher"
      case SerpentCipher => "Serpent-GCM cipher"
    }

    function GetType(): CipherType
    {
      match this
      case AES256Cipher => AES256
      case TwofishCipher => TWOFISH
      case SerpentCipher => SERPENT
    }

    /** The adapter's block cipher in GCM mode. */
    function Mode(suite: Suite): Gcm
    {
      match this
      case AES256Cipher => suite.aes
      case TwofishCipher => suite.twofish
      case SerpentCipher => suite.serpent
    }

    /**
     * Encrypt `data` under a key derived from `password` and a fresh salt, and
     * frame the result as nonce ++ sealed ++ salt. The two random draws are
     * parameters; None stands for a failed read of the random source.
     */
    function Encrypt(suite: Suite, data: Bytes, password: Bytes, salt: Option<Bytes>, nonce: Option<Bytes>)
      : (r: Result<Bytes>)
      requires FullRead(salt, SaltSize) && FullRead(nonce, NonceSize)
      // output only when both random draws succeeded
      ensures r.Ok? ==> salt.Some? && nonce.Some?
      // the decoder's split recovers the nonce, the sealed data and the salt that derived the key
      ensures r.Ok? ==>
        && |r.value| >= NonceSize + SaltSize
        && SplitPayload(r.value) ==
             (nonce.value, Mode(suite).seal(suite.kdf(password, salt.value), nonce.value, data), salt.value)
      ensures salt.None? ==> r == Err(Wrapped("randomizing salt", Plain(RandomSourceFailed)))
      ensures r.Err? ==> r.error.Cause() in {RandomSourceFailed, InvalidKeySize, InvalidBlockSize}
    {
      if salt.None? then Err(Wrapped("randomizing salt", Plain(RandomSourceFailed)))
      else
        var key := suite.kdf(password, salt.value);
        var mode := Mode(suite);
        if !mode.acceptsKey(key) then Err(Wrapped("creating block cipher", Plain(InvalidKeySize)))
        else if mode.blockSize != GcmBlockSize then Err(Wrapped("creating block mode cipher", Plain(InvalidBlockSize)))
        else if nonce.None? then Err(Wrapped("randomizing nonce", Plain(RandomSourceFailed)))
        else
          var sealed := mode.seal(key, nonce.value, data);
          SplitJoin(nonce.value, sealed, salt.value);
          Ok(nonce.value + sealed + salt.value)
    }

    /**
     * Split the payload, derive the key from the trailing salt and open the
     * sealed middle. Unlike the Go code, the length guard comes before any
     * slicing and covers both the nonce and the salt (see AsWritten).
     */
    function Decrypt(suite: Suite, data: Bytes, password: Bytes): (r: Result<Bytes>)
      ensures |data| < NonceSize + SaltSize <==> r == Err(Plain(MalformedCiphertext))
      // plaintext only comes out of a successful Open under the key the stored salt derives
      ensures r.Ok? ==>
        && |data| >= NonceSize + SaltSize
        && var (nonce, sealed, salt) := SplitPayload(data);
           Mode(suite).open(suite.kdf(password, salt), nonce, sealed) == Some(r.value)
      ensures r.Err? ==> r.error.Cause() in {MalformedCiphertext, InvalidKeySize, InvalidBlockSize, AuthenticationFailed}
    {
      if |data| < NonceSize + SaltSize then Err(Plain(MalformedCiphertext))
      else
        var (nonce, sealed, salt) := SplitPayload(data);
        var key := suite.kdf(password, salt);
        var mode := Mode(suite);
        if !mode.acceptsKey(key) then Err(Wrapped("creating block cipher", Plain(InvalidKeySize)))
        else if mode.blockSize != GcmBlockSize then Err(Wrapped("creating block mode cipher", Plain(InvalidBlockSize)))
        else
          match mode.open(key, nonce, sealed)
          case None => Err(Wrapped("decrypting data", Plain(AuthenticationFailed)))
          case Some(p) => Ok(p)
    }
  }

  function NewAES256Cipher(): (c: Cipher)
    ensures c.GetName() == "AES256" && c.GetDescription() == "AES256-GCM cipher" && c.GetType() == AES256
  {
    AES256Cipher
  }

  function NewTwofishCipher(): (c: Cipher)
    ensures c.GetName() == "TWOFISH" && c.GetDescription() == "Twofish-GCM cipher" && c.GetType() == TWOFISH
  {
    TwofishCipher
  }

  function NewSerpentCipher(): (c: Cipher)
    ensures c.GetName() == "SERPENT" && c.GetDescription() == "Serpent-GCM cipher" && c.GetType() == SERPENT
  {
    SerpentCipher
  }

  /**
   * The decoder's slicing: nonce is the first NonceSize bytes, salt the last
   * SaltSize bytes, the sealed data everything between. The precondition is
   * what makes those slices valid.
   */
  function SplitPayload(data: Bytes): (parts: (Bytes, Bytes, Bytes))
    requires |data| >= NonceSize + SaltSize
    ensures |parts.0| == NonceSize && |parts.2| == SaltSize
    ensures parts.0 + parts.1 + parts.2 == data
  {
    (data[..NonceSize], data[NonceSize..|data| - SaltSize], data[|data| - SaltSize..])
  }

  /** Splitting a framed payload gives back its three parts. */
  lemma SplitJoin(nonce: Bytes, sealed: Bytes, salt: Bytes)
    requires |nonce| == NonceSize && |salt| == SaltSize
    ensures |nonce + sealed + salt| >= NonceSize + SaltSize
    ensures SplitPayload(nonce + sealed + salt) == (nonce, sealed, salt)
  {
  }

  /**
   * Under the primitive laws an adapter fails to encrypt only when the random
   * source fails, and its output is exactly NonceSize + TagSize + SaltSize bytes
   * longer than the plaintext, hence never empty and never equal to it.
   */
  lemma EncryptLength(c: Cipher, suite: Suite, data: Bytes, password: Bytes, salt: Option<Bytes>, nonce: Option<Bytes>)
    requires SuiteLaws(suite)
    requires FullRead(salt, SaltSize) && FullRead(nonce, NonceSize)
    ensures c.Encrypt(suite, data, password, salt, nonce).Ok? <==> salt.Some? && nonce.Some?
    ensures nonce.None? && salt.Some? ==>
      c.Encrypt(suite, data, password, salt, nonce) == Err(Wrapped("randomizing nonce", Plain(RandomSourceFailed)))
    ensures c.Encrypt(suite, data, password, salt, nonce).Ok? ==>
      var out := c.Encrypt(suite, data, password, salt, nonce).value;
      |out| == NonceSize + |data| + TagSize + SaltSize && |out| > |data| && out != data
  {
  }

  /** Decrypting an adapter's own output with the same password gives back the data. */
  lemma RoundTrip(c: Cipher, suite: Suite, data: Bytes, password: Bytes, salt: Option<Bytes>, nonce: Option<Bytes>)
    requires SuiteLaws(suite)
    requires salt.Some? && |salt.value| == SaltSize && nonce.Some? && |nonce.value| == NonceSize
    ensures c.Encrypt(suite, data, password, salt, nonce).Ok?
    ensures c.Decrypt(suite, c.Encrypt(suite, data, password, salt, nonce).value, password) == Ok(data)
  {
  }

  /**
   * On any payload, not only on an adapter's own output: when Open accepts the
   * sealed middle under the key the trailing salt derives, Decrypt returns
   * that plaintext.
   */
  lemma OpenSomeGivesOk(c: Cipher, suite: Suite, data: Bytes, password: Bytes, p: Bytes)
    requires GcmLaws(c.Mode(suite)) && KdfLaws(suite.kdf)
    requires |data| >= NonceSize + SaltSize
    requires var (nonce, sealed, salt) := SplitPayload(data);
             c.Mode(suite).open(suite.kdf(password, salt), nonce, sealed) == Some(p)
    ensures c.Decrypt(suite, data, password) == Ok(p)
  {
  }

  /** A failed Open is reported as an authentication error and yields no plaintext. */
  lemma FailedOpenYieldsNoPlaintext(c: Cipher, suite: Suite, data: Bytes, password: Bytes)
    requires GcmLaws(c.Mode(suite)) && KdfLaws(suite.kdf)
    requires |data| >= NonceSize + SaltSize
    requires var (nonce, sealed, salt) := SplitPayload(data);
             c.Mode(suite).open(suite.kdf(password, salt), nonce, sealed).None?
    ensures c.Decrypt(suite, data, password) == Err(Wrapped("decrypting data", Plain(AuthenticationFailed)))
  {
  }
}
