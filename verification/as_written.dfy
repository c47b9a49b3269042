/**
 * The adapters' Decrypt exactly as the Go code orders it, including the two
 * places where Go's slice bounds check panics, set against the corrected
 * `Cipher.Decrypt` the rest of the model uses.
 *
 * As written, the salt is sliced off the tail before any length check, and the
 * only check that follows asks for NonceSize bytes, not NonceSize + SaltSize.
 * Inputs shorter than SaltSize panic at the salt slice; inputs of SaltSize up
 * to NonceSize + SaltSize - 1 bytes panic at the ciphertext slice; the
 * "malformed ciphertext" return is never reached.
 */
module AsWritten {
  import opened Types
  import opened Primitives
  import opened Ciphers
  import Envelope
  import Krypt

  /** How a Go call ends: it returns a (value, error) pair, or it panics. */
  datatype GoCall<+T> = Returns(result: Result<T>) | Panics

  function DecryptAsWritten(c: Cipher, suite: Suite, data: Bytes, password: Bytes): (r: GoCall<Bytes>)
    // on inputs long enough for its slices it agrees with the corrected Decrypt
    ensures |data| >= NonceSize + SaltSize ==> r == Returns(c.Decrypt(suite, data, password))
    // on shorter inputs it can only return a failure to build the cipher, or panic
    ensures r.Returns? && |data| < NonceSize + SaltSize ==>
      r.result.Err? && r.result.error.Cause() in {InvalidKeySize, InvalidBlockSize}
  {
    if |data| < SaltSize then Panics   // data[len(data)-defaultSaltSize:] with a negative start
    else
      var salt := data[|data| - SaltSize..];
      var key := suite.kdf(password, salt);
      var mode := c.Mode(suite);
      if !mode.acceptsKey(key) then Returns(Err(Wrapped("creating block cipher", Plain(InvalidKeySize))))
      else if mode.blockSize != GcmBlockSize then Returns(Err(Wrapped("creating block mode cipher", Plain(InvalidBlockSize))))
      else if |data| < NonceSize then Returns(Err(Plain(MalformedCiphertext)))
      else if NonceSize > |data| - SaltSize then Panics   // data[NonceSize:len(data)-defaultSaltSize] with low > high
      else
        match mode.open(key, data[..NonceSize], data[NonceSize..|data| - SaltSize])
        case None => Returns(Err(Wrapped("decrypting data", Plain(AuthenticationFailed))))
        case Some(p) => Returns(Ok(p))
  }

  /**
   * With a working block cipher, the Go Decrypt panics exactly on the
   * inputs the corrected guard rejects, and returns the corrected result on
   * every other input.
   */
  lemma PanicsExactlyOnShortInput(c: Cipher, suite: Suite, data: Bytes, password: Bytes)
    requires GcmLaws(c.Mode(suite)) && KdfLaws(suite.kdf)
    ensures DecryptAsWritten(c, suite, data, password).Panics? <==> |data| < NonceSize + SaltSize
    ensures |data| < NonceSize + SaltSize <==> c.Decrypt(suite, data, password) == Err(Plain(MalformedCiphertext))
  {
  }

  /** The "malformed ciphertext" branch of the Go Decrypt is never taken. */
  lemma MalformedGuardIsDead(c: Cipher, suite: Suite, data: Bytes, password: Bytes)
    ensures DecryptAsWritten(c, suite, data, password) != Returns(Err(Plain(MalformedCiphertext)))
  {
  }

  /** An 11-byte payload panics at the salt slice, before the length guard is reached. */
  lemma SaltSlicedBeforeGuard(c: Cipher, suite: Suite, password: Bytes)
    ensures DecryptAsWritten(c, suite, seq(11, _ => 0), password) == Panics
    ensures c.Decrypt(suite, seq(11, _ => 0), password) == Err(Plain(MalformedCiphertext))
  {
  }

  /**
   * A 20-byte payload passes the Go guard (it is at least NonceSize long)
   * and then panics at the ciphertext slice, since 20 - SaltSize < NonceSize.
   */
  lemma GuardTooWeak(c: Cipher, suite: Suite, password: Bytes)
    requires GcmLaws(c.Mode(suite)) && KdfLaws(suite.kdf)
    ensures var data: Bytes := seq(20, _ => 0);
      && |data| >= NonceSize
      && DecryptAsWritten(c, suite, data, password) == Panics
      && c.Decrypt(suite, data, password) == Err(Plain(MalformedCiphertext))
  {
  }

  /**
   * The header check lets a 22-byte envelope through, so krypt's `Decrypt`
   * reaches the adapter with a 20-byte payload and panics; the corrected
   * adapter reports malformed ciphertext instead.
   */
  lemma AcceptedEnvelopeCrashes(c: Cipher, suite: Suite, password: Bytes)
    requires GcmLaws(c.Mode(suite)) && KdfLaws(suite.kdf)
    ensures var env := Envelope.WriteKrypt(c.GetType(), seq(20, _ => 0));
      && Envelope.GetKryptInfo(env).err.None?
      && DecryptAsWritten(c, suite, env[2..], password) == Panics
      && Krypt.Decrypt(suite, password, env) == Err(Wrapped("decrpyting payload", Plain(MalformedCiphertext)))
  {
  }
}
