/** The two public operations: resolve, encrypt, frame; and parse, resolve, strip, decrypt. */
module Krypt {
  import opened Types
  import opened Primitives
  import opened Ciphers
  import opened Registry
  import opened Envelope

  /** `Encrypt`: encrypt with the adapter `t` names and frame the payload with the header. */
  function Encrypt(suite: Suite, t: CipherType, password: Bytes, data: Bytes, salt: Option<Bytes>, nonce: Option<Bytes>)
    : (r: Result<Bytes>)
    requires FullRead(salt, SaltSize) && FullRead(nonce, NonceSize)
    // an unregistered identifier fails before anything is produced
    ensures !Registered(t) ==> r == Err(Plain(UnknownCipherType))
    // the output is a header for `t` over exactly what the adapter produced
    ensures r.Ok? ==>
      && Registered(t)
      && GetKryptInfo(r.value) == KryptInfo(LibVersion, t, None)
      && Ok(r.value[2..]) == GetCipher(t).value.Encrypt(suite, data, password, salt, nonce)
    ensures Registered(t) && r.Err? ==> r == GetCipher(t).value.Encrypt(suite, data, password, salt, nonce)
  {
    match GetCipher(t)
    case Err(e) => Err(e)
    case Ok(c) =>
      match c.Encrypt(suite, data, password, salt, nonce)
      case Err(e) => Err(e)
      case Ok(payload) => Ok(WriteKrypt(t, payload))
  }

  /**
   * `Decrypt`: read the header, resolve the adapter and hand it the bytes after
   * the header. The version and empty-payload re-checks of the Go code are kept;
   * `DecryptLayers` shows they never fire.
   */
  function Decrypt(suite: Suite, password: Bytes, data: Bytes): (r: Result<Bytes>)
    // a header that does not parse is reported as a "reading krypt" error
    ensures GetKryptInfo(data).err.Some? ==> r == Err(Wrapped("reading krypt", GetKryptInfo(data).err.value))
    // otherwise the adapter the header names sees exactly data[2..]
    ensures GetKryptInfo(data).err.None? ==>
      && |data| > 2
      && (r.Ok? <==> GetCipher(data[1]).value.Decrypt(suite, data[2..], password).Ok?)
      && (r.Ok? ==> r == GetCipher(data[1]).value.Decrypt(suite, data[2..], password))
    // an adapter failure comes back wrapped, with the adapter's own error inside
    ensures GetKryptInfo(data).err.None? && GetCipher(data[1]).value.Decrypt(suite, data[2..], password).Err? ==>
      r == Err(Wrapped("decrpyting payload", GetCipher(data[1]).value.Decrypt(suite, data[2..], password).error))
  {
    var info := GetKryptInfo(data);
    if info.err.Some? then Err(Wrapped("reading krypt", info.err.value))
    else
      match GetCipher(info.cipherType)
      case Err(e) => Err(e)
      case Ok(c) =>
        if info.version != 1 then Err(Plain(UnknownKryptVersion))
        else if |data| - 2 == 0 then Err(Plain(NoPayload))
        else
          match c.Decrypt(suite, data[2..], password)
          case Err(e) => Err(Wrapped("decrpyting payload", e))
          case Ok(p) => Ok(p)
  }

  /**
   * Every failure of Decrypt is either a header error under "reading krypt" or
   * an adapter error under "decrpyting payload": the unknown-cipher, version and
   * empty-payload branches after a successful header read are unreachable.
   */
  lemma DecryptLayers(suite: Suite, password: Bytes, data: Bytes)
    ensures var r := Decrypt(suite, password, data);
      r.Err? ==>
        || (r.error.Wrapped? && r.error.context == "reading krypt"
            && r.error.Cause() in {KryptInfoMissing, CannotReadKryptInfo, UnknownCipherType})
        || (r.error.Wrapped? && r.error.context == "decrpyting payload"
            && r.error.Cause() in {MalformedCiphertext, InvalidKeySize, InvalidBlockSize, AuthenticationFailed})
    ensures Decrypt(suite, password, data).Err? ==>
      Decrypt(suite, password, data).error.Cause() !in {UnknownKryptVersion, NoPayload}
  {
  }

  /** Decrypting with the same password what Encrypt produced gives back the data. */
  lemma RoundTrip(suite: Suite, t: CipherType, password: Bytes, data: Bytes, salt: Option<Bytes>, nonce: Option<Bytes>)
    requires SuiteLaws(suite) && Registered(t)
    requires salt.Some? && |salt.value| == SaltSize && nonce.Some? && |nonce.value| == NonceSize
    ensures Encrypt(suite, t, password, data, salt, nonce).Ok?
    ensures Decrypt(suite, password, Encrypt(suite, t, password, data, salt, nonce).value) == Ok(data)
  {
  }

  /**
   * Under the primitive laws the sealed envelope is exactly the header, the
   * nonce, the tag and the salt longer than the data, and Encrypt fails for a
   * registered cipher only when the random source does.
   */
  lemma EnvelopeLength(suite: Suite, t: CipherType, password: Bytes, data: Bytes, salt: Option<Bytes>, nonce: Option<Bytes>)
    requires SuiteLaws(suite) && Registered(t)
    requires FullRead(salt, SaltSize) && FullRead(nonce, NonceSize)
    ensures Encrypt(suite, t, password, data, salt, nonce).Ok? <==> salt.Some? && nonce.Some?
    ensures Encrypt(suite, t, password, data, salt, nonce).Ok? ==>
      |Encrypt(suite, t, password, data, salt, nonce).value| == 2 + NonceSize + |data| + TagSize + SaltSize
  {
  }
}
