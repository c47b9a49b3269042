/** Bytes, optional values, results and the error values of the crypto package. */
module Types {

  /** An octet: Go's `byte` / `uint8`. */
  type byte = b: int | 0 <= b < 256

  type Bytes = seq<byte>

  /** Go's `CipherType uint8`: any byte can be held, only some name an adapter. */
  type CipherType = byte

  const Unknown: CipherType := 0
  const AES256: CipherType := 1
  const TWOFISH: CipherType := 2
  const SERPENT: CipherType := 3

  /** The identifiers that name one of the three cipher adapters. */
  predicate Registered(t: CipherType)
  {
    t == AES256 || t == TWOFISH || t == SERPENT
  }

  datatype Option<+T> = None | Some(value: T)

  /** The root kinds of error the crypto package creates or passes through. */
  datatype ErrorKind =
    | UnknownCipherType     // getCipher: the byte names no adapter
    | UnknownCipherName     // getCipherByName, GetCipherTypeByName
    | KryptInfoMissing      // getKryptInfo: no room for a payload after the header
    | CannotReadKryptInfo   // getKryptInfo: the version byte is not libVersion
    | UnknownKryptVersion   // Decrypt: version re-check after getKryptInfo
    | NoPayload             // Decrypt: empty payload after the header
    | MalformedCiphertext   // adapter Decrypt: payload too short
    | RandomSourceFailed    // crypto/rand could not fill the salt or nonce
    | InvalidKeySize        // the block-cipher constructor rejected the key
    | InvalidBlockSize      // cipher.NewGCM rejected the block cipher
    | AuthenticationFailed  // GCM Open: tag mismatch (wrong password or tampering)

  /** An error value: a root kind, possibly wrapped with context as `errors.Wrap` does. */
  datatype Error = Plain(kind: ErrorKind) | Wrapped(context: string, inner: Error)
  {
    /** The root kind, as `errors.Cause` would find it. */
    function Cause(): ErrorKind
    {
      match this
      case Plain(k) => k
      case Wrapped(_, e) => e.Cause()
    }
  }

  /** A Go `(value, error)` pair where exactly one side is meaningful. */
  datatype Result<+T> = Ok(value: T) | Err(error: Error)
}
