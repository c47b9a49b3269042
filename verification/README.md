# krypt crypto core in Dafny

A model of the `crypto` package of krypt: password-based encryption of a byte
buffer under one of three interchangeable ciphers (AES256, Twofish, Serpent,
each a 16-byte block cipher in GCM mode), wrapped in a self-describing envelope.

- **Envelope** (`envelope.dfy`): `writeKrypt` prefixes the payload with two
  bytes, `[libVersion = 1, cipher identifier]`; `getKryptInfo` checks them and
  returns `(version, cipherType, error)`, with `(0, 0)` on every failure.
- **Registry** (`registry.dfy`): `getCipher` by identifier byte,
  `getCipherByName` by exact name, `GetCipherTypeByName` by name after
  `strings.TrimSpace` (`text.dfy`), and the ordered `GetCipherList`.
- **Adapters** (`ciphers.dfy`): one tagged datatype for the three adapters,
  which differ only in their block cipher. `Encrypt` frames
  `nonce ++ seal(key, nonce, data) ++ salt`; `Decrypt` takes the salt from the
  last 12 bytes, the nonce from the first 12 and the sealed data from between.
- **Orchestrator** (`krypt.dfy`): `Encrypt` resolves, encrypts and frames;
  `Decrypt` parses the header, resolves the adapter, and hands it `data[2..]`.

PBKDF2 and GCM are opaque (`primitives.dfy`): a `Suite` value carries the key
derivation function and, per cipher, the key check, block size, `seal` and
`open` as function values. The laws the proofs use are the predicate
`SuiteLaws`: the derived key is 32 bytes long, each block cipher accepts
32-byte keys and has 16-byte blocks, `open(k, n, seal(k, n, p)) == Some(p)`,
and `|seal(k, n, p)| == |p| + 16`. Key derivation is deterministic because it
is a function. The random salt and nonce are parameters of type
`Option<Bytes>`, where `None` stands for a failed read of the random source.
Errors are `Plain(kind)` or `Wrapped(context, inner)`, which mirrors
`errors.Wrap`; the wrap contexts are the Go code's own strings.

Two behaviours of the code need a note:
- Name matching. `getCipherByName` matches exactly. `GetCipherTypeByName`
  trims surrounding white space first, and letter case matters in both. A
  TODO at krypt.go:78 asks for case and white space not to matter; that is
  not done in the code, and the model does not do it either.
- Short payloads. The adapters' `Decrypt` panics on payloads shorter than
  nonce plus salt instead of returning "malformed ciphertext" (see Findings).
  `AsWritten.DecryptAsWritten` models the code as written. The rest of the
  model uses the corrected `Ciphers.Cipher.Decrypt`.

## Model

| member | source | states |
|---|---|---|
| Text.TrimSpace | crypto/krypt.go:79 | the trimmed name has no white space at either end and is no longer than the input (the full characterisation is in TrimSpaceIsSlice and TrimSpaceOfPadded) |
| Text.TrimSpaceIsSlice | crypto/krypt.go:79 | the trimmed name is the slice of the input left once only leading and trailing white space is removed: everything dropped before and after it is white space |
| Text.AsciiSpaceTable | crypto/krypt.go:79 | `IsSpace` models the white-space table of Go's `unicode.IsSpace`; below U+0080 it holds exactly for tab, newline, vertical tab, form feed, carriage return and space |
| Text.TrimLeft | crypto/krypt.go:79 | leading-space removal yields a suffix of the input whose dropped prefix is all white space and which starts with a non-space |
| Text.TrimRight | crypto/krypt.go:79 | trailing-space removal yields a prefix of the input whose dropped suffix is all white space and which ends with a non-space |
| Text.TrimSpaceOfPadded | crypto/krypt.go:79 | any white-space padding around a word is removed and the word itself is returned unchanged |
| Text.TrimSpaceKeeps | crypto/krypt.go:79 | a name with no white space at either end is returned unchanged |
| Text.TrimSpaceIdempotent | crypto/krypt.go:79 | trimming an already trimmed name changes nothing |
| Ciphers.NewAES256Cipher | crypto/aes256.go:24-47 | the AES adapter reports name "AES256", description "AES256-GCM cipher" and identifier AES256 |
| Ciphers.NewTwofishCipher | crypto/twofish.go:24-47 | the Twofish adapter reports name "TWOFISH", description "Twofish-GCM cipher" and identifier TWOFISH |
| Ciphers.NewSerpentCipher | crypto/serpent.go:24-47 | the Serpent adapter reports name "SERPENT", description "Serpent-GCM cipher" and identifier SERPENT |
| Ciphers.Cipher.Encrypt | crypto/aes256.go:52-81 | output exists only if both random draws succeed; the decoder's split of it gives back the nonce, the seal of the data under the key derived from the salt, and that salt; a missing salt gives the "randomizing salt" error; every failure is a random-source, key-size or block-size error (twofish.go:51-80 and serpent.go:51-80 are the same) |
| Ciphers.Cipher.Decrypt | crypto/aes256.go:86-111 | corrected: a payload shorter than nonce plus salt gives exactly the malformed-ciphertext error; any plaintext is what `open` authenticated, using the first 12 bytes as nonce, the middle as sealed data and the key derived from the last 12 bytes; every failure is malformed, key-size, block-size or authentication |
| Ciphers.SplitPayload | crypto/serpent.go:86-104 | under the length precondition the slices give a 12-byte nonce and a 12-byte salt, and nonce, middle and salt concatenate back to the payload |
| Ciphers.SplitJoin | crypto/serpent.go:76-104 | splitting a framed nonce, sealed data and salt gives those three parts back |
| Ciphers.EncryptLength | crypto/twofish.go:51-80 | under the laws, encryption fails only when a random draw fails, a failed nonce draw gives the "randomizing nonce" error, and the output is 12 + 16 + 12 bytes longer than the data, so it is non-empty and differs from the data |
| Ciphers.RoundTrip | crypto/twofish.go:51-110 | under the laws, every adapter decrypts its own output with the same password back to the data |
| Ciphers.OpenSomeGivesOk | crypto/aes256.go:105-110 | on any payload of at least 24 bytes, when `open` accepts the middle under the key the trailing salt derives, Decrypt returns that plaintext |
| Ciphers.FailedOpenYieldsNoPlaintext | crypto/serpent.go:104-107 | when `open` rejects the sealed data, Decrypt returns the "decrypting data" authentication error and no plaintext |
| AsWritten.DecryptAsWritten | crypto/aes256.go:86-111 | the Go code's operation order: on payloads of at least 24 bytes it returns the corrected result; on shorter ones it panics or reports a key or block error |
| AsWritten.PanicsExactlyOnShortInput | crypto/twofish.go:85-104 | with a working block cipher, the Go Decrypt panics exactly on payloads shorter than nonce plus salt, the inputs the corrected guard rejects |
| AsWritten.MalformedGuardIsDead | crypto/serpent.go:100-102 | the Go "malformed ciphertext" return is never reached |
| AsWritten.SaltSlicedBeforeGuard | crypto/aes256.go:87 | an 11-byte payload panics at the salt slice, where the corrected Decrypt reports malformed ciphertext |
| AsWritten.GuardTooWeak | crypto/aes256.go:101-105 | a 20-byte payload passes the NonceSize guard and then panics at the ciphertext slice, where the corrected Decrypt reports malformed ciphertext |
| AsWritten.AcceptedEnvelopeCrashes | crypto/krypt.go:135-145 | a 22-byte envelope passes the header check, its payload makes the Go adapter panic, and the corrected pipeline reports malformed ciphertext |
| Registry.GetCipher | crypto/krypt.go:46-59 | succeeds exactly for identifiers 1, 2 and 3, the adapter's identifier is the one asked for, and any other byte gives the unknown-cipher-type error |
| Registry.GetCipherByName | crypto/krypt.go:61-74 | a found adapter has exactly the asked name; on failure no adapter has that name and the error is unknown-cipher-name |
| Registry.GetCipherTypeByName | crypto/krypt.go:76-90 | succeeds exactly when the trimmed name is an adapter name, and then gives the identifier of the adapter the name lookup finds; otherwise it gives (Unknown, unknown-cipher-name) |
| Registry.GetCipherList | crypto/krypt.go:92-99 | three adapters, listed in identifier order 1, 2, 3 |
| Registry.ListingIsComplete | crypto/krypt.go:92-99 | every adapter appears in the listing |
| Registry.ListingAgreesWithLookups | crypto/krypt.go:46-99 | each listed adapter is what the identifier lookup and the name lookup return for it |
| Registry.TypeByPaddedName | crypto/krypt.go:76-90 | an adapter name with any surrounding white space resolves to that adapter's identifier without error |
| Registry.UnknownNameExample | crypto/krypt_test.go:112-114 | "no-crypt" gives Unknown and an error |
| Registry.KnownNameExample | crypto/krypt_test.go:116-117 | "AES256" gives AES256 and no error |
| Registry.CaseSensitiveExample | crypto/krypt.go:78-88 | "aes256" gives Unknown and an error: letter case matters |
| Registry.PaddedNameExample | crypto/krypt.go:79-85 | " SERPENT\n" resolves to SERPENT by identifier lookup, which trims |
| Registry.PaddedNameNotExact | crypto/krypt.go:62-71 | " SERPENT\n" is not found by the exact name lookup, which does not trim |
| Envelope.WriteKrypt | crypto/krypt.go:153-164 | output is two bytes longer than the payload: the version byte, the identifier byte, then the payload unchanged |
| Envelope.GetKryptInfo | crypto/krypt.go:166-190 | accepts exactly inputs longer than two bytes with version 1 and a registered identifier, and then returns those two bytes; every rejection returns (0, 0); too short, wrong version and unknown cipher each give their own error |
| Envelope.InfoOfWrite | crypto/krypt.go:154-190 | a header written for a registered cipher over a non-empty payload reads back as (1, that cipher, no error) |
| Envelope.WriteOfInfo | crypto/krypt.go:166-190 | every accepted input is a written header over its own non-empty tail |
| Envelope.RejectedHeaderExamples | crypto/krypt_test.go:40-99 | empty, version-only and header-only inputs, a wrong version and an unknown cipher byte are all rejected, each with version 0 and cipher type Unknown |
| Krypt.Encrypt | crypto/krypt.go:101-116 | an unregistered identifier fails with unknown-cipher-type and no output; any output is a valid header for the chosen cipher over exactly the adapter's payload; adapter failures pass through unchanged |
| Krypt.Decrypt | crypto/krypt.go:118-151 | a bad header gives a "reading krypt" error around the header error; otherwise the named adapter receives exactly the bytes after the header, Decrypt succeeds exactly when the adapter does, with its plaintext, and an adapter failure comes back as "decrpyting payload" around the adapter's own error |
| Krypt.DecryptLayers | crypto/krypt.go:121-148 | every failure is a header error under "reading krypt" or an adapter error under "decrpyting payload"; the version and empty-payload branches never fire |
| Krypt.RoundTrip | crypto/krypt.go:101-151 | under the laws, decrypting with the same password what Encrypt sealed with any registered cipher gives back the data |
| Krypt.EnvelopeLength | crypto/krypt_test.go:9-25 | under the laws, Encrypt with a registered cipher fails only on a random-source failure, and the envelope is 2 + 12 + 16 + 12 bytes longer than the data |

## Findings

| source | as written | input that shows it | evidently intended | confidence | as-written member | corrected member |
|---|---|---|---|---|---|---|
| crypto/aes256.go:87 | the salt is sliced off the tail before any length check (same at twofish.go:86 and serpent.go:86) | an 11-byte payload: `data[len-12:]` has a negative start and panics | short payloads are rejected with "malformed ciphertext" | high; not executed | AsWritten.SaltSlicedBeforeGuard | Ciphers.Cipher.Decrypt |
| crypto/aes256.go:101 | the guard asks for NonceSize bytes, but the slice at line 105 needs NonceSize + 12 (same at twofish.go:100 and serpent.go:100) | a 20-byte payload passes the guard and `data[12:8]` panics | reject payloads shorter than NonceSize + SaltSize | high; not executed | AsWritten.GuardTooWeak | Ciphers.Cipher.Decrypt |

## Left out

- PBKDF2, SHA-256, AES, Twofish, Serpent and GCM are opaque function values; only the laws in `SuiteLaws` are assumed of them, as hypotheses of the lemmas that need them.
- Wrong-password and tamper detection are properties of GCM itself and cannot be proved from those laws; the model only shows that a rejected `open` yields no plaintext.
- `crypto/rand`: the salt and nonce draws are parameters, so the non-determinism of ciphertexts is not modelled.
- The `binary.Read` failures in `getKryptInfo` (krypt.go:175-177, 183-185) and the `io.ReadFull` failure in `Decrypt` (krypt.go:141-143) are omitted: they cannot happen once the input is longer than two bytes.
- `DataIsEncryptedError` and `DataIsNotEncryptedError` (errors.go) are not modelled: nothing in the package constructs them.
- `NewUnknownCipherTypeError` and `NewUnknownCipherNameError` are not part of this model; their errors appear as the kinds `UnknownCipherType` and `UnknownCipherName`.
- Error message texts of unwrapped errors are represented by their kind only.
- The unused constant `name = "krypt"` (krypt.go:12).
- Adapters are plain values rather than freshly allocated pointers.
- Non-ASCII names: `strings.TrimSpace` is modelled over characters, so invalid UTF-8 byte sequences are not modelled.
- The command-line layer (`cmd/`, `main.go`) and `generate_manpages.go`: file, terminal and process plumbing.
