/**
 * The two-byte krypt header: [libVersion, cipher identifier] followed by the
 * adapter's payload.
 */
module Envelope {
  import opened Types
  import opened Registry

  /** `libVersion`: the only header version this code writes and reads. */
  const LibVersion: byte := 1

  /** What `getKryptInfo` returns: (version, cipher type, error), zeros on failure. */
  datatype KryptInfo = KryptInfo(version: byte, cipherType: CipherType, err: Option<Error>)

  /** `writeKrypt`: prefix the payload with the version and identifier bytes. */
  function WriteKrypt(t: CipherType, data: Bytes): (r: Bytes)
    ensures |r| == |data| + 2
    ensures r[0] == LibVersion && r[1] == t
    ensures r[2..] == data
  {
    [LibVersion, t] + data
  }

  /**
   * `getKryptInfo`: read and check the header. It accepts exactly the inputs
   * that have a payload byte, the current version and a registered identifier.
   */
  function GetKryptInfo(data: Bytes): (info: KryptInfo)
    ensures info.err.None? <==> |data| > 2 && data[0] == LibVersion && Registered(data[1])
    ensures info.err.None? ==> info.version == data[0] && info.cipherType == data[1]
    ensures info.err.Some? ==> info.version == 0 && info.cipherType == Unknown
    ensures |data| <= 2 ==> info.err == Some(Plain(KryptInfoMissing))
    ensures |data| > 2 && data[0] != LibVersion ==> info.err == Some(Plain(CannotReadKryptInfo))
    ensures |data| > 2 && data[0] == LibVersion && !Registered(data[1]) ==>
      info.err == Some(Wrapped("cannot determine cipher used", Plain(UnknownCipherType)))
  {
    if |data| <= 2 then KryptInfo(0, 0, Some(Plain(KryptInfoMissing)))
    else if data[0] != LibVersion then KryptInfo(0, 0, Some(Plain(CannotReadKryptInfo)))
    else match GetCipher(data[1])
      case Err(e) => KryptInfo(0, 0, Some(Wrapped("cannot determine cipher used", e)))
      case Ok(_) => KryptInfo(data[0], data[1], None)
  }

  /** A header written for a registered cipher over a non-empty payload reads back as written. */
  lemma InfoOfWrite(t: CipherType, data: Bytes)
    requires Registered(t) && |data| >= 1
    ensures GetKryptInfo(WriteKrypt(t, data)) == KryptInfo(LibVersion, t, None)
  {
  }

  /** Every input the header check accepts is a written header over a non-empty payload. */
  lemma WriteOfInfo(data: Bytes)
    requires GetKryptInfo(data).err.None?
    ensures |data[2..]| >= 1
    ensures data == WriteKrypt(GetKryptInfo(data).cipherType, data[2..])
  {
  }

  /**
   * The Go tests TestEmptyKrypt, TestNoCipherVersion, TestNoPayload,
   * TestInvalidKryptVersion and TestInvalidCipherVersion: every malformed
   * header gives (0, Unknown) and an error.
   */
  lemma RejectedHeaderExamples()
    ensures GetKryptInfo([]) == KryptInfo(0, Unknown, Some(Plain(KryptInfoMissing)))
    ensures GetKryptInfo([LibVersion]) == KryptInfo(0, Unknown, Some(Plain(KryptInfoMissing)))
    ensures GetKryptInfo(WriteKrypt(AES256, [])) == KryptInfo(0, Unknown, Some(Plain(KryptInfoMissing)))
    ensures GetKryptInfo(WriteKrypt(AES256, [0])[0 := 255]) == KryptInfo(0, Unknown, Some(Plain(CannotReadKryptInfo)))
    ensures var info := GetKryptInfo(WriteKrypt(255, [0]));
      info.version == 0 && info.cipherType == Unknown && info.err.Some?
  {
  }
}
