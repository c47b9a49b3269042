/** The fixed lookup from identifier byte or name to an adapter, and the ordered listing. */
module Registry {
  import opened Types
  import opened Ciphers
  import opened Text

  /** `getCipher`: the adapter an identifier names. */
  function GetCipher(t: CipherType): (r: Result<Cipher>)
    ensures r.Ok? <==> Registered(t)
    ensures r.Ok? ==> r.value.GetType() == t
    ensures r.Err? ==> r.error == Plain(UnknownCipherType)
  {
    if t == AES256 then Ok(NewAES256Cipher())
    else if t == TWOFISH then Ok(NewTwofishCipher())
    else if t == SERPENT then Ok(NewSerpentCipher())
    else Err(Plain(UnknownCipherType))
  }

  /** `getCipherByName`: exact, case- and space-sensitive match on the adapter name. */
  function GetCipherByName(name: string): (r: Result<Cipher>)
    ensures r.Ok? ==> r.value.GetName() == name
    ensures r.Err? ==> r.error == Plain(UnknownCipherName) && forall c: Cipher :: c.GetName() != name
  {
    if name == "AES256" then Ok(NewAES256Cipher())
    else if name == "TWOFISH" then Ok(NewTwofishCipher())
    else if name == "SERPENT" then Ok(NewSerpentCipher())
    else Err(Plain(UnknownCipherName))
  }

  /**
   * `GetCipherTypeByName`: the identifier of the adapter whose name equals
   * `name` once surrounding white space is trimmed; letter case still matters.
   */
  function GetCipherTypeByName(name: string): (r: (CipherType, Option<Error>))
    ensures r.1.None? <==> GetCipherByName(TrimSpace(name)).Ok?
    ensures r.1.None? ==> GetCipher(r.0) == GetCipherByName(TrimSpace(name))
    ensures r.1.Some? ==> r == (Unknown, Some(Plain(UnknownCipherName)))
  {
    var trimmed := TrimSpace(name);
    if trimmed == "AES256" then (AES256, None)
    else if trimmed == "TWOFISH" then (TWOFISH, None)
    else if trimmed == "SERPENT" then (SERPENT, None)
    else (Unknown, Some(Plain(UnknownCipherName)))
  }

  /** `GetCipherList`: every adapter once, ordered by identifier. */
  function GetCipherList(): (list: seq<Cipher>)
    ensures |list| == 3
    ensures forall i :: 0 <= i < |list| ==> list[i].GetType() == i + 1
  {
    [NewAES256Cipher(), NewTwofishCipher(), NewSerpentCipher()]
  }

  /** The listing leaves no adapter out. */
  lemma ListingIsComplete()
    ensures forall c: Cipher :: c in GetCipherList()
  {
    var list := GetCipherList();
    forall c: Cipher
      ensures c in list
    {
      assert list[c.GetType() - 1] == c;
    }
  }

  /** Each listed adapter is what both lookups return for its identifier and its name. */
  lemma ListingAgreesWithLookups()
    ensures forall i :: 0 <= i < |GetCipherList()| ==>
      && GetCipher(GetCipherList()[i].GetType()) == Ok(GetCipherList()[i])
      && GetCipherByName(GetCipherList()[i].GetName()) == Ok(GetCipherList()[i])
  {
  }

  /** An adapter's name, padded with any white space, resolves to its identifier. */
  lemma TypeByPaddedName(c: Cipher, pre: string, post: string)
    requires AllSpace(pre) && AllSpace(post)
    ensures GetCipherTypeByName(pre + c.GetName() + post) == (c.GetType(), None)
  {
    var padded := pre + c.GetName() + post;
    TrimSpaceOfPadded(pre, c.GetName(), post);
    assert TrimSpace(padded) == c.GetName();
    match c
    case AES256Cipher =>
    case TwofishCipher =>
      assert "TWOFISH"[0] != "AES256"[0];
    case SerpentCipher =>
      assert "SERPENT"[0] != "AES256"[0] && "SERPENT"[0] != "TWOFISH"[0];
  }

  /** TestGetCipherTypeByName: an unknown name gives Unknown together with an error. */
  lemma UnknownNameExample()
    ensures GetCipherTypeByName("no-crypt") == (Unknown, Some(Plain(UnknownCipherName)))
  {
  }

  /** TestGetCipherTypeByName: "AES256" gives the AES256 identifier and no error. */
  lemma KnownNameExample()
    ensures GetCipherTypeByName("AES256") == (AES256, None)
  {
    TrimSpaceKeeps("AES256");
  }

  /** Names are case-sensitive: the lower-case spelling names no adapter. */
  lemma CaseSensitiveExample()
    ensures GetCipherTypeByName("aes256") == (Unknown, Some(Plain(UnknownCipherName)))
  {
  }

  /** A padded name resolves by identifier lookup, which trims. */
  lemma PaddedNameExample()
    ensures GetCipherTypeByName(" SERPENT\n") == (SERPENT, None)
  {
    var padded := " " + SerpentCipher.GetName() + "\n";
    TypeByPaddedName(SerpentCipher, " ", "\n");
    assert padded == " SERPENT\n";
  }

  /** The same padded name is not found by exact name lookup, which does not trim. */
  lemma PaddedNameNotExact()
    ensures GetCipherByName(" SERPENT\n") == Err(Plain(UnknownCipherName))
  {
  }
}
