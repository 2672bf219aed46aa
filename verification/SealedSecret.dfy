/** Sealed secrets: a dotted envelope around an authenticated ciphertext, under rotatable keys. */
module SealedSecret {
  import opened Wrappers
  import opened Text
  import Base64Url

  const DOT: CodePoint := 46
  const NONCE_BYTES := 12
  const KEY_BYTES := 32

  const SCHEME: Text := [100, 105, 102, 102, 117, 115, 101, 45, 115, 101, 99, 114, 101, 116] // "diffuse-secret"
  const VERSION: Text := [118, 49] // "v1"

  /** The cipher, the eight-character key id and the decoding of UTF-8 text. */
  datatype Cipher = Cipher(
    encrypt: (Bytes, Bytes, Bytes, Text) -> Bytes,
    decrypt: (Bytes, Bytes, Bytes, Text) -> Option<Bytes>,
    keyId: Bytes -> Text,
    decodeText: Bytes -> Option<Text>)

  /** Authenticated encryption: only the sealing key, nonce and purpose open a ciphertext. */
  ghost predicate Authenticated(c: Cipher) {
    && (forall k, n, m, a :: c.decrypt(k, n, c.encrypt(k, n, m, a), a) == Some(m))
    && (forall k, n, m, a, k', a' | k' != k || a' != a :: c.decrypt(k', n, c.encrypt(k, n, m, a), a') == None)
    && (forall k, n, m, a :: c.encrypt(k, n, m, a) != [])
    && (forall k :: DOT !in c.keyId(k))
    && (forall t: Text | Encodable(t) :: c.decodeText(Utf8(t)) == Some(t))
  }

  datatype Refusal =
    | BadKey | NotEncodable | NotSealed | Malformed | BadPayload | Truncated | AuthenticationFailed | UnknownKey

  function Seal(c: Cipher, plaintext: Text, kek: Bytes, aad: Text, nonce: Bytes): Result<Text, Refusal> {
    if |kek| != KEY_BYTES then Err(BadKey)
    else if !Encodable(plaintext) then Err(NotEncodable)
    else Ok(Join([SCHEME, VERSION, c.keyId(kek), Base64Url.Encode(nonce + c.encrypt(kek, nonce, Utf8(plaintext), aad))], DOT))
  }

  predicate IsSealed(value: Text) { SCHEME + [DOT] + VERSION + [DOT] <= value }

  function Unseal(c: Cipher, value: Text, keks: seq<Bytes>, aad: Text, allowPlaintext: bool): Result<Text, Refusal> {
    if !IsSealed(value) then (if allowPlaintext then Ok(value) else Err(NotSealed))
    else
      var parts := Split(value, DOT);
      if |parts| != 4 || parts[0] != SCHEME || parts[1] != VERSION then Err(Malformed)
      else
        var packed := Base64Url.Decode(parts[3]);
        if packed.None? then Err(BadPayload)
        else if |packed.value| <= NONCE_BYTES then Err(Truncated)
        else OpenWith(c, keks, parts[2], packed.value[..NONCE_BYTES], packed.value[NONCE_BYTES..], aad)
  }

  /** The first key whose id matches decides, whether or not it opens the ciphertext. */
  function OpenWith(c: Cipher, keks: seq<Bytes>, keyId: Text, nonce: Bytes, ciphertext: Bytes, aad: Text): Result<Text, Refusal> {
    if keks == [] then Err(UnknownKey)
    else if c.keyId(keks[0]) != keyId then OpenWith(c, keks[1..], keyId, nonce, ciphertext, aad)
    else
      match c.decrypt(keks[0], nonce, ciphertext, aad)
      case None => Err(AuthenticationFailed)
      case Some(raw) => var text := c.decodeText(raw); if text.Some? then Ok(text.value) else Err(AuthenticationFailed)
  }

  function FirstMatch(c: Cipher, keks: seq<Bytes>, keyId: Text): Option<Bytes> {
    if keks == [] then None
    else if c.keyId(keks[0]) == keyId then Some(keks[0])
    else FirstMatch(c, keks[1..], keyId)
  }

  lemma OnlyTheSealingKeyOpens(c: Cipher, kek: Bytes, nonce: Bytes, plaintext: Text, aad: Text, k: Bytes, aad': Text)
    requires Authenticated(c) && Encodable(plaintext)
    ensures c.decrypt(k, nonce, c.encrypt(kek, nonce, Utf8(plaintext), aad), aad')
         == if k == kek && aad' == aad then Some(Utf8(plaintext)) else None
    ensures c.decodeText(Utf8(plaintext)) == Some(plaintext)
  {
    hide Utf8;
  }

  lemma {:induction false} FirstMatchDecides(c: Cipher, keks: seq<Bytes>, kek: Bytes, nonce: Bytes, plaintext: Text, aad: Text, aad': Text)
    requires Authenticated(c) && Encodable(plaintext)
    ensures var r := OpenWith(c, keks, c.keyId(kek), nonce, c.encrypt(kek, nonce, Utf8(plaintext), aad), aad');
            match FirstMatch(c, keks, c.keyId(kek))
            case None => r == Err(UnknownKey)
            case Some(k) => r == if k == kek && aad' == aad then Ok(plaintext) else Err(AuthenticationFailed)
  {
    if keks != [] {
      if c.keyId(keks[0]) != c.keyId(kek) {
        FirstMatchDecides(c, keks[1..], kek, nonce, plaintext, aad, aad');
      } else {
        OnlyTheSealingKeyOpens(c, kek, nonce, plaintext, aad, keks[0], aad');
      }
    }
  }

  lemma LiteralsHaveNoDot()
    ensures DOT !in SCHEME && DOT !in VERSION
  {
    assert forall c <- [100, 105, 102, 102, 117, 115, 101, 45, 115, 101, 99, 114, 101, 116] :: c != 46;
  }

  lemma JoinOfFour(a: Text, b: Text, c: Text, d: Text)
    ensures Join([a, b, c, d], DOT) == a + [DOT] + (b + [DOT] + (c + [DOT] + d))
  {
    assert [a, b, c, d][1..] == [b, c, d] && [b, c, d][1..] == [c, d] && [c, d][1..] == [d];
    assert Join([c, d], DOT) == c + [DOT] + d;
    assert Join([b, c, d], DOT) == b + [DOT] + Join([c, d], DOT);
  }

  lemma FourParts(a: Text, b: Text, c: Text, d: Text)
    requires DOT !in a && DOT !in b && DOT !in c && DOT !in d
    ensures Split(Join([a, b, c, d], DOT), DOT) == [a, b, c, d]
    ensures a + [DOT] + b + [DOT] <= Join([a, b, c, d], DOT)
  {
    SplitJoin([a, b, c, d], DOT);
    JoinOfFour(a, b, c, d);
    hide Join, Split;
    assert a + [DOT] + (b + [DOT] + (c + [DOT] + d)) == a + [DOT] + b + [DOT] + (c + [DOT] + d);
  }

  lemma SealsExactly(c: Cipher, plaintext: Text, kek: Bytes, aad: Text, nonce: Bytes)
    ensures Seal(c, plaintext, kek, aad, nonce).Ok?
            <==> |kek| == 32 && forall i | 0 <= i < |plaintext| :: plaintext[i] < 0xD800 || 0xE000 <= plaintext[i]
    ensures Seal(c, plaintext, kek, aad, nonce).Err? ==>
              Seal(c, plaintext, kek, aad, nonce).error == if |kek| == 32 then NotEncodable else BadKey
  {
    hide Join, Utf8;
    EncodableMeansScalars(plaintext);
  }

  lemma {:induction false} FirstMatchOpens(c: Cipher, keks: seq<Bytes>, keyId: Text, nonce: Bytes, ciphertext: Bytes, aad: Text, plaintext: Text)
    ensures OpenWith(c, keks, keyId, nonce, ciphertext, aad) == Ok(plaintext)
            <==> && FirstMatch(c, keks, keyId).Some?
                 && var raw := c.decrypt(FirstMatch(c, keks, keyId).value, nonce, ciphertext, aad);
                 raw.Some? && c.decodeText(raw.value) == Some(plaintext)
  {
    if keks != [] && c.keyId(keks[0]) != keyId { FirstMatchOpens(c, keks[1..], keyId, nonce, ciphertext, aad, plaintext); }
  }

  /** A sealed text of this scheme and version, whose payload the first key with its key id opens for this purpose. */
  predicate OpensAs(c: Cipher, value: Text, keyId: Text, payload: Text, keks: seq<Bytes>, aad: Text, plaintext: Text) {
    && value == Join([SCHEME, VERSION, keyId, payload], DOT) && DOT !in keyId
    && var packed := Base64Url.Decode(payload);
    && packed.Some? && NONCE_BYTES < |packed.value| && FirstMatch(c, keks, keyId).Some?
    && var raw := c.decrypt(FirstMatch(c, keks, keyId).value, packed.value[..NONCE_BYTES], packed.value[NONCE_BYTES..], aad);
    raw.Some? && c.decodeText(raw.value) == Some(plaintext)
  }

  /**
   * A stored value opens as a text exactly when it is sealed and its first matching key opens it as that text, or
   * when it does not look sealed at all, is that text, and plain text is allowed.
   */
  lemma UnsealsExactly(c: Cipher, value: Text, keks: seq<Bytes>, aad: Text, allowPlaintext: bool, plaintext: Text)
    ensures Unseal(c, value, keks, aad, allowPlaintext) == Ok(plaintext)
            <==> if SCHEME + [DOT] + VERSION + [DOT] <= value
                 then exists keyId, payload :: OpensAs(c, value, keyId, payload, keks, aad, plaintext)
                 else allowPlaintext && plaintext == value
  {
    hide Split, Join, Base64Url.Decode, OpenWith, FirstMatch;
    if IsSealed(value) {
      var parts := Split(value, DOT);
      JoinSplit(value, DOT);
      if Unseal(c, value, keks, aad, allowPlaintext) == Ok(plaintext) {
        var packed := Base64Url.Decode(parts[3]).value;
        FirstMatchOpens(c, keks, parts[2], packed[..NONCE_BYTES], packed[NONCE_BYTES..], aad, plaintext);
        assert parts == [SCHEME, VERSION, parts[2], parts[3]];
        assert parts[2] in parts;
        assert OpensAs(c, value, parts[2], parts[3], keks, aad, plaintext);
      }
      if keyId, payload :| OpensAs(c, value, keyId, payload, keks, aad, plaintext) {
        Base64Url.DecodableHasNoDot(payload);
        LiteralsHaveNoDot();
        FourParts(SCHEME, VERSION, keyId, payload);
        var packed := Base64Url.Decode(payload).value;
        FirstMatchOpens(c, keks, keyId, packed[..NONCE_BYTES], packed[NONCE_BYTES..], aad, plaintext);
      }
    }
  }

  lemma SealedShape(c: Cipher, plaintext: Text, kek: Bytes, aad: Text, nonce: Bytes)
    requires Authenticated(c) && Seal(c, plaintext, kek, aad, nonce).Ok?
    ensures var value := Seal(c, plaintext, kek, aad, nonce).value;
            && IsSealed(value)
            && Split(value, DOT) == [SCHEME, VERSION, c.keyId(kek),
                                     Base64Url.Encode(nonce + c.encrypt(kek, nonce, Utf8(plaintext), aad))]
  {
    var packed := nonce + c.encrypt(kek, nonce, Utf8(plaintext), aad);
    Base64Url.DecodesEncoded(packed);
    LiteralsHaveNoDot();
    hide Base64Url.Encode, Utf8, Join, Split;
    FourParts(SCHEME, VERSION, c.keyId(kek), Base64Url.Encode(packed));
  }

  /**
   * A sealed secret opens exactly when the purpose is the one it was sealed for and the first configured
   * key with its key id is the key that sealed it.
   */
  lemma UnsealInvertsSeal(c: Cipher, plaintext: Text, kek: Bytes, aad: Text, nonce: Bytes, keks: seq<Bytes>, aad': Text,
                          allowPlaintext: bool)
    requires Authenticated(c) && |nonce| == NONCE_BYTES && Seal(c, plaintext, kek, aad, nonce).Ok?
    ensures var r := Unseal(c, Seal(c, plaintext, kek, aad, nonce).value, keks, aad', allowPlaintext);
            && (r == Ok(plaintext) <==> FirstMatch(c, keks, c.keyId(kek)) == Some(kek) && aad' == aad)
            && (r.Ok? ==> r == Ok(plaintext))
  {
    SealedShape(c, plaintext, kek, aad, nonce);
    var ciphertext := c.encrypt(kek, nonce, Utf8(plaintext), aad);
    Base64Url.DecodesEncoded(nonce + ciphertext);
    assert (nonce + ciphertext)[..NONCE_BYTES] == nonce && (nonce + ciphertext)[NONCE_BYTES..] == ciphertext;
    assert ciphertext != [];
    FirstMatchDecides(c, keks, kek, nonce, plaintext, aad, aad');
    hide Base64Url.Encode, Base64Url.Decode, Utf8, Authenticated, Join, Split;
  }

  /** With distinct key ids, rotation keeps every secret readable whose key is still configured. */
  lemma {:induction false} DistinctKeyIdsFind(c: Cipher, keks: seq<Bytes>, kek: Bytes)
    requires kek in keks && forall k <- keks | k != kek :: c.keyId(k) != c.keyId(kek)
    ensures FirstMatch(c, keks, c.keyId(kek)) == Some(kek)
  {
    if keks[0] != kek {
      assert keks == [keks[0]] + keks[1..];
      DistinctKeyIdsFind(c, keks[1..], kek);
    }
  }

  /** A key that shares the sealing key's id and comes before it makes the secret unreadable. */
  lemma SharedKeyIdHides(c: Cipher, plaintext: Text, kek: Bytes, other: Bytes, aad: Text, nonce: Bytes, rest: seq<Bytes>)
    requires Authenticated(c) && |nonce| == NONCE_BYTES && Seal(c, plaintext, kek, aad, nonce).Ok?
    requires other != kek && c.keyId(other) == c.keyId(kek)
    ensures Unseal(c, Seal(c, plaintext, kek, aad, nonce).value, [other] + rest, aad, false).Err?
  {
    UnsealInvertsSeal(c, plaintext, kek, aad, nonce, [other] + rest, aad, false);
    hide Authenticated, Seal, Unseal;
  }
}
