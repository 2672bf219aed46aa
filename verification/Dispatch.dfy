/** Signed dispatch envelopes: what is signed is what is verified. */
module Dispatch {
  import opened Wrappers
  import opened Text
  import Base64Url
  import opened SealedSecret

  const MAX_DIFF_CHARS := 400_000
  const MAX_ENVELOPE_CHARS := 32 * 1024 * 1024
  const MAX_ARCHIVE_BYTES := 16 * 1024 * 1024
  const MICROSECONDS := 1_000_000

  const ENVELOPE_PREFIX: Text := // "diffuse-dispatch"
    [100, 105, 102, 102, 117, 115, 101, 45, 100, 105, 115, 112, 97, 116, 99, 104]

  datatype Role = CandidateRole | VerifierRole

  datatype Runtime = Claude | Codex | OtherRuntime(name: Text)

  /** A source archive with the identity of the tree it extracts to. */
  datatype Artifact = Artifact(archive: Bytes, manifestDigest: Option<Text>)

  datatype Budget = Budget(turns: int, timeoutSeconds: int, maxResultBytes: int)

  datatype Identity = Identity(session: Text, runtime: Runtime, repository: int, pullRequest: int, snapshot: int,
                               base: Text, head: Text, capabilityId: Text, contextPlan: Text, role: Role)

  /** `expiresAt` counts microseconds. */
  datatype Envelope = Envelope(identity: Identity, budget: Budget, capability: Text, diff: Text, source: Artifact,
                               expiresAt: int, input: Option<Text>, inputDigest: Option<Text>)

  /** The signed payload: the capability sealed, the archive as text, the expiry in whole seconds. */
  datatype Payload = Payload(identity: Identity, budget: Budget, capability: Text, diff: Text, archive: Text,
                             archiveDigest: Text, manifestDigest: Option<Text>, input: Option<Text>,
                             inputDigest: Option<Text>, expiry: int)

  /** JSON, signatures, hashing and the acceptance of verification input, as the envelope uses them. */
  datatype Scheme = Scheme(
    cipher: Cipher, purpose: Text,
    dump: Payload -> Bytes, parse: Bytes -> Option<Payload>,
    sign: Text -> Bytes, checks: (Text, Bytes) -> bool,
    digest: Bytes -> Text, accepts: (Text, Text, int) -> bool)

  ghost predicate Trusted(x: Scheme) {
    && Authenticated(x.cipher)
    && (forall p :: x.parse(x.dump(p)) == Some(p))
    && (forall body :: x.checks(body, x.sign(body)))
    && (forall b :: IsHex(x.digest(b), 64))
  }

  // ---------------------------------------------------------------- validation

  function Trimmed(s: Text): Text {
    if s != [] && IsSpace(s[0]) then Trimmed(s[1..])
    else if s != [] && IsSpace(s[|s| - 1]) then Trimmed(s[..|s| - 1])
    else s
  }

  predicate IsHex(s: Text, n: nat) { |s| == n && forall c <- s :: 48 <= c <= 57 || 97 <= c <= 102 }

  predicate IsAnyHex(s: Text, n: nat) {
    |s| == n && forall c <- s :: 48 <= c <= 57 || 97 <= c <= 102 || 65 <= c <= 70
  }

  /** A digest is accepted with surrounding space and in either case. */
  predicate Digest(s: Text, n: nat) { IsAnyHex(Trimmed(s), n) }

  predicate Valid(x: Scheme, e: Envelope) {
    && e.identity.repository > 0 && e.identity.pullRequest > 0 && e.identity.snapshot > 0
    && e.identity.session != [] && e.capability != [] && e.identity.capabilityId != []
    && !e.identity.runtime.OtherRuntime?
    && |e.diff| <= MAX_DIFF_CHARS && |e.source.archive| <= MAX_ARCHIVE_BYTES && e.source.manifestDigest.Some?
    && e.budget.turns > 0 && e.budget.timeoutSeconds > 0 && e.budget.maxResultBytes > 0
    && Digest(e.identity.base, 40) && Digest(e.identity.head, 40) && Digest(e.identity.contextPlan, 64)
    && Digest(x.digest(e.source.archive), 64) && Digest(e.source.manifestDigest.value, 64)
    && (match e.identity.role
        case CandidateRole => e.input == None && e.inputDigest == None
        case VerifierRole => && e.input.Some? && e.inputDigest.Some? && Digest(e.inputDigest.value, 64)
                             && x.accepts(e.input.value, e.inputDigest.value, e.budget.maxResultBytes))
  }

  /** An artifact's manifest digest is a lower-case digest whenever it is there: its constructor insists. */
  predicate Constructed(source: Artifact) { source.manifestDigest.Some? ==> IsHex(source.manifestDigest.value, 64) }

  predicate AllSpace(s: Text) { forall c <- s :: IsSpace(c) }

  lemma {:induction false} TrimmedSplits(s: Text) returns (before: Text, after: Text)
    ensures s == before + Trimmed(s) + after && AllSpace(before) && AllSpace(after)
    ensures Trimmed(s) != [] ==> !IsSpace(Trimmed(s)[0]) && !IsSpace(Trimmed(s)[|Trimmed(s)| - 1])
    decreases |s|
  {
    hide IsSpace;
    before, after := [], [];
    if s != [] && IsSpace(s[0]) {
      before, after := TrimmedSplits(s[1..]);
      assert s == [s[0]] + s[1..];
      before := [s[0]] + before;
    } else if s != [] && IsSpace(s[|s| - 1]) {
      before, after := TrimmedSplits(s[..|s| - 1]);
      assert s == s[..|s| - 1] + [s[|s| - 1]];
      after := after + [s[|s| - 1]];
    }
  }

  lemma {:induction false} TrimmedOf(before: Text, core: Text, after: Text)
    requires AllSpace(before) && AllSpace(after) && core != [] && !IsSpace(core[0]) && !IsSpace(core[|core| - 1])
    ensures Trimmed(before + core + after) == core
    decreases |before| + |after|
  {
    hide IsSpace;
    var s := before + core + after;
    if before != [] {
      TrimmedOf(before[1..], core, after);
      assert s[1..] == before[1..] + core + after;
    } else if after != [] {
      TrimmedOf(before, core, after[..|after| - 1]);
      assert s[..|s| - 1] == before + core + after[..|after| - 1];
      assert s[|s| - 1] == after[|after| - 1];
    } else {
      assert s == core;
    }
  }

  const HEX_DIGITS: Text := // 0-9, A-F, a-f
    [48, 49, 50, 51, 52, 53, 54, 55, 56, 57, 65, 66, 67, 68, 69, 70, 97, 98, 99, 100, 101, 102]

  lemma HexDigitIs(c: CodePoint)
    ensures c in HEX_DIGITS <==> 48 <= c <= 57 || 97 <= c <= 102 || 65 <= c <= 70
    ensures c in HEX_DIGITS ==> !IsSpace(c)
  {
  }

  /** A digest is accepted exactly when it is so many hexadecimal digits, of either case, with space around them. */
  lemma DigestsAreSpacedHex(s: Text, n: nat)
    requires n > 0
    ensures Digest(s, n) <==> exists before, hex, after :: && s == before + hex + after && AllSpace(before) && AllSpace(after)
                                                           && |hex| == n && forall c <- hex :: c in HEX_DIGITS
  {
    forall c: CodePoint ensures c in HEX_DIGITS <==> 48 <= c <= 57 || 97 <= c <= 102 || 65 <= c <= 70
                        ensures c in HEX_DIGITS ==> !IsSpace(c) { HexDigitIs(c); }
    hide IsSpace, Trimmed;
    if Digest(s, n) {
      var before, after := TrimmedSplits(s);
    }
    if before, hex, after :| && s == before + hex + after && AllSpace(before) && AllSpace(after)
                             && |hex| == n && forall c <- hex :: c in HEX_DIGITS {
      assert hex[0] in hex && hex[|hex| - 1] in hex;
      TrimmedOf(before, hex, after);
    }
  }

  lemma HexIsLowerCase(s: Text, n: nat)
    ensures IsHex(s, n) <==> |s| == n && forall i | 0 <= i < |s| :: s[i] in HEX_DIGITS && !(65 <= s[i] <= 70)
  {
    forall c: CodePoint ensures c in HEX_DIGITS <==> 48 <= c <= 57 || 97 <= c <= 102 || 65 <= c <= 70 { HexDigitIs(c); }
    assert forall i | 0 <= i < |s| :: s[i] in s;
  }

  /** Valid is: every number is positive, the texts are within their limits, the digests are digests, the input fits the role. */
  lemma ValidExactly(x: Scheme, e: Envelope)
    ensures Valid(x, e) <==>
              && 0 < e.identity.repository && 0 < e.identity.pullRequest && 0 < e.identity.snapshot
              && 0 < e.budget.turns && 0 < e.budget.timeoutSeconds && 0 < e.budget.maxResultBytes
              && 0 < |e.identity.session| && 0 < |e.capability| && 0 < |e.identity.capabilityId|
              && e.identity.runtime in {Claude, Codex} && |e.diff| <= 400_000 && |e.source.archive| <= 16 * 1024 * 1024
              && Digest(e.identity.base, 40) && Digest(e.identity.head, 40) && Digest(e.identity.contextPlan, 64)
              && Digest(x.digest(e.source.archive), 64) && e.source.manifestDigest.Some? && Digest(e.source.manifestDigest.value, 64)
              && (e.identity.role == CandidateRole ==> e.input == None && e.inputDigest == None)
              && (e.identity.role == VerifierRole ==>
                    e.input.Some? && e.inputDigest.Some? && Digest(e.inputDigest.value, 64)
                    && x.accepts(e.input.value, e.inputDigest.value, e.budget.maxResultBytes))
  {
    hide Digest;
  }

  // ---------------------------------------------------------------- signing and verifying

  /** Whole seconds, towards zero. */
  function Truncated(microseconds: int): int {
    if microseconds >= 0 then microseconds / MICROSECONDS else -((-microseconds) / MICROSECONDS)
  }

  /** A fraction of a second is cut off, never added. */
  lemma TruncatedIsTowardsZero(t: int)
    ensures 0 <= t ==> Truncated(t) * MICROSECONDS <= t < (Truncated(t) + 1) * MICROSECONDS
    ensures t <= 0 ==> (Truncated(t) - 1) * MICROSECONDS < t <= Truncated(t) * MICROSECONDS
  {
  }

  function PayloadOf(x: Scheme, e: Envelope, sealed: Text): Payload {
    Payload(e.identity, e.budget, sealed, e.diff, Base64Url.Encode(e.source.archive), x.digest(e.source.archive),
            e.source.manifestDigest, e.input, e.inputDigest, Truncated(e.expiresAt))
  }

  function TokenOf(x: Scheme, p: Payload): Text {
    var body := Base64Url.Encode(x.dump(p));
    Join([ENVELOPE_PREFIX, body, Base64Url.Encode(x.sign(body))], DOT)
  }

  datatype Refused = NotValid | NotSealable | TooLong | BadShape | BadContent | ExpiredEnvelope

  function Sign(x: Scheme, e: Envelope, kek: Bytes, nonce: Bytes): Result<Text, Refused> {
    if !Valid(x, e) then Err(NotValid)
    else
      match Seal(x.cipher, e.capability, kek, x.purpose, nonce)
      case Err(_) => Err(NotSealable)
      case Ok(sealed) =>
        var token := TokenOf(x, PayloadOf(x, e, sealed));
        if |token| > MAX_ENVELOPE_CHARS then Err(TooLong) else Ok(token)
  }

  /** Signing refuses an envelope that is not valid, a capability that cannot be sealed and a token that is too long, and nothing else. */
  lemma SignsExactly(x: Scheme, e: Envelope, kek: Bytes, nonce: Bytes)
    ensures Sign(x, e, kek, nonce).Ok?
            <==> && Valid(x, e) && |kek| == KEY_BYTES && Encodable(e.capability)
                 && |TokenOf(x, PayloadOf(x, e, Seal(x.cipher, e.capability, kek, x.purpose, nonce).value))| <= 32 * 1024 * 1024
  {
    hide Valid, TokenOf, PayloadOf;
  }

  function MaxArchiveChars(): nat { 4 * ((MAX_ARCHIVE_BYTES + 2) / 3) }

  /** The envelope a payload stands for, or none if a part of it cannot be read back. */
  function Unpacked(x: Scheme, p: Payload, keks: seq<Bytes>): Option<Envelope> {
    if |p.archive| > MaxArchiveChars() || p.manifestDigest.None? || !IsHex(p.manifestDigest.value, 64) then None
    else
      var archive := Base64Url.Decode(p.archive);
      if archive.None? || p.archiveDigest != x.digest(archive.value) || !IsSealed(p.capability) then None
      else
        match Unseal(x.cipher, p.capability, keks, x.purpose, false)
        case Err(_) => None
        case Ok(capability) =>
          Some(Envelope(p.identity, p.budget, capability, p.diff, Artifact(archive.value, p.manifestDigest),
                        p.expiry * MICROSECONDS, p.input, p.inputDigest))
  }

  /** The payload under a signature that checks. */
  function Opened(x: Scheme, body: Text, signature: Text): Option<Payload> {
    var raw, signed := Base64Url.Decode(body), Base64Url.Decode(signature);
    if raw.None? || signed.None? || !x.checks(body, signed.value) then None else x.parse(raw.value)
  }

  function Verify(x: Scheme, token: Text, keks: seq<Bytes>, now: int): Result<Envelope, Refused> {
    if |token| > MAX_ENVELOPE_CHARS then Err(TooLong)
    else
      var parts := Split(token, DOT);
      if |parts| != 3 || parts[0] != ENVELOPE_PREFIX then Err(BadShape)
      else
        match Opened(x, parts[1], parts[2])
        case None => Err(BadContent)
        case Some(p) =>
          match Unpacked(x, p, keks)
          case None => Err(BadContent)
          case Some(e) =>
            if e.expiresAt <= now then Err(ExpiredEnvelope)
            else if !Valid(x, e) then Err(NotValid)
            else Ok(e)
  }

  // ---------------------------------------------------------------- the round trip

  /** The envelope with its expiry cut to whole seconds. */
  function Floored(e: Envelope): Envelope { e.(expiresAt := Truncated(e.expiresAt) * MICROSECONDS) }

  lemma ArchiveTextFits(archive: Bytes)
    requires |archive| <= MAX_ARCHIVE_BYTES
    ensures |Base64Url.Encode(archive)| <= MaxArchiveChars()
  {
    Base64Url.DecodesEncoded(archive);
    hide Base64Url.Encode;
  }

  lemma PrefixHasNoDot()
    ensures DOT !in ENVELOPE_PREFIX
  {
    assert forall c <- [100, 105, 102, 102, 117, 115, 101, 45, 100, 105, 115, 112, 97, 116, 99, 104] :: c != 46;
  }

  lemma TokenSplits(x: Scheme, p: Payload)
    ensures var body := Base64Url.Encode(x.dump(p));
            Split(TokenOf(x, p), DOT) == [ENVELOPE_PREFIX, body, Base64Url.Encode(x.sign(body))]
  {
    var body := Base64Url.Encode(x.dump(p));
    PrefixHasNoDot();
    Base64Url.DecodesEncoded(x.dump(p));
    Base64Url.DecodesEncoded(x.sign(body));
    hide Base64Url.Encode, Split, Join;
    SplitJoin([ENVELOPE_PREFIX, body, Base64Url.Encode(x.sign(body))], DOT);
  }

  lemma TokenOpens(x: Scheme, p: Payload)
    requires Trusted(x)
    ensures var body := Base64Url.Encode(x.dump(p)); Opened(x, body, Base64Url.Encode(x.sign(body))) == Some(p)
  {
    var body := Base64Url.Encode(x.dump(p));
    Base64Url.DecodesEncoded(x.dump(p));
    Base64Url.DecodesEncoded(x.sign(body));
    hide Base64Url.Encode, Base64Url.Decode, Authenticated;
  }

  lemma UnpacksPacked(x: Scheme, e: Envelope, kek: Bytes, nonce: Bytes, keks: seq<Bytes>)
    requires Trusted(x) && Valid(x, e) && Constructed(e.source) && |nonce| == NONCE_BYTES
    requires Seal(x.cipher, e.capability, kek, x.purpose, nonce).Ok?
    ensures var p := PayloadOf(x, e, Seal(x.cipher, e.capability, kek, x.purpose, nonce).value);
            Unpacked(x, p, keks)
            == if FirstMatch(x.cipher, keks, x.cipher.keyId(kek)) == Some(kek) then Some(Floored(e)) else None
  {
    var sealed := Seal(x.cipher, e.capability, kek, x.purpose, nonce).value;
    UnsealInvertsSeal(x.cipher, e.capability, kek, x.purpose, nonce, keks, x.purpose, false);
    SealedShape(x.cipher, e.capability, kek, x.purpose, nonce);
    ArchiveTextFits(e.source.archive);
    Base64Url.DecodesEncoded(e.source.archive);
    hide Seal, Unseal, Base64Url.Encode, Base64Url.Decode, Authenticated, IsSealed, FirstMatch, Split, IsHex, Truncated;
  }

  lemma ValidityIgnoresExpiry(x: Scheme, e: Envelope, expiresAt: int)
    ensures Valid(x, e.(expiresAt := expiresAt)) <==> Valid(x, e)
  {
    hide Digest;
  }

  /**
   * A signed envelope verifies exactly when its expiry, in whole seconds, is still ahead and the verifier
   * finds the key its capability was sealed under; what comes back is the envelope with that expiry.
   */
  lemma VerifyInvertsSign(x: Scheme, e: Envelope, kek: Bytes, nonce: Bytes, keks: seq<Bytes>, now: int)
    requires Trusted(x) && Constructed(e.source) && |nonce| == NONCE_BYTES && Sign(x, e, kek, nonce).Ok?
    ensures var r := Verify(x, Sign(x, e, kek, nonce).value, keks, now);
            && (r.Ok? <==> && Truncated(e.expiresAt) * MICROSECONDS > now
                           && FirstMatch(x.cipher, keks, x.cipher.keyId(kek)) == Some(kek))
            && (r.Ok? ==> r == Ok(Floored(e)))
  {
    var p := PayloadOf(x, e, Seal(x.cipher, e.capability, kek, x.purpose, nonce).value);
    TokenSplits(x, p);
    TokenOpens(x, p);
    UnpacksPacked(x, e, kek, nonce, keks);
    ValidityIgnoresExpiry(x, e, Truncated(e.expiresAt) * MICROSECONDS);
    hide Seal, Valid, Trusted, TokenOf, Opened, Unpacked, PayloadOf, Split, FirstMatch, Truncated;
  }

  /** Three parts, the second and third base64url text; the third is a signature that checks over the second. */
  predicate SignedBy(x: Scheme, token: Text, body: Text, signature: Text) {
    && token == Join([ENVELOPE_PREFIX, body, signature], DOT)
    && Base64Url.Decode(signature).Some? && x.checks(body, Base64Url.Decode(signature).value)
  }

  /** The envelope is what the signed body says: its fields, the archive as bytes, the capability unsealed. */
  predicate Says(x: Scheme, body: Text, keks: seq<Bytes>, e: Envelope) {
    && Base64Url.Decode(body).Some? && x.parse(Base64Url.Decode(body).value).Some?
    && var p := x.parse(Base64Url.Decode(body).value).value;
    && e.identity == p.identity && e.budget == p.budget && e.diff == p.diff
    && e.input == p.input && e.inputDigest == p.inputDigest && e.expiresAt == p.expiry * MICROSECONDS
    && |p.archive| <= 4 * ((MAX_ARCHIVE_BYTES + 2) / 3) && Base64Url.Decode(p.archive) == Some(e.source.archive)
    && p.archiveDigest == x.digest(e.source.archive)
    && e.source.manifestDigest == p.manifestDigest && p.manifestDigest.Some? && IsHex(p.manifestDigest.value, 64)
    && IsSealed(p.capability) && Unseal(x.cipher, p.capability, keks, x.purpose, false) == Ok(e.capability)
  }

  lemma PartsOfToken(body: Text, signature: Text)
    requires DOT !in body && DOT !in signature
    ensures Split(Join([ENVELOPE_PREFIX, body, signature], DOT), DOT) == [ENVELOPE_PREFIX, body, signature]
  {
    hide Split, Join;
    PrefixHasNoDot();
    SplitJoin([ENVELOPE_PREFIX, body, signature], DOT);
  }

  lemma UnpackedSays(x: Scheme, body: Text, keks: seq<Bytes>, e: Envelope)
    ensures Says(x, body, keks, e)
            <==> && Base64Url.Decode(body).Some? && x.parse(Base64Url.Decode(body).value).Some?
                 && Unpacked(x, x.parse(Base64Url.Decode(body).value).value, keks) == Some(e)
  {
    hide Base64Url.Decode, IsSealed, Unseal, IsHex;
  }

  /**
   * A token verifies as an envelope exactly when it is not too long, it carries a signature that checks over a
   * body that says that envelope, and the envelope is valid and not expired.
   */
  lemma VerifiedIsSigned(x: Scheme, token: Text, keks: seq<Bytes>, now: int, e: Envelope)
    ensures Verify(x, token, keks, now) == Ok(e)
            <==> && |token| <= MAX_ENVELOPE_CHARS && Valid(x, e) && now < e.expiresAt
                 && exists body, signature :: SignedBy(x, token, body, signature) && Says(x, body, keks, e)
  {
    hide Valid, Split, Join, Unpacked, Says, Base64Url.Decode;
    if Verify(x, token, keks, now) == Ok(e) {
      var parts := Split(token, DOT);
      JoinSplit(token, DOT);
      assert parts == [ENVELOPE_PREFIX, parts[1], parts[2]];
      UnpackedSays(x, parts[1], keks, e);
      assert SignedBy(x, token, parts[1], parts[2]);
    }
    if body, signature :| SignedBy(x, token, body, signature) && Says(x, body, keks, e) {
      UnpackedSays(x, body, keks, e);
      Base64Url.DecodableHasNoDot(body);
      Base64Url.DecodableHasNoDot(signature);
      PartsOfToken(body, signature);
    }
  }

  /** Whatever its body says, a token whose signature does not check is refused. */
  lemma ForgeriesAreRefused(x: Scheme, body: Text, signature: Text, keks: seq<Bytes>, now: int)
    requires DOT !in body && DOT !in signature
    requires Base64Url.Decode(signature).None? || !x.checks(body, Base64Url.Decode(signature).value)
    ensures var token := Join([ENVELOPE_PREFIX, body, signature], DOT);
            Verify(x, token, keks, now) == Err(if |token| > MAX_ENVELOPE_CHARS then TooLong else BadContent)
  {
    hide Split, Join, Unpacked, Valid, Base64Url.Decode;
    PartsOfToken(body, signature);
  }
}
