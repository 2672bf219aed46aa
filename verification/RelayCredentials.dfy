/** Which instance token opens the relay, and how a connect session hands credentials over once. */
module RelayCredentials {
  import opened Wrappers
  import opened Rows
  import opened Text
  import opened SealedSecret

  type Hash = nat

  datatype Instance = Instance(installation: nat, credential: Hash, signingKey: Text, revoked: bool)

  datatype Code = Code(installation: nat, expiresAt: int, redeemed: bool)

  datatype SessionStatus = Pending | Ready | Consumed | Failed

  datatype Session = Session(poll: Hash, status: SessionStatus, installation: nat, instance: Id, token: Option<Text>,
                             signingKey: Option<Text>, candidates: Option<set<nat>>, expiresAt: int)

  /** What one minting draws at random, and the key it seals under. */
  datatype Minting = Minting(instance: Id, token: Text, signingKey: Text, nonces: (Bytes, Bytes, Bytes), kek: Bytes)

  datatype Credentials = Credentials(instance: Id, installation: nat, token: Text, signingKey: Text)

  /** What was done to credentials, in order. */
  datatype Deed =
    | Issued(installation: nat, token: Text)
    | Revoked(token: Text)
    | Uninstalled(installation: nat)

  datatype Purposes = Purposes(stored: Text, token: Text, signingKey: Text)

  /** The keyed hash of tokens, the cipher and the purposes its secrets are bound to. */
  datatype Scheme = Scheme(hash: Text -> Hash, cipher: Cipher, purposes: Purposes)

  ghost predicate Trusted(x: Scheme) {
    (forall a, b :: x.hash(a) == x.hash(b) ==> a == b) && Authenticated(x.cipher)
  }

  datatype State = State(instances: map<Id, Instance>, codes: map<Hash, Code>, sessions: map<Id, Session>,
                         active: map<nat, bool>, history: seq<Deed>, minted: map<Id, Minting>,
                         disclosed: seq<(Id, Credentials)>)

  // ---------------------------------------------------------------- the live token of an installation

  function Live(history: seq<Deed>, installation: nat): Option<Text> {
    if history == [] then None else
      var before := Live(history[..|history| - 1], installation);
      match history[|history| - 1]
      case Issued(i, token) => if i == installation then Some(token) else before
      case Revoked(token) => if before == Some(token) then None else before
      case Uninstalled(i) => if i == installation then None else before
  }

  predicate Ends(deed: Deed, installation: nat, token: Text) {
    match deed
    case Issued(i, _) => i == installation
    case Revoked(t) => t == token
    case Uninstalled(i) => i == installation
  }

  /** The token was issued for the installation, and nothing since replaced or revoked it. */
  ghost predicate LatestUnrevoked(history: seq<Deed>, installation: nat, token: Text) {
    exists i :: 0 <= i < |history| && history[i] == Issued(installation, token)
                && forall j | i < j < |history| :: !Ends(history[j], installation, token)
  }

  lemma {:induction false} LiveIsLatestUnrevoked(history: seq<Deed>, installation: nat, token: Text)
    ensures Live(history, installation) == Some(token) <==> LatestUnrevoked(history, installation, token)
  {
    if history != [] {
      var init, last := history[..|history| - 1], history[|history| - 1];
      LiveIsLatestUnrevoked(init, installation, token);
      if LatestUnrevoked(init, installation, token) && !Ends(last, installation, token) {
        var i :| 0 <= i < |init| && init[i] == Issued(installation, token)
                 && forall j | i < j < |init| :: !Ends(init[j], installation, token);
        assert history[i] == Issued(installation, token);
        assert forall j | i < j < |history| :: !Ends(history[j], installation, token);
      }
      if LatestUnrevoked(history, installation, token) && last != Issued(installation, token) {
        var i :| 0 <= i < |history| && history[i] == Issued(installation, token)
                 && forall j | i < j < |history| :: !Ends(history[j], installation, token);
        assert init[i] == Issued(installation, token);
        assert forall j | i < j < |init| :: !Ends(init[j], installation, token);
        assert !Ends(history[|history| - 1], installation, token);
      }
      if last == Issued(installation, token) { assert history[|history| - 1] == Issued(installation, token); }
    }
  }

  predicate Fresh(history: seq<Deed>, token: Text) {
    forall deed <- history :: deed.Issued? ==> deed.token != token
  }

  lemma {:induction false} LiveWasIssued(history: seq<Deed>, installation: nat)
    ensures Live(history, installation).Some? ==> Issued(installation, Live(history, installation).value) in history
  {
    if history != [] {
      var init, last := history[..|history| - 1], history[|history| - 1];
      LiveWasIssued(init, installation);
      assert history == init + [last];
    }
  }

  lemma NextLive(history: seq<Deed>, deed: Deed, installation: nat)
    ensures Live(history + [deed], installation) ==
            match deed
            case Issued(i, token) => if i == installation then Some(token) else Live(history, installation)
            case Revoked(token) => if Live(history, installation) == Some(token) then None else Live(history, installation)
            case Uninstalled(i) => if i == installation then None else Live(history, installation)
  {
    assert (history + [deed])[..|history|] == history;
  }

  // ---------------------------------------------------------------- instances

  predicate LiveRow(row: Instance, installation: nat) { row.installation == installation && !row.revoked }

  predicate Opens(row: Instance, credential: Hash) { row.credential == credential && !row.revoked }

  /** An installation has a live instance exactly while it has a live token, and then just one, under that token. */
  ghost predicate Bound(x: Scheme, instances: map<Id, Instance>, history: seq<Deed>) {
    && (forall i <- instances | !instances[i].revoked ::
          Live(history, instances[i].installation).Some?
          && instances[i].credential == x.hash(Live(history, instances[i].installation).value))
    && (forall i, j | i in instances && j in instances && i != j && !instances[i].revoked && !instances[j].revoked ::
          instances[i].installation != instances[j].installation)
    && (forall n: nat | Live(history, n).Some? :: exists i <- instances :: LiveRow(instances[i], n))
  }

  /** No token is issued twice. */
  ghost predicate Unrepeated(history: seq<Deed>) {
    forall i, j | 0 <= i < j < |history| && history[i].Issued? && history[j].Issued? :: history[i].token != history[j].token
  }

  /** A token opens an instance exactly when it is the live token of the instance's installation. */
  lemma TokenOpensIffLive(x: Scheme, instances: map<Id, Instance>, history: seq<Deed>, token: Text, installation: nat)
    requires Trusted(x) && Bound(x, instances, history)
    ensures (exists i <- instances :: Opens(instances[i], x.hash(token)) && instances[i].installation == installation)
            <==> Live(history, installation) == Some(token)
  {
    if Live(history, installation) == Some(token) {
      var i :| i in instances && LiveRow(instances[i], installation);
      assert Opens(instances[i], x.hash(token));
    }
    if i :| i in instances && Opens(instances[i], x.hash(token)) && instances[i].installation == installation {
      assert x.hash(Live(history, installation).value) == x.hash(token);
    }
  }

  /** At most one instance answers to a token. */
  lemma OneInstanceOpens(x: Scheme, instances: map<Id, Instance>, history: seq<Deed>, token: Text, i: Id, j: Id)
    requires Trusted(x) && Bound(x, instances, history) && Unrepeated(history)
    requires i in instances && j in instances && Opens(instances[i], x.hash(token)) && Opens(instances[j], x.hash(token))
    ensures i == j
  {
    var n, m := instances[i].installation, instances[j].installation;
    assert x.hash(Live(history, n).value) == x.hash(token) == x.hash(Live(history, m).value);
    LiveWasIssued(history, n);
    LiveWasIssued(history, m);
    var a :| 0 <= a < |history| && history[a] == Issued(n, token);
    var b :| 0 <= b < |history| && history[b] == Issued(m, token);
    assert a == b;
  }

  /** The live instance of an installation keeps its id under new credentials; otherwise one is inserted. */
  function WithCredentials(instances: map<Id, Instance>, id: Id, row: Instance): (r: (map<Id, Instance>, Id)) {
    match Newest(set i <- instances | LiveRow(instances[i], row.installation))
    case Some(i) => (instances[i := instances[i].(credential := row.credential, signingKey := row.signingKey)], i)
    case None => (instances[id := row], id)
  }

  function RevokedWhere(instances: map<Id, Instance>, gone: Instance -> bool): map<Id, Instance> {
    map i <- instances :: if gone(instances[i]) then instances[i].(revoked := true) else instances[i]
  }

  function RevokedToken(x: Scheme, instances: map<Id, Instance>, token: Text): map<Id, Instance> {
    RevokedWhere(instances, (row: Instance) => Opens(row, x.hash(token)))
  }

  function RevokedInstallation(instances: map<Id, Instance>, installation: nat): map<Id, Instance> {
    RevokedWhere(instances, (row: Instance) => LiveRow(row, installation))
  }

  lemma IssuingKeepsBound(x: Scheme, instances: map<Id, Instance>, history: seq<Deed>, id: Id, row: Instance, token: Text)
    requires Bound(x, instances, history) && id !in instances && !row.revoked && row.credential == x.hash(token)
    ensures var (later, i) := WithCredentials(instances, id, row);
            && Bound(x, later, history + [Issued(row.installation, token)])
            && i in later && LiveRow(later[i], row.installation)
  {
    var live := set i <- instances | LiveRow(instances[i], row.installation);
    var (later, i) := WithCredentials(instances, id, row);
    var after := history + [Issued(row.installation, token)];
    forall n: nat { NextLive(history, Issued(row.installation, token), n); }
    assert live != {} ==> i in live;
    assert live == {} ==> forall j <- instances | !instances[j].revoked :: j !in live;
    forall n: nat | Live(after, n).Some? ensures exists j <- later :: LiveRow(later[j], n) {
      if n == row.installation {
        assert LiveRow(later[i], n);
      } else {
        var j :| j in instances && LiveRow(instances[j], n);
        assert LiveRow(later[j], n);
      }
    }
    hide Live;
  }

  lemma RevokingKeepsBound(x: Scheme, instances: map<Id, Instance>, history: seq<Deed>, token: Text)
    requires Trusted(x) && Bound(x, instances, history)
    ensures Bound(x, RevokedToken(x, instances, token), history + [Revoked(token)])
  {
    var later, after := RevokedToken(x, instances, token), history + [Revoked(token)];
    forall n: nat { NextLive(history, Revoked(token), n); }
    forall n: nat | Live(after, n).Some? ensures exists j <- later :: LiveRow(later[j], n) {
      var j :| j in instances && LiveRow(instances[j], n);
      assert instances[j].credential == x.hash(Live(history, n).value);
      assert LiveRow(later[j], n);
    }
    hide Live;
  }

  lemma UninstallingKeepsBound(x: Scheme, instances: map<Id, Instance>, history: seq<Deed>, installation: nat)
    requires Bound(x, instances, history)
    ensures Bound(x, RevokedInstallation(instances, installation), history + [Uninstalled(installation)])
  {
    var later, after := RevokedInstallation(instances, installation), history + [Uninstalled(installation)];
    forall n: nat { NextLive(history, Uninstalled(installation), n); }
    forall n: nat | Live(after, n).Some? ensures exists j <- later :: LiveRow(later[j], n) {
      var j :| j in instances && LiveRow(instances[j], n);
      assert LiveRow(later[j], n);
    }
    hide Live;
  }

  // ---------------------------------------------------------------- minting, redeeming, completing, claiming

  datatype Failure = InvalidInstallation | Sealing(refusal: Refusal) | Undecryptable | NotConfigured

  datatype Claim =
    | NotFound | ExpiredSession | StillPending(seconds: nat) | Delivered(credentials: Credentials) | AlreadyConsumed | FailedSession

  function Enrolled(x: Scheme, s: State, installation: nat, m: Minting): Result<(State, Id), Failure> {
    match Seal(x.cipher, m.signingKey, m.kek, x.purposes.stored, m.nonces.0)
    case Err(refusal) => Err(Sealing(refusal))
    case Ok(sealed) =>
      var (instances, i) := WithCredentials(s.instances, m.instance, Instance(installation, x.hash(m.token), sealed, false));
      Ok((s.(instances := instances, history := s.history + [Issued(installation, m.token)]), i))
  }

  function Redeemed(x: Scheme, s: State, code: Hash, now: int, m: Minting): Result<(State, Option<Credentials>), Failure> {
    if code !in s.codes || s.codes[code].redeemed || s.codes[code].expiresAt <= now then Ok((s, None)) else
      var installation := s.codes[code].installation;
      match Enrolled(x, s.(codes := s.codes[code := s.codes[code].(redeemed := true)]), installation, m)
      case Err(failure) => Err(failure)
      case Ok((later, i)) => Ok((later, Some(Credentials(i, installation, m.token, m.signingKey))))
  }

  predicate Completable(s: State, id: Id, installation: nat, allowed: Option<set<nat>>, now: int) {
    && id in s.sessions && s.sessions[id].expiresAt > now && s.sessions[id].status == Pending
    && (var permitted := if allowed.Some? then allowed else s.sessions[id].candidates;
        permitted.Some? ==> installation in permitted.value)
  }

  /** The guarded update of the session: both secrets sealed, and nothing stored or returned unless it is still pending. */
  function MadeReady(x: Scheme, s: State, id: Id, installation: nat, i: Id, m: Minting): Result<(State, Option<Credentials>), Failure> {
    var token := Seal(x.cipher, m.token, m.kek, x.purposes.token, m.nonces.1);
    var signingKey := Seal(x.cipher, m.signingKey, m.kek, x.purposes.signingKey, m.nonces.2);
    if token.Err? then Err(Sealing(token.error))
    else if signingKey.Err? then Err(Sealing(signingKey.error))
    else if id !in s.sessions || s.sessions[id].status != Pending then Ok((s, None))
    else
      var session := s.sessions[id].(status := Ready, installation := installation, instance := i, token := Some(token.value),
                                     signingKey := Some(signingKey.value), candidates := None);
      Ok((s.(sessions := s.sessions[id := session], minted := s.minted[id := m]),
          Some(Credentials(i, installation, m.token, m.signingKey))))
  }

  function Completed(x: Scheme, s: State, id: Id, installation: nat, allowed: Option<set<nat>>, now: int, m: Minting)
    : Result<(State, Option<Credentials>), Failure>
  {
    if installation == 0 then Err(InvalidInstallation)
    else if !Completable(s, id, installation, allowed, now) then Ok((s, None))
    else
      match Enrolled(x, s.(active := s.active[installation := true]), installation, m)
      case Err(failure) => Err(failure)
      case Ok((later, i)) => MadeReady(x, later, id, installation, i, m)
  }

  function WithSession(s: State, id: Id, session: Session): State { s.(sessions := s.sessions[id := session]) }

  function ClaimedSession(x: Scheme, s: State, id: Id, poll: Hash, now: int, keks: seq<Bytes>): Result<(State, Claim), Failure> {
    if id !in s.sessions || s.sessions[id].poll != poll then Ok((s, NotFound)) else
      var session := s.sessions[id];
      match session.status
      case Pending =>
        if session.expiresAt <= now then Ok((WithSession(s, id, session.(status := Failed)), ExpiredSession))
        else Ok((s, StillPending(session.expiresAt - now)))
      case Consumed => Ok((s, AlreadyConsumed))
      case Failed => Ok((s, FailedSession))
      case Ready =>
        if session.token.None? || session.signingKey.None? then Err(Undecryptable) else
          var token := Unseal(x.cipher, session.token.value, keks, x.purposes.token, false);
          var signingKey := Unseal(x.cipher, session.signingKey.value, keks, x.purposes.signingKey, false);
          if token.Err? || signingKey.Err? then Err(Undecryptable) else
            var credentials := Credentials(session.instance, session.installation, token.value, signingKey.value);
            Ok((WithSession(s, id, session.(status := Consumed, token := None, signingKey := None))
                  .(disclosed := s.disclosed + [(id, credentials)]),
                Delivered(credentials)))
  }

  // ---------------------------------------------------------------- what holds between transactions

  predicate WellMinted(m: Minting) {
    && Encodable(m.token) && Encodable(m.signingKey)
    && |m.nonces.0| == NONCE_BYTES && |m.nonces.1| == NONCE_BYTES && |m.nonces.2| == NONCE_BYTES
  }

  /** The sealed columns are present exactly while the session is ready, and hold what was minted for it. */
  predicate SessionSound(x: Scheme, s: State, id: Id)
    requires id in s.sessions
  {
    var session := s.sessions[id];
    && (session.token.Some? <==> session.status == Ready)
    && (session.signingKey.Some? <==> session.status == Ready)
    && (session.status == Ready ==>
        id in s.minted && WellMinted(s.minted[id])
        && Seal(x.cipher, s.minted[id].token, s.minted[id].kek, x.purposes.token, s.minted[id].nonces.1) == Ok(session.token.value)
        && Seal(x.cipher, s.minted[id].signingKey, s.minted[id].kek, x.purposes.signingKey, s.minted[id].nonces.2)
           == Ok(session.signingKey.value))
  }

  /** Each disclosure consumed its own session, and disclosed what was minted for it. */
  predicate DisclosedOnce(s: State) {
    && (forall k | 0 <= k < |s.disclosed| ::
          var (id, credentials) := s.disclosed[k];
          id in s.sessions && s.sessions[id].status == Consumed && id in s.minted
          && credentials.token == s.minted[id].token && credentials.signingKey == s.minted[id].signingKey)
    && (forall j, k | 0 <= j < k < |s.disclosed| :: s.disclosed[j].0 != s.disclosed[k].0)
  }

  ghost predicate Sound(x: Scheme, s: State) {
    && Bound(x, s.instances, s.history) && Unrepeated(s.history)
    && (forall id <- s.sessions :: SessionSound(x, s, id))
    && DisclosedOnce(s)
  }

  /**
   * Claiming a ready session delivers exactly the credentials minted for it, and does so exactly when the
   * first configured key with the sealing key's id is the sealing key.
   */
  lemma ClaimDeliversWhatWasMinted(x: Scheme, s: State, id: Id, now: int, keks: seq<Bytes>)
    requires Trusted(x) && Sound(x, s) && id in s.sessions && s.sessions[id].status == Ready
    ensures id in s.minted
    ensures var m, claim := s.minted[id], ClaimedSession(x, s, id, s.sessions[id].poll, now, keks);
            && (claim.Ok? <==> FirstMatch(x.cipher, keks, x.cipher.keyId(m.kek)) == Some(m.kek))
            && (claim.Ok? ==> claim.value.1 == Delivered(
                  Credentials(s.sessions[id].instance, s.sessions[id].installation, m.token, m.signingKey)))
            && (claim.Err? ==> claim.error == Undecryptable)
  {
    assert SessionSound(x, s, id);
    var m := s.minted[id];
    UnsealInvertsSeal(x.cipher, m.token, m.kek, x.purposes.token, m.nonces.1, keks, x.purposes.token, false);
    UnsealInvertsSeal(x.cipher, m.signingKey, m.kek, x.purposes.signingKey, m.nonces.2, keks, x.purposes.signingKey, false);
    hide Seal, Unseal, Authenticated, FirstMatch, Sound;
  }

  /** After any change that leaves the session alone, the guarded update goes through exactly if the session was pending. */
  lemma PendingIsMadeReady(x: Scheme, s: State, later: State, id: Id, installation: nat, i: Id, m: Minting)
    requires |m.kek| == KEY_BYTES && WellMinted(m) && later.sessions == s.sessions
    ensures var r := MadeReady(x, later, id, installation, i, m);
            && r.Ok? && (r.value.1.Some? <==> id in s.sessions && s.sessions[id].status == Pending)
            && (r.value.1.None? ==> r.value.0 == later)
            && (r.value.1.Some? ==>
                && r.value.0.sessions.Keys == s.sessions.Keys && r.value.0.sessions[id].status == Ready
                && r.value.1.value == Credentials(i, installation, m.token, m.signingKey))
  {
  }

  /** A completion that passes its guards finds the session still pending: enrolment, in between, leaves it alone. */
  lemma CompletionReturnsCredentials(x: Scheme, s: State, id: Id, installation: nat, allowed: Option<set<nat>>, now: int, m: Minting)
    requires |m.kek| == KEY_BYTES && WellMinted(m) && installation > 0
    ensures var r := Completed(x, s, id, installation, allowed, now, m);
            && r.Ok? && (r.value.1.Some? <==> Completable(s, id, installation, allowed, now))
            && (r.value.1.Some? ==> id in r.value.0.sessions && r.value.0.sessions[id].status == Ready
                                    && r.value.1.value.token == m.token && r.value.1.value.signingKey == m.signingKey)
            && (r.value.1.None? ==> r.value.0 == s)
  {
    var known := s.(active := s.active[installation := true]);
    EnrollmentIsApart(x, known, installation, m);
    if Completable(s, id, installation, allowed, now) {
      var (later, i) := Enrolled(x, known, installation, m).value;
      hide MadeReady, Seal;
      PendingIsMadeReady(x, s, later, id, installation, i, m);
    }
  }

  // ---------------------------------------------------------------- every transaction keeps it

  lemma UnrepeatedGrows(history: seq<Deed>, deed: Deed)
    requires Unrepeated(history) && (deed.Issued? ==> Fresh(history, deed.token))
    ensures Unrepeated(history + [deed])
  {
    var after := history + [deed];
    forall i, j | 0 <= i < j < |after| && after[i].Issued? && after[j].Issued? ensures after[i].token != after[j].token {
      assert after[i] == history[i] && history[i] in history;
    }
  }

  predicate Drawn(s: State, m: Minting) {
    WellMinted(m) && |m.kek| == KEY_BYTES && m.instance !in s.instances && Fresh(s.history, m.token)
  }

  lemma EnrollmentIsBound(x: Scheme, s: State, installation: nat, m: Minting)
    requires Bound(x, s.instances, s.history) && Unrepeated(s.history) && Drawn(s, m)
    ensures var r := Enrolled(x, s, installation, m);
            && r.Ok? && Bound(x, r.value.0.instances, r.value.0.history) && Unrepeated(r.value.0.history)
            && r.value.0.sessions == s.sessions && r.value.0.minted == s.minted && r.value.0.disclosed == s.disclosed
            && r.value.0.history == s.history + [Issued(installation, m.token)]
  {
    var sealed := Seal(x.cipher, m.signingKey, m.kek, x.purposes.stored, m.nonces.0);
    assert sealed.Ok?;
    hide Bound, Unrepeated, WithCredentials, Seal;
    IssuingKeepsBound(x, s.instances, s.history, m.instance,
                      Instance(installation, x.hash(m.token), sealed.value, false), m.token);
    UnrepeatedGrows(s.history, Issued(installation, m.token));
  }

  /** A change of one session that has disclosed nothing leaves the other sessions and the disclosures as they were. */
  lemma SessionChangeIsSound(x: Scheme, s: State, id: Id, session: Session, minted: map<Id, Minting>)
    requires forall k <- s.sessions :: SessionSound(x, s, k)
    requires DisclosedOnce(s) && (id in s.sessions ==> s.sessions[id].status != Consumed)
    requires forall k <- s.minted :: k in minted && (k == id || minted[k] == s.minted[k])
    requires SessionSound(x, WithSession(s, id, session).(minted := minted), id)
    ensures var later := WithSession(s, id, session).(minted := minted);
            (forall k <- later.sessions :: SessionSound(x, later, k)) && DisclosedOnce(later)
  {
    var later := WithSession(s, id, session).(minted := minted);
    assert forall k | 0 <= k < |s.disclosed| :: s.disclosed[k].0 != id;
    hide Seal, WellMinted;
    forall k <- later.sessions ensures SessionSound(x, later, k) {
      if k != id { assert SessionSound(x, s, k); }
    }
  }

  lemma OtherRowsAreSound(x: Scheme, s: State, later: State)
    requires Sound(x, s)
    requires later == s.(instances := later.instances, codes := later.codes, active := later.active, history := later.history)
    requires Bound(x, later.instances, later.history) && Unrepeated(later.history)
    ensures Sound(x, later)
  {
    hide Bound, Unrepeated, Seal, WellMinted;
    forall id <- later.sessions ensures SessionSound(x, later, id) { assert SessionSound(x, s, id); }
  }

  lemma RedeemingIsSound(x: Scheme, s: State, code: Hash, now: int, m: Minting)
    requires Sound(x, s) && Drawn(s, m)
    ensures Redeemed(x, s, code, now, m).Ok? && Sound(x, Redeemed(x, s, code, now, m).value.0)
  {
    if code in s.codes && !s.codes[code].redeemed && s.codes[code].expiresAt > now {
      var marked := s.(codes := s.codes[code := s.codes[code].(redeemed := true)]);
      EnrollmentIsBound(x, marked, s.codes[code].installation, m);
      hide Sound, Bound, Unrepeated, Drawn;
      OtherRowsAreSound(x, s, Redeemed(x, s, code, now, m).value.0);
    }
  }

  lemma CompletingIsSound(x: Scheme, s: State, id: Id, installation: nat, allowed: Option<set<nat>>, now: int, m: Minting)
    requires Sound(x, s) && Drawn(s, m) && Completed(x, s, id, installation, allowed, now, m).Ok?
    ensures Sound(x, Completed(x, s, id, installation, allowed, now, m).value.0)
  {
    if installation > 0 && Completable(s, id, installation, allowed, now) {
      var known := s.(active := s.active[installation := true]);
      EnrollmentIsBound(x, known, installation, m);
      var (enrolled, i) := Enrolled(x, known, installation, m).value;
      OtherRowsAreSound(x, s, enrolled);
      var later := Completed(x, s, id, installation, allowed, now, m).value.0;
      assert later == MadeReady(x, enrolled, id, installation, i, m).value.0;
      assert later == WithSession(enrolled, id, later.sessions[id]).(minted := enrolled.minted[id := m]);
      assert SessionSound(x, later, id);
      hide Bound, Unrepeated, Drawn, Enrolled, Completed, SessionSound, DisclosedOnce, MadeReady;
      SessionChangeIsSound(x, enrolled, id, later.sessions[id], enrolled.minted[id := m]);
    }
  }

  lemma DisclosureIsSound(x: Scheme, s: State, id: Id, consumed: Session, later: State)
    requires Sound(x, s) && id in s.sessions && s.sessions[id].status == Ready && consumed.status == Consumed && id in s.minted
    requires forall k <- WithSession(s, id, consumed).sessions :: SessionSound(x, WithSession(s, id, consumed), k)
    requires DisclosedOnce(WithSession(s, id, consumed)) && later.disclosed != []
    requires var (i, credentials) := later.disclosed[|later.disclosed| - 1];
             i == id && credentials.token == s.minted[id].token && credentials.signingKey == s.minted[id].signingKey
    requires later == WithSession(s, id, consumed).(disclosed := s.disclosed + [later.disclosed[|later.disclosed| - 1]])
    ensures Sound(x, later)
  {
    hide Bound, Unrepeated, Seal, WellMinted;
    assert forall k | 0 <= k < |s.disclosed| :: s.sessions[s.disclosed[k].0].status == Consumed;
    forall k <- later.sessions ensures SessionSound(x, later, k) {
      assert SessionSound(x, WithSession(s, id, consumed), k);
    }
  }

  lemma ClosingIsSound(x: Scheme, s: State, id: Id)
    requires Sound(x, s) && id in s.sessions && s.sessions[id].status == Pending
    ensures Sound(x, WithSession(s, id, s.sessions[id].(status := Failed)))
  {
    assert SessionSound(x, s, id);
    hide Bound, Unrepeated, Seal;
    SessionChangeIsSound(x, s, id, s.sessions[id].(status := Failed), s.minted);
  }

  lemma DeliveringIsSound(x: Scheme, s: State, id: Id, poll: Hash, now: int, keks: seq<Bytes>)
    requires Trusted(x) && Sound(x, s) && id in s.sessions && s.sessions[id].poll == poll && s.sessions[id].status == Ready
    requires ClaimedSession(x, s, id, poll, now, keks).Ok?
    ensures Sound(x, ClaimedSession(x, s, id, poll, now, keks).value.0)
  {
    var consumed := s.sessions[id].(status := Consumed, token := None, signingKey := None);
    assert SessionSound(x, s, id);
    ClaimDeliversWhatWasMinted(x, s, id, now, keks);
    hide Bound, Unrepeated, Seal, Unseal, Trusted;
    SessionChangeIsSound(x, s, id, consumed, s.minted);
    DisclosureIsSound(x, s, id, consumed, ClaimedSession(x, s, id, poll, now, keks).value.0);
  }

  lemma ClaimingIsSound(x: Scheme, s: State, id: Id, poll: Hash, now: int, keks: seq<Bytes>)
    requires Trusted(x) && Sound(x, s) && ClaimedSession(x, s, id, poll, now, keks).Ok?
    ensures Sound(x, ClaimedSession(x, s, id, poll, now, keks).value.0)
  {
    hide Sound, Trusted, Unseal, WithSession;
    if id in s.sessions && s.sessions[id].poll == poll {
      if s.sessions[id].status == Pending && s.sessions[id].expiresAt <= now {
        ClosingIsSound(x, s, id);
      } else if s.sessions[id].status == Ready {
        DeliveringIsSound(x, s, id, poll, now, keks);
      }
    }
  }

  // ---------------------------------------------------------------- authentication

  /** Whom a token authenticates, and the key that signs their deliveries. */
  datatype Caller = Caller(instance: Id, installation: nat, signingKey: Text)

  predicate NeedsReseal(x: Scheme, stored: Text, kek: Bytes) {
    !IsSealed(stored) || |Split(stored, DOT)| != 4 || Split(stored, DOT)[2] != x.cipher.keyId(kek)
  }

  /** A stored signing key under the current key; one that cannot be sealed again stays as it is. */
  function Resealed(x: Scheme, stored: Text, plaintext: Text, kek: Bytes, nonce: Bytes): Text {
    if !NeedsReseal(x, stored, kek) then stored else
      match Seal(x.cipher, plaintext, kek, x.purposes.stored, nonce)
      case Ok(sealed) => sealed
      case Err(_) => stored
  }

  function WithKey(s: State, id: Id, signingKey: Text): State
    requires id in s.instances
  {
    s.(instances := s.instances[id := s.instances[id].(signingKey := signingKey)])
  }

  function AuthenticatedBy(x: Scheme, s: State, token: Text, keks: seq<Bytes>, nonce: Bytes)
    : Result<(State, Option<Caller>), Failure>
  {
    match Newest(set i <- s.instances | Opens(s.instances[i], x.hash(token)))
    case None => Ok((s, None))
    case Some(id) =>
      if keks == [] then Err(NotConfigured) else
        var row := s.instances[id];
        match Unseal(x.cipher, row.signingKey, keks, x.purposes.stored, true)
        case Err(_) => Err(Undecryptable)
        case Ok(plaintext) =>
          Ok((WithKey(s, id, Resealed(x, row.signingKey, plaintext, keks[0], nonce)),
              Some(Caller(id, row.installation, plaintext))))
  }

  /** Moving a stored signing key onto the current key does not change what it opens to. */
  lemma ResealingKeepsTheKey(x: Scheme, stored: Text, plaintext: Text, nonce: Bytes, keks: seq<Bytes>)
    requires Trusted(x) && keks != [] && |nonce| == NONCE_BYTES
    requires Unseal(x.cipher, stored, keks, x.purposes.stored, true) == Ok(plaintext)
    ensures var later := Resealed(x, stored, plaintext, keks[0], nonce);
            && Unseal(x.cipher, later, keks, x.purposes.stored, true) == Ok(plaintext)
            && (Seal(x.cipher, plaintext, keks[0], x.purposes.stored, nonce).Ok? ==> !NeedsReseal(x, later, keks[0]))
  {
    if Seal(x.cipher, plaintext, keks[0], x.purposes.stored, nonce).Ok? {
      UnsealInvertsSeal(x.cipher, plaintext, keks[0], x.purposes.stored, nonce, keks, x.purposes.stored, true);
      SealedShape(x.cipher, plaintext, keks[0], x.purposes.stored, nonce);
    }
    hide Unseal, Seal, Authenticated, Split, IsSealed;
  }

  /**
   * Authenticating hands out the signing key that is stored, and leaves every instance with the credential
   * and the key it had, whatever key it is sealed under now.
   */
  lemma AuthenticationKeepsTheKeys(x: Scheme, s: State, token: Text, keks: seq<Bytes>, nonce: Bytes, i: Id, key: Text)
    requires Trusted(x) && |nonce| == NONCE_BYTES && i in s.instances && AuthenticatedBy(x, s, token, keks, nonce).Ok?
    requires Unseal(x.cipher, s.instances[i].signingKey, keks, x.purposes.stored, true) == Ok(key)
    ensures var (later, caller) := AuthenticatedBy(x, s, token, keks, nonce).value;
            && later.instances.Keys == s.instances.Keys
            && later.instances[i].(signingKey := s.instances[i].signingKey) == s.instances[i]
            && Unseal(x.cipher, later.instances[i].signingKey, keks, x.purposes.stored, true) == Ok(key)
            && (caller.Some? && caller.value.instance == i ==> caller.value.signingKey == key)
  {
    hide Unseal, Resealed, Trusted, Opens, Seal, NeedsReseal;
    if keks != [] { ResealingKeepsTheKey(x, s.instances[i].signingKey, key, nonce, keks); }
  }

  /** A token is answered exactly when some instance opens, and then with the live instance of that token. */
  lemma AuthenticationFollowsHistory(x: Scheme, s: State, token: Text, keks: seq<Bytes>, nonce: Bytes)
    requires Trusted(x) && Sound(x, s) && AuthenticatedBy(x, s, token, keks, nonce).Ok?
    ensures match AuthenticatedBy(x, s, token, keks, nonce).value.1
            case None => forall installation :: !LatestUnrevoked(s.history, installation, token)
            case Some(caller) => LatestUnrevoked(s.history, caller.installation, token)
  {
    UnpackSound(x, s);
    var rows := set i <- s.instances | Opens(s.instances[i], x.hash(token));
    hide Trusted, Sound, Bound, LatestUnrevoked, Unrepeated, Unseal, Resealed, Opens;
    if rows == {} {
      forall installation: nat ensures !LatestUnrevoked(s.history, installation, token) {
        TokenOpensIffLive(x, s.instances, s.history, token, installation);
        LiveIsLatestUnrevoked(s.history, installation, token);
        assert forall i <- s.instances :: i !in rows;
      }
    } else {
      var id := Greatest(rows);
      TokenOpensIffLive(x, s.instances, s.history, token, s.instances[id].installation);
      LiveIsLatestUnrevoked(s.history, s.instances[id].installation, token);
    }
  }

  lemma KeyChangeIsSound(x: Scheme, s: State, id: Id, sealed: Text)
    requires Sound(x, s) && id in s.instances
    ensures Sound(x, WithKey(s, id, sealed))
  {
    BoundIgnoresKeys(x, s.instances, s.history, id, sealed);
    UnpackSound(x, s);
    hide Sound, Bound;
    OtherRowsAreSound(x, s, WithKey(s, id, sealed));
  }

  lemma AuthenticatingIsSound(x: Scheme, s: State, token: Text, keks: seq<Bytes>, nonce: Bytes)
    requires Sound(x, s) && AuthenticatedBy(x, s, token, keks, nonce).Ok?
    ensures Sound(x, AuthenticatedBy(x, s, token, keks, nonce).value.0)
  {
    hide Sound, Unseal, Resealed, Opens;
    match Newest(set i <- s.instances | Opens(s.instances[i], x.hash(token)))
    case None =>
    case Some(id) =>
      var plaintext := Unseal(x.cipher, s.instances[id].signingKey, keks, x.purposes.stored, true).value;
      KeyChangeIsSound(x, s, id, Resealed(x, s.instances[id].signingKey, plaintext, keks[0], nonce));
  }

  lemma UnpackSound(x: Scheme, s: State)
    requires Sound(x, s)
    ensures Bound(x, s.instances, s.history) && Unrepeated(s.history)
  {
  }

  lemma BoundIgnoresKeys(x: Scheme, instances: map<Id, Instance>, history: seq<Deed>, id: Id, sealed: Text)
    requires Bound(x, instances, history) && id in instances
    ensures Bound(x, instances[id := instances[id].(signingKey := sealed)], history)
  {
    var later := instances[id := instances[id].(signingKey := sealed)];
    forall n: nat | Live(history, n).Some? ensures exists i <- later :: LiveRow(later[i], n) {
      var i :| i in instances && LiveRow(instances[i], n);
      assert LiveRow(later[i], n);
    }
  }

  // ---------------------------------------------------------------- every run

  datatype Step =
    | CreateCode(code: Hash, installation: nat, expiresAt: int)
    | CreateSession(id: Id, poll: Hash, expiresAt: int)
    | SetCandidates(id: Id, candidates: set<nat>, now: int)
    | FailSession(id: Id)
    | Redeem(code: Hash, now: int, m: Minting)
    | Complete(id: Id, installation: nat, allowed: Option<set<nat>>, now: int, m: Minting)
    | ClaimSession(id: Id, poll: Hash, now: int, keks: seq<Bytes>)
    | Revoke(token: Text)
    | SetActive(installation: nat, nowActive: bool, revoke: bool)
    | Authenticate(token: Text, keks: seq<Bytes>, nonce: Bytes)

  /** Ids and tokens are drawn fresh; everything else is open to any caller. */
  predicate Possible(s: State, step: Step) {
    match step
    case CreateSession(id, _, _) => id !in s.sessions && id !in s.minted
    case Redeem(_, _, m) => Drawn(s, m)
    case Complete(_, _, _, _, m) => Drawn(s, m)
    case _ => true
  }

  function After(x: Scheme, s: State, step: Step): State {
    match step
    case CreateCode(code, installation, expiresAt) => s.(codes := s.codes[code := Code(installation, expiresAt, false)])
    case CreateSession(id, poll, expiresAt) =>
      WithSession(s, id, Session(poll, Pending, 0, 0, None, None, None, expiresAt))
    case SetCandidates(id, candidates, now) =>
      if id in s.sessions && s.sessions[id].status == Pending && s.sessions[id].expiresAt > now
      then WithSession(s, id, s.sessions[id].(candidates := Some(candidates))) else s
    case FailSession(id) =>
      if id in s.sessions && s.sessions[id].status == Pending
      then WithSession(s, id, s.sessions[id].(status := Failed, candidates := None)) else s
    case Redeem(code, now, m) => var r := Redeemed(x, s, code, now, m); if r.Ok? then r.value.0 else s
    case Complete(id, installation, allowed, now, m) =>
      var r := Completed(x, s, id, installation, allowed, now, m); if r.Ok? then r.value.0 else s
    case ClaimSession(id, poll, now, keks) =>
      var r := ClaimedSession(x, s, id, poll, now, keks); if r.Ok? then r.value.0 else s
    case Revoke(token) =>
      s.(instances := RevokedToken(x, s.instances, token), history := s.history + [Revoked(token)])
    case SetActive(installation, nowActive, revoke) =>
      if installation !in s.active then s else
        var known := s.(active := s.active[installation := nowActive]);
        if revoke then known.(instances := RevokedInstallation(s.instances, installation),
                              history := s.history + [Uninstalled(installation)])
        else known
    case Authenticate(token, keks, nonce) =>
      var r := AuthenticatedBy(x, s, token, keks, nonce); if r.Ok? then r.value.0 else s
  }

  lemma PendingChangeIsSound(x: Scheme, s: State, id: Id, session: Session)
    requires Sound(x, s) && (id in s.sessions ==> s.sessions[id].status == Pending)
    requires session.status in {Pending, Failed} && session.token == None && session.signingKey == None
    ensures Sound(x, WithSession(s, id, session))
  {
    hide Bound, Unrepeated, Seal, WellMinted;
    SessionChangeIsSound(x, s, id, session, s.minted);
  }

  lemma RevocationIsSound(x: Scheme, s: State, later: State, deed: Deed)
    requires Sound(x, s) && !deed.Issued? && later.history == s.history + [deed]
    requires later == s.(instances := later.instances, active := later.active, history := later.history)
    requires Bound(x, later.instances, later.history)
    ensures Sound(x, later)
  {
    hide Bound;
    UnrepeatedGrows(s.history, deed);
    OtherRowsAreSound(x, s, later);
  }

  lemma StepIsSound(x: Scheme, s: State, step: Step)
    requires Trusted(x) && Sound(x, s) && Possible(s, step)
    ensures Sound(x, After(x, s, step))
  {
    assert forall id <- s.sessions :: SessionSound(x, s, id);
    assert Bound(x, s.instances, s.history) && Unrepeated(s.history);
    hide Sound, Trusted, Bound, Redeemed, Completed, ClaimedSession, AuthenticatedBy, WithSession, Drawn, RevokedToken, RevokedInstallation, Unrepeated;
    match step
    case CreateCode(code, installation, expiresAt) => OtherRowsAreSound(x, s, After(x, s, step));
    case CreateSession(id, poll, expiresAt) =>
      PendingChangeIsSound(x, s, id, Session(poll, Pending, 0, 0, None, None, None, expiresAt));
    case SetCandidates(id, candidates, now) =>
      if id in s.sessions && s.sessions[id].status == Pending {
        assert SessionSound(x, s, id);
        PendingChangeIsSound(x, s, id, s.sessions[id].(candidates := Some(candidates)));
      }
    case FailSession(id) =>
      if id in s.sessions && s.sessions[id].status == Pending {
        assert SessionSound(x, s, id);
        PendingChangeIsSound(x, s, id, s.sessions[id].(status := Failed, candidates := None));
      }
    case Redeem(code, now, m) => RedeemingIsSound(x, s, code, now, m);
    case Complete(id, installation, allowed, now, m) =>
      if Completed(x, s, id, installation, allowed, now, m).Ok? { CompletingIsSound(x, s, id, installation, allowed, now, m); }
    case ClaimSession(id, poll, now, keks) =>
      if ClaimedSession(x, s, id, poll, now, keks).Ok? { ClaimingIsSound(x, s, id, poll, now, keks); }
    case Revoke(token) =>
      RevokingKeepsBound(x, s.instances, s.history, token);
      RevocationIsSound(x, s, After(x, s, step), Revoked(token));
    case SetActive(installation, nowActive, revoke) =>
      UninstallingKeepsBound(x, s.instances, s.history, installation);
      if installation in s.active && revoke { RevocationIsSound(x, s, After(x, s, step), Uninstalled(installation)); }
      else { OtherRowsAreSound(x, s, After(x, s, step)); }
    case Authenticate(token, keks, nonce) =>
      if AuthenticatedBy(x, s, token, keks, nonce).Ok? { AuthenticatingIsSound(x, s, token, keks, nonce); }
  }

  const EMPTY := State(map[], map[], map[], map[], [], map[], [])

  ghost predicate Execution(x: Scheme, states: seq<State>, steps: seq<Step>) {
    && |states| == |steps| + 1 && states[0] == EMPTY
    && forall i | 0 <= i < |steps| :: Possible(states[i], steps[i]) && states[i + 1] == After(x, states[i], steps[i])
  }

  lemma {:induction false} EveryRunIsSound(x: Scheme, states: seq<State>, steps: seq<Step>, i: nat)
    requires Trusted(x) && Execution(x, states, steps) && i < |states|
    ensures Sound(x, states[i])
  {
    if i == 0 {
    } else {
      EveryRunIsSound(x, states, steps, i - 1);
      assert Possible(states[i - 1], steps[i - 1]) && states[i] == After(x, states[i - 1], steps[i - 1]);
      hide Sound, Trusted, Possible, After;
      StepIsSound(x, states[i - 1], steps[i - 1]);
    }
  }

  /** In every run a token authenticates exactly when it is the latest of its installation and not revoked since. */
  lemma TokensAuthenticateExactly(x: Scheme, states: seq<State>, steps: seq<Step>, i: nat, token: Text, installation: nat)
    requires Trusted(x) && Execution(x, states, steps) && i < |states|
    ensures (exists k <- states[i].instances ::
               Opens(states[i].instances[k], x.hash(token)) && states[i].instances[k].installation == installation)
            <==> LatestUnrevoked(states[i].history, installation, token)
    ensures forall j, k | j in states[i].instances && k in states[i].instances
                          && Opens(states[i].instances[j], x.hash(token)) && Opens(states[i].instances[k], x.hash(token)) :: j == k
  {
    EveryRunIsSound(x, states, steps, i);
    var s := states[i];
    assert Bound(x, s.instances, s.history) && Unrepeated(s.history);
    hide Execution, Sound, Bound, Trusted, LatestUnrevoked, Opens, Unrepeated;
    TokenOpensIffLive(x, s.instances, s.history, token, installation);
    LiveIsLatestUnrevoked(s.history, installation, token);
    forall j, k | j in s.instances && k in s.instances
                  && Opens(s.instances[j], x.hash(token)) && Opens(s.instances[k], x.hash(token))
      ensures j == k
    {
      OneInstanceOpens(x, s.instances, s.history, token, j, k);
    }
  }

  /** In every run a session's sealed columns are there exactly while it is ready, and it discloses what was minted, once. */
  lemma SessionsDiscloseOnce(x: Scheme, states: seq<State>, steps: seq<Step>, i: nat)
    requires Trusted(x) && Execution(x, states, steps) && i < |states|
    ensures forall id <- states[i].sessions ::
              var session := states[i].sessions[id];
              session.token.Some? == session.signingKey.Some? == session.status.Ready?
    ensures forall j, k | 0 <= j < k < |states[i].disclosed| :: states[i].disclosed[j].0 != states[i].disclosed[k].0
    ensures forall k | 0 <= k < |states[i].disclosed| ::
              var (id, credentials) := states[i].disclosed[k];
              id in states[i].minted && credentials.token == states[i].minted[id].token
              && credentials.signingKey == states[i].minted[id].signingKey
  {
    EveryRunIsSound(x, states, steps, i);
    hide Execution, Trusted, Bound, Unrepeated;
    assert forall id <- states[i].sessions :: SessionSound(x, states[i], id);
  }

  // ---------------------------------------------------------------- the poll secret

  /** Without the session's own poll hash, a claim finds nothing and changes nothing. */
  lemma ClaimNeedsThePoll(x: Scheme, s: State, id: Id, poll: Hash, now: int, keks: seq<Bytes>)
    requires id in s.sessions ==> s.sessions[id].poll != poll
    ensures ClaimedSession(x, s, id, poll, now, keks) == Ok((s, NotFound))
    ensures After(x, s, ClaimSession(id, poll, now, keks)) == s
  {
  }

  /** What a claim answers, and what it does to the sessions, by the status of the session whose poll hash it carries. */
  predicate AnswersHolder(before: map<Id, Session>, later: map<Id, Session>, id: Id, poll: Hash, now: int, r: Result<Claim, Failure>) {
    if !(id in before && before[id].poll == poll) then r == Ok(NotFound) && later == before
    else
      var row := before[id];
      match row.status
      case Pending =>
        if now < row.expiresAt then r == Ok(StillPending(row.expiresAt - now)) && later == before
        else r == Ok(ExpiredSession) && later == before[id := row.(status := Failed)]
      case Consumed => r == Ok(AlreadyConsumed) && later == before
      case Failed => r == Ok(FailedSession) && later == before
      case Ready =>
        if r.Ok? then r.value.Delivered? && later == before[id := row.(status := Consumed, token := None, signingKey := None)]
        else r == Err(Undecryptable) && later == before
  }

  lemma ClaimAnswersHolder(x: Scheme, s: State, id: Id, poll: Hash, now: int, keks: seq<Bytes>)
    ensures match ClaimedSession(x, s, id, poll, now, keks)
            case Ok((later, claim)) => AnswersHolder(s.sessions, later.sessions, id, poll, now, Ok(claim))
            case Err(failure) => AnswersHolder(s.sessions, s.sessions, id, poll, now, Err(failure))
  {
    hide Unseal;
  }

  predicate Opening(step: Step, id: Id, poll: Hash) { step.CreateSession? && step.id == id && step.poll == poll }

  predicate Claiming(step: Step, id: Id, poll: Hash) { step.ClaimSession? && step.id == id && step.poll == poll }

  /** Sessions stay, each under its poll hash, and only `CreateSession` opens one. */
  predicate PollsKept(s: State, later: State, step: Step) {
    && (forall id <- s.sessions :: id in later.sessions && later.sessions[id].poll == s.sessions[id].poll)
    && (forall id <- later.sessions | id !in s.sessions :: Opening(step, id, later.sessions[id].poll))
  }

  /** Nothing is disclosed but by a claim, and then by one that carries the poll hash of the session. */
  predicate DisclosedToHolder(s: State, later: State, step: Step) {
    later.disclosed == s.disclosed
    || (&& |later.disclosed| == |s.disclosed| + 1 && later.disclosed[..|s.disclosed|] == s.disclosed
        && var id := later.disclosed[|s.disclosed|].0;
        id in s.sessions && Claiming(step, id, s.sessions[id].poll))
  }

  lemma CompletingKeepsPolls(x: Scheme, s: State, id: Id, installation: nat, allowed: Option<set<nat>>, now: int, m: Minting)
    requires Completed(x, s, id, installation, allowed, now, m).Ok?
    ensures var later := Completed(x, s, id, installation, allowed, now, m).value.0;
            && later.disclosed == s.disclosed && later.sessions.Keys == s.sessions.Keys
            && forall k <- s.sessions :: later.sessions[k].poll == s.sessions[k].poll
  {
    hide Seal, WithCredentials;
  }

  lemma ClaimingKeepsPolls(x: Scheme, s: State, id: Id, poll: Hash, now: int, keks: seq<Bytes>)
    requires ClaimedSession(x, s, id, poll, now, keks).Ok?
    ensures var later, step := ClaimedSession(x, s, id, poll, now, keks).value.0, ClaimSession(id, poll, now, keks);
            PollsKept(s, later, step) && DisclosedToHolder(s, later, step)
  {
    hide Unseal;
  }

  lemma RedeemingLeavesSessions(x: Scheme, s: State, code: Hash, now: int, m: Minting)
    ensures var r := Redeemed(x, s, code, now, m);
            r.Ok? ==> r.value.0.sessions == s.sessions && r.value.0.disclosed == s.disclosed
  {
    hide Seal, WithCredentials;
  }

  lemma AuthenticatingLeavesSessions(x: Scheme, s: State, token: Text, keks: seq<Bytes>, nonce: Bytes)
    ensures var r := AuthenticatedBy(x, s, token, keks, nonce);
            r.Ok? ==> r.value.0.sessions == s.sessions && r.value.0.disclosed == s.disclosed
  {
    hide Unseal, Resealed, Opens;
  }

  lemma StepKeepsPolls(x: Scheme, s: State, step: Step)
    requires Possible(s, step)
    ensures PollsKept(s, After(x, s, step), step) && DisclosedToHolder(s, After(x, s, step), step)
  {
    hide Completed, ClaimedSession, RevokedToken, RevokedInstallation, Seal, Unseal, WithCredentials, Resealed, Opens, Drawn;
    hide Redeemed, AuthenticatedBy;
    match step
    case Redeem(code, now, m) => RedeemingLeavesSessions(x, s, code, now, m);
    case Authenticate(token, keks, nonce) => AuthenticatingLeavesSessions(x, s, token, keks, nonce);
    case Complete(id, installation, allowed, now, m) =>
      if Completed(x, s, id, installation, allowed, now, m).Ok? { CompletingKeepsPolls(x, s, id, installation, allowed, now, m); }
    case ClaimSession(id, poll, now, keks) =>
      if ClaimedSession(x, s, id, poll, now, keks).Ok? { ClaimingKeepsPolls(x, s, id, poll, now, keks); }
    case _ =>
  }

  lemma StepOf(x: Scheme, states: seq<State>, steps: seq<Step>, i: nat)
    requires Execution(x, states, steps) && i < |steps|
    ensures |states| == |steps| + 1 && Possible(states[i], steps[i]) && states[i + 1] == After(x, states[i], steps[i])
  {
    hide After, Possible;
  }

  /** In every run a session is known from the one step on that created it, under the poll hash that step carried. */
  lemma {:induction false} SessionsKeepTheirPoll(x: Scheme, states: seq<State>, steps: seq<Step>, i: nat, id: Id) returns (a: nat)
    requires Execution(x, states, steps) && i < |states| && id in states[i].sessions
    ensures a < i && Opening(steps[a], id, states[i].sessions[id].poll)
  {
    hide Execution, PollsKept, DisclosedToHolder, Possible, After;
    NothingAtFirst(x, states, steps);
    StepOf(x, states, steps, i - 1);
    StepKeepsPolls(x, states[i - 1], steps[i - 1]);
    PollBefore(states[i - 1], states[i], steps[i - 1], id);
    if id in states[i - 1].sessions {
      a := SessionsKeepTheirPoll(x, states, steps, i - 1, id);
    } else {
      a := i - 1;
    }
  }

  lemma NothingAtFirst(x: Scheme, states: seq<State>, steps: seq<Step>)
    requires Execution(x, states, steps)
    ensures |states| == |steps| + 1 && states[0] == EMPTY
  {
  }

  lemma PollBefore(s: State, later: State, step: Step, id: Id)
    requires PollsKept(s, later, step) && id in later.sessions
    ensures if id in s.sessions then later.sessions[id].poll == s.sessions[id].poll else Opening(step, id, later.sessions[id].poll)
  {
  }

  lemma PollAfter(s: State, later: State, step: Step, id: Id)
    requires PollsKept(s, later, step) && id in s.sessions
    ensures id in later.sessions && later.sessions[id].poll == s.sessions[id].poll
  {
  }

  lemma CreatedIsKnown(x: Scheme, s: State, step: Step)
    requires step.CreateSession?
    ensures step.id in After(x, s, step).sessions && After(x, s, step).sessions[step.id].poll == step.poll
  {
  }

  lemma {:induction false} OpenedStaysKnown(x: Scheme, states: seq<State>, steps: seq<Step>, a: nat, i: nat)
    requires Execution(x, states, steps) && a < i < |states| && steps[a].CreateSession?
    ensures steps[a].id in states[i].sessions && states[i].sessions[steps[a].id].poll == steps[a].poll
    ensures i < |steps| && steps[i].CreateSession? ==> steps[i].id != steps[a].id
  {
    hide Execution, PollsKept, DisclosedToHolder, After;
    NothingAtFirst(x, states, steps);
    StepOf(x, states, steps, i - 1);
    StepKeepsPolls(x, states[i - 1], steps[i - 1]);
    if a < i - 1 {
      OpenedStaysKnown(x, states, steps, a, i - 1);
      PollAfter(states[i - 1], states[i], steps[i - 1], steps[a].id);
    } else {
      CreatedIsKnown(x, states[a], steps[a]);
    }
    if i < |steps| { StepOf(x, states, steps, i); }
  }

  /**
   * In every run, credentials are disclosed only to a claim that carried the poll hash with which their session
   * was opened, by the one step that opened it.
   */
  lemma {:induction false} DisclosureNeedsThePoll(x: Scheme, states: seq<State>, steps: seq<Step>, i: nat, k: nat)
      returns (a: nat, b: nat)
    requires Execution(x, states, steps) && i < |states| && k < |states[i].disclosed|
    ensures a < b < i && steps[a].CreateSession? && Claiming(steps[b], steps[a].id, steps[a].poll)
    ensures states[i].disclosed[k].0 == steps[a].id
    ensures |states[b].disclosed| == k && |states[b + 1].disclosed| == k + 1 && states[b + 1].disclosed[k] == states[i].disclosed[k]
    ensures forall c | 0 <= c < |steps| && steps[c].CreateSession? && steps[c].id == steps[a].id :: c == a
  {
    hide Execution, PollsKept, Possible, After;
    NothingAtFirst(x, states, steps);
    StepOf(x, states, steps, i - 1);
    StepKeepsPolls(x, states[i - 1], steps[i - 1]);
    if k < |states[i - 1].disclosed| {
      assert states[i - 1].disclosed[k] == states[i].disclosed[k];
      a, b := DisclosureNeedsThePoll(x, states, steps, i - 1, k);
    } else {
      b := i - 1;
      a := SessionsKeepTheirPoll(x, states, steps, b, states[i].disclosed[k].0);
      forall c | 0 <= c < |steps| && steps[c].CreateSession? && steps[c].id == steps[a].id ensures c == a {
        if a < c { OpenedStaysKnown(x, states, steps, a, c); }
        if c < a { OpenedStaysKnown(x, states, steps, c, a); }
      }
    }
  }

  // ---------------------------------------------------------------- the store

  class RelayStore {
    const x: Scheme
    var instances: map<Id, Instance>
    var codes: map<Hash, Code>
    var sessions: map<Id, Session>
    var active: map<nat, bool>
    ghost var now: State

    ghost predicate Valid()
      reads this
    {
      && now.instances == instances && now.codes == codes && now.sessions == sessions && now.active == active
      && Sound(x, now)
    }

    constructor (x: Scheme)
      ensures Valid() && this.x == x && now == EMPTY
    {
      this.x := x;
      instances, codes, sessions, active := map[], map[], map[], map[];
      now := EMPTY;
    }

    /** One statement inserts the instance or, for an installation that has a live one, replaces its credentials. */
    method InsertInstanceCredentials(installation: nat, m: Minting) returns (r: Result<Id, Failure>)
      modifies this`instances, this`now
      requires now.instances == instances
      ensures r.Ok? <==> Enrolled(x, old(now), installation, m).Ok?
      ensures r.Err? ==> now == old(now) && instances == old(instances)
                         && r.error == Enrolled(x, old(now), installation, m).error
      ensures r.Ok? ==> (now, r.value) == Enrolled(x, old(now), installation, m).value && now.instances == instances
    {
      var sealed := Seal(x.cipher, m.signingKey, m.kek, x.purposes.stored, m.nonces.0);
      if sealed.Err? { return Err(Sealing(sealed.error)); }
      hide Seal;
      var row := Instance(installation, x.hash(m.token), sealed.value, false);
      var existing := Newest(set i <- instances | LiveRow(instances[i], installation));
      ghost var start := now;
      now := now.(instances := WithCredentials(now.instances, m.instance, row).0,
                  history := now.history + [Issued(installation, m.token)]);
      var id := m.instance;
      if existing.Some? {
        id := existing.value;
        instances := instances[id := instances[id].(credential := row.credential, signingKey := row.signingKey)];
      } else {
        instances := instances[id := row];
      }
      return Ok(id);
    }

    method RedeemConnectionCode(code: Hash, time: int, m: Minting) returns (r: Option<Credentials>)
      requires Valid() && Drawn(now, m)
      modifies this
      ensures Valid() && Redeemed(x, old(now), code, time, m) == Ok((now, r))
    {
      RedeemingIsSound(x, now, code, time, m);
      hide Sound, Enrolled;
      if code !in codes || codes[code].redeemed || codes[code].expiresAt <= time { return None; }
      var installation := codes[code].installation;
      codes := codes[code := codes[code].(redeemed := true)];
      now := now.(codes := codes);
      var inserted := InsertInstanceCredentials(installation, m);
      return Some(Credentials(inserted.value, installation, m.token, m.signingKey));
    }

    /** The row is read and checked under a lock; the update that ends the transaction checks its status again. */
    method CompleteConnectSession(id: Id, installation: nat, allowed: Option<set<nat>>, time: int, m: Minting)
      returns (r: Result<Option<Credentials>, Failure>)
      requires Valid() && Drawn(now, m)
      modifies this
      ensures Valid()
      ensures r.Ok? <==> installation > 0
      ensures r.Ok? ==> Completed(x, old(now), id, installation, allowed, time, m) == Ok((now, r.value))
      ensures r.Err? ==> now == old(now)
      ensures r.Ok? ==> (r.value.Some? <==> Completable(old(now), id, installation, allowed, time))
    {
      if installation == 0 { return Err(InvalidInstallation); }
      CompletionSteps(x, now, id, installation, allowed, time, m);
      hide Sound, Enrolled, MadeReady, Drawn, Completed;
      if id !in sessions || sessions[id].expiresAt <= time || sessions[id].status != Pending { return Ok(None); }
      var permitted := if allowed.Some? then allowed else sessions[id].candidates;
      if permitted.Some? && installation !in permitted.value { return Ok(None); }
      var credentials := StoreReadySession(id, installation, m);
      return Ok(credentials);
    }

    /** The installation, its credentials and the session, in that order; no credentials if the session is not pending. */
    method StoreReadySession(id: Id, installation: nat, m: Minting) returns (credentials: Option<Credentials>)
      requires now.instances == instances && now.sessions == sessions && now.active == active && now.codes == codes
      requires var enrolled := Enrolled(x, now.(active := active[installation := true]), installation, m);
               enrolled.Ok? && MadeReady(x, enrolled.value.0, id, installation, enrolled.value.1, m).Ok?
      modifies this
      ensures var (later, i) := Enrolled(x, old(now).(active := old(active)[installation := true]), installation, m).value;
              MadeReady(x, later, id, installation, i, m) == Ok((now, credentials))
      ensures now.instances == instances && now.sessions == sessions && now.active == active && now.codes == codes
    {
      EnrollmentIsApart(x, now.(active := active[installation := true]), installation, m);
      hide Enrolled, Seal;
      active := active[installation := true];
      now := now.(active := active);
      var inserted := InsertInstanceCredentials(installation, m);
      var token := Seal(x.cipher, m.token, m.kek, x.purposes.token, m.nonces.1);
      var signingKey := Seal(x.cipher, m.signingKey, m.kek, x.purposes.signingKey, m.nonces.2);
      if id !in sessions || sessions[id].status != Pending { return None; }
      sessions := sessions[id := sessions[id].(status := Ready, installation := installation, instance := inserted.value,
                                               token := Some(token.value), signingKey := Some(signingKey.value),
                                               candidates := None)];
      now := now.(sessions := sessions, minted := now.minted[id := m]);
      return Some(Credentials(inserted.value, installation, m.token, m.signingKey));
    }

    method ClaimConnectSession(id: Id, poll: Hash, time: int, keks: seq<Bytes>) returns (r: Result<Claim, Failure>)
      requires Valid() && Trusted(x)
      modifies this
      ensures Valid()
      ensures match ClaimedSession(x, old(now), id, poll, time, keks)
              case Ok((later, claim)) => now == later && r == Ok(claim)
              case Err(failure) => now == old(now) && r == Err(failure)
      ensures AnswersHolder(old(sessions), sessions, id, poll, time, r)
    {
      if ClaimedSession(x, now, id, poll, time, keks).Ok? { ClaimingIsSound(x, now, id, poll, time, keks); }
      ClaimLeavesTheRest(x, now, id, poll, time, keks);
      ClaimAnswersHolder(x, now, id, poll, time, keks);
      hide Sound, Trusted, Unseal, AnswersHolder;
      if id !in sessions || sessions[id].poll != poll { return Ok(NotFound); }
      var session := sessions[id];
      if session.status == Pending {
        if session.expiresAt <= time {
          sessions := sessions[id := session.(status := Failed)];
          now := now.(sessions := sessions);
          return Ok(ExpiredSession);
        }
        return Ok(StillPending(session.expiresAt - time));
      }
      if session.status == Ready {
        r := DeliverCredentials(id, time, keks);
        return;
      }
      return Ok(if session.status == Consumed then AlreadyConsumed else FailedSession);
    }

    method DeliverCredentials(id: Id, time: int, keks: seq<Bytes>) returns (r: Result<Claim, Failure>)
      requires now.sessions == sessions && id in sessions && sessions[id].status == Ready
      modifies this`sessions, this`now
      ensures now.sessions == sessions
      ensures match ClaimedSession(x, old(now), id, old(sessions)[id].poll, time, keks)
              case Ok((later, claim)) => now == later && r == Ok(claim)
              case Err(failure) => now == old(now) && r == Err(failure)
    {
      hide Unseal;
      var session := sessions[id];
      if session.token.None? || session.signingKey.None? { return Err(Undecryptable); }
      var token := Unseal(x.cipher, session.token.value, keks, x.purposes.token, false);
      var signingKey := Unseal(x.cipher, session.signingKey.value, keks, x.purposes.signingKey, false);
      if token.Err? || signingKey.Err? { return Err(Undecryptable); }
      var credentials := Credentials(session.instance, session.installation, token.value, signingKey.value);
      sessions := sessions[id := session.(status := Consumed, token := None, signingKey := None)];
      now := now.(sessions := sessions, disclosed := now.disclosed + [(id, credentials)]);
      return Ok(Delivered(credentials));
    }

    method RevokeInstance(token: Text) returns (revoked: bool)
      requires Valid() && Trusted(x)
      modifies this
      ensures Valid() && now == After(x, old(now), Revoke(token))
      ensures revoked <==> exists i <- old(instances) :: Opens(old(instances)[i], x.hash(token))
    {
      StepIsSound(x, now, Revoke(token));
      hide Sound, Trusted;
      revoked := exists i <- instances :: Opens(instances[i], x.hash(token));
      instances := RevokedToken(x, instances, token);
      now := now.(instances := instances, history := now.history + [Revoked(token)]);
    }

    method SetInstallationActive(installation: nat, nowActive: bool, revoke: bool) returns (known: bool)
      requires Valid() && Trusted(x)
      modifies this
      ensures Valid() && now == After(x, old(now), SetActive(installation, nowActive, revoke))
      ensures known <==> installation in old(active)
      ensures active == if known then old(active)[installation := nowActive] else old(active)
    {
      StepIsSound(x, now, SetActive(installation, nowActive, revoke));
      hide Sound, Trusted, RevokedInstallation;
      if installation !in active { return false; }
      active := active[installation := nowActive];
      now := now.(active := active);
      if revoke {
        instances := RevokedInstallation(instances, installation);
        now := now.(instances := instances, history := now.history + [Uninstalled(installation)]);
      }
      return true;
    }

    /** The instance a token opens; its stored key moves onto the current key-encryption key on the way. */
    method AuthenticateInstance(token: Text, keks: seq<Bytes>, nonce: Bytes) returns (r: Result<Option<Caller>, Failure>)
      requires Valid() && Trusted(x)
      modifies this
      ensures Valid()
      ensures match AuthenticatedBy(x, old(now), token, keks, nonce)
              case Ok((later, caller)) => now == later && r == Ok(caller)
              case Err(failure) => now == old(now) && r == Err(failure)
    {
      hide Sound, Trusted, Unseal, Seal, NeedsReseal, Opens, Authenticated;
      if AuthenticatedBy(x, now, token, keks, nonce).Ok? { AuthenticatingIsSound(x, now, token, keks, nonce); }
      var rows := set i <- instances | Opens(instances[i], x.hash(token));
      if rows == {} { return Ok(None); }
      if keks == [] { return Err(NotConfigured); }
      var id := Greatest(rows);
      var stored := instances[id].signingKey;
      var plaintext := Unseal(x.cipher, stored, keks, x.purposes.stored, true);
      if plaintext.Err? { return Err(Undecryptable); }
      var kept := stored;
      if NeedsReseal(x, stored, keks[0]) {
        var resealed := Seal(x.cipher, plaintext.value, keks[0], x.purposes.stored, nonce);
        if resealed.Ok? { kept := resealed.value; }
      }
      instances := instances[id := instances[id].(signingKey := kept)];
      now := now.(instances := instances);
      return Ok(Some(Caller(id, instances[id].installation, plaintext.value)));
    }
  }

  lemma ClaimLeavesTheRest(x: Scheme, s: State, id: Id, poll: Hash, now: int, keks: seq<Bytes>)
    ensures var r := ClaimedSession(x, s, id, poll, now, keks);
            r.Ok? ==> r.value.0 == s.(sessions := r.value.0.sessions, disclosed := r.value.0.disclosed)
  {
    hide Unseal;
  }

  lemma EnrollmentIsApart(x: Scheme, s: State, installation: nat, m: Minting)
    ensures var r := Enrolled(x, s, installation, m);
            r.Ok? ==> r.value.0 == s.(instances := r.value.0.instances, history := r.value.0.history)
  {
  }

  /** The steps of a completion: enrolment and the update of the session succeed, and together they are the completion. */
  lemma CompletionSteps(x: Scheme, s: State, id: Id, installation: nat, allowed: Option<set<nat>>, now: int, m: Minting)
    requires Sound(x, s) && Drawn(s, m) && installation > 0
    ensures !Completable(s, id, installation, allowed, now) ==>
              Completed(x, s, id, installation, allowed, now, m) == Ok((s, None))
    ensures Completable(s, id, installation, allowed, now) ==>
              var enrolled := Enrolled(x, s.(active := s.active[installation := true]), installation, m);
              enrolled.Ok? &&
              var ready := MadeReady(x, enrolled.value.0, id, installation, enrolled.value.1, m);
              && ready.Ok? && ready.value.1.Some? && Sound(x, ready.value.0)
              && Completed(x, s, id, installation, allowed, now, m) == ready
  {
    CompletionReturnsCredentials(x, s, id, installation, allowed, now, m);
    CompletingIsSound(x, s, id, installation, allowed, now, m);
    hide Sound, WithCredentials, Seal, MadeReady;
  }
}
