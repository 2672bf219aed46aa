/** What each request makes of a connection code and of a connect session, and what the credentials issued are good for. */
module RelayLifecycle {
  import opened Wrappers
  import opened Rows
  import opened Text
  import opened SealedSecret
  import opened RelayCredentials

  // ---------------------------------------------------------------- codes

  /** A code that can still be redeemed. */
  predicate Redeemable(s: State, code: Hash, now: int) {
    code in s.codes && !s.codes[code].redeemed && now < s.codes[code].expiresAt
  }

  predicate Redeems(s: State, step: Step, code: Hash) { step.Redeem? && step.code == code && Redeemable(s, code, step.now) }

  /** One request spends a code exactly if it redeems it, and issues a token for the code's installation exactly then. */
  lemma CodesMoveExactly(x: Scheme, s: State, step: Step, code: Hash)
    requires Sound(x, s) && Possible(s, step) && code in s.codes
    ensures var later := After(x, s, step);
            && code in later.codes
            && later.codes[code] == (if step.CreateCode? && step.code == code then Code(step.installation, step.expiresAt, false)
                                     else if Redeems(s, step, code) then s.codes[code].(redeemed := true)
                                     else s.codes[code])
            && (step.Redeem? && step.code == code ==>
                  later.history == s.history + (if Redeemable(s, code, step.now)
                                                then [Issued(s.codes[code].installation, step.m.token)] else []))
  {
    hide RevokedToken, RevokedInstallation, ClaimedSession, Completed, AuthenticatedBy, Sound;
    match step
    case Redeem(c, now, m) =>
      RedeemingIsSound(x, s, c, now, m);
      hide Seal, WithCredentials;
    case Complete(id, installation, allowed, now, m) => CompletingLeavesCodes(x, s, id, installation, allowed, now, m);
    case ClaimSession(id, poll, now, keks) => ClaimLeavesTheRest(x, s, id, poll, now, keks);
    case Authenticate(token, keks, nonce) => AuthenticatingLeavesCodes(x, s, token, keks, nonce);
    case _ =>
  }

  lemma CompletingLeavesCodes(x: Scheme, s: State, id: Id, installation: nat, allowed: Option<set<nat>>, now: int, m: Minting)
    ensures var r := Completed(x, s, id, installation, allowed, now, m); r.Ok? ==> r.value.0.codes == s.codes
  {
    hide Seal, WithCredentials;
  }

  lemma AuthenticatingLeavesCodes(x: Scheme, s: State, token: Text, keks: seq<Bytes>, nonce: Bytes)
    ensures var r := AuthenticatedBy(x, s, token, keks, nonce); r.Ok? ==> r.value.0.codes == s.codes
  {
    hide Unseal, Resealed, Opens;
  }

  /** Unless it is created anew, a spent code stays spent. */
  lemma {:induction false} SpentStaysSpent(x: Scheme, states: seq<State>, steps: seq<Step>, i: nat, j: nat, code: Hash)
    requires Trusted(x) && Execution(x, states, steps) && i <= j < |states|
    requires code in states[i].codes && states[i].codes[code].redeemed
    requires forall k | i <= k < j && k < |steps| :: !(steps[k].CreateCode? && steps[k].code == code)
    ensures code in states[j].codes && states[j].codes[code].redeemed
    decreases j
  {
    hide Trusted, Execution, Sound, Possible, After;
    if i < j {
      NothingAtFirst(x, states, steps);
      SpentStaysSpent(x, states, steps, i, j - 1, code);
      EveryRunIsSound(x, states, steps, j - 1);
      StepOf(x, states, steps, j - 1);
      CodesMoveExactly(x, states[j - 1], steps[j - 1], code);
    }
  }

  /** In every run, a code issues credentials at most once for each time it was created. */
  lemma CodesIssueOnce(x: Scheme, states: seq<State>, steps: seq<Step>, i: nat, j: nat, code: Hash)
    requires Trusted(x) && Execution(x, states, steps) && i < j < |steps| && |states| == |steps| + 1
    requires Redeems(states[i], steps[i], code) && Redeems(states[j], steps[j], code)
    ensures exists k :: i < k < j && steps[k].CreateCode? && steps[k].code == code
  {
    hide Trusted, Execution, Sound, Possible, After;
    if forall k | i < k < j :: !(steps[k].CreateCode? && steps[k].code == code) {
      EveryRunIsSound(x, states, steps, i);
      StepOf(x, states, steps, i);
      CodesMoveExactly(x, states[i], steps[i], code);
      SpentStaysSpent(x, states, steps, i + 1, j, code);
    }
  }

  // ---------------------------------------------------------------- sessions

  /** A completion is allowed the installation by its caller or, if the caller does not say, by the session's candidates. */
  predicate Allows(row: Session, allowed: Option<set<nat>>, installation: nat) {
    if allowed.Some? then installation in allowed.value
    else row.candidates.Some? ==> installation in row.candidates.value
  }

  /** What one request makes of a session: what moves it, from which status, to which. */
  predicate SessionBecomes(s: State, step: Step, id: Id, row: Session)
    requires id in s.sessions
  {
    var before := s.sessions[id];
    match step
    case SetCandidates(k, candidates, now) =>
      row == if k == id && before.status == Pending && now < before.expiresAt then before.(candidates := Some(candidates)) else before
    case FailSession(k) =>
      row == if k == id && before.status == Pending then before.(status := Failed, candidates := None) else before
    case Complete(k, installation, allowed, now, m) =>
      if k == id && installation > 0 && before.status == Pending && now < before.expiresAt && Allows(before, allowed, installation)
      then && row.status == Ready && row.installation == installation && row.candidates == None
           && row.poll == before.poll && row.expiresAt == before.expiresAt && row.token.Some? && row.signingKey.Some?
      else row == before
    case ClaimSession(k, poll, now, _) =>
      if k != id || poll != before.poll then row == before
      else if before.status == Pending then row == if before.expiresAt <= now then before.(status := Failed) else before
      else row == before || (before.status == Ready && row == before.(status := Consumed, token := None, signingKey := None))
    case _ => row == before
  }

  lemma CompletingMoves(x: Scheme, s: State, id: Id, installation: nat, allowed: Option<set<nat>>, now: int, m: Minting, k: Id)
    requires Sound(x, s) && Drawn(s, m) && k in s.sessions
    ensures var step := Complete(id, installation, allowed, now, m); var later := After(x, s, step);
            && k in later.sessions && SessionBecomes(s, step, k, later.sessions[k])
            && (later.sessions[k].status == Ready && s.sessions[k].status != Ready ==>
                  && later.sessions[k].instance in later.instances && LiveRow(later.instances[later.sessions[k].instance], installation))
  {
    hide Sound, After, Drawn, LiveRow;
    if installation > 0 && Completable(s, id, installation, allowed, now) {
      ReadyCompletion(x, s, id, installation, allowed, now, m);
    } else {
      IdleCompletion(x, s, id, installation, allowed, now, m);
    }
  }

  lemma IdleCompletion(x: Scheme, s: State, id: Id, installation: nat, allowed: Option<set<nat>>, now: int, m: Minting)
    requires installation == 0 || !Completable(s, id, installation, allowed, now)
    ensures After(x, s, Complete(id, installation, allowed, now, m)) == s
  {
    hide Completable;
  }

  lemma ReadyCompletion(x: Scheme, s: State, id: Id, installation: nat, allowed: Option<set<nat>>, now: int, m: Minting)
    requires Sound(x, s) && Drawn(s, m) && installation > 0 && Completable(s, id, installation, allowed, now)
    ensures var later := After(x, s, Complete(id, installation, allowed, now, m));
            && id in later.sessions && later.sessions == s.sessions[id := later.sessions[id]]
            && var row := later.sessions[id];
            && row.status == Ready && row.installation == installation && row.candidates == None
            && row.poll == s.sessions[id].poll && row.expiresAt == s.sessions[id].expiresAt && row.token.Some? && row.signingKey.Some?
            && row.instance in later.instances && LiveRow(later.instances[row.instance], installation)
  {
    hide Sound, Seal, WellMinted, Fresh;
    UnpackSound(x, s);
    var known := s.(active := s.active[installation := true]);
    CompletionSteps(x, s, id, installation, allowed, now, m);
    EnrollmentIsLive(x, known, installation, m);
    EnrollmentIsApart(x, known, installation, m);
    hide Bound, Drawn, WithCredentials, Enrolled, LiveRow, Completed;
  }

  lemma EnrollmentIsLive(x: Scheme, s: State, installation: nat, m: Minting)
    requires Bound(x, s.instances, s.history) && Drawn(s, m)
    ensures var r := Enrolled(x, s, installation, m);
            && r.Ok?
            && var (later, i) := r.value;
            && i in later.instances && LiveRow(later.instances[i], installation)
            && later.instances[i].credential == x.hash(m.token)
            && Seal(x.cipher, m.signingKey, m.kek, x.purposes.stored, m.nonces.0) == Ok(later.instances[i].signingKey)
            && later.history == s.history + [Issued(installation, m.token)]
  {
    var sealed := Seal(x.cipher, m.signingKey, m.kek, x.purposes.stored, m.nonces.0);
    assert sealed.Ok?;
    hide Bound, Seal;
    NewestIsOne(set i <- s.instances | LiveRow(s.instances[i], installation));
  }

  lemma NewestIsOne(ids: set<Id>)
    ensures Newest(ids).Some? ==> Newest(ids).value in ids
  {
  }

  /** Every request moves the sessions as the table says, and only `CreateSession` makes one. */
  lemma SessionsMoveExactly(x: Scheme, s: State, step: Step, id: Id)
    requires Sound(x, s) && Possible(s, step)
    ensures id in s.sessions ==> id in After(x, s, step).sessions && SessionBecomes(s, step, id, After(x, s, step).sessions[id])
    ensures id !in s.sessions && id in After(x, s, step).sessions ==>
              && step.CreateSession? && step.id == id && After(x, s, step).sessions[id].status == Pending
              && After(x, s, step).sessions[id].poll == step.poll && After(x, s, step).sessions[id].expiresAt == step.expiresAt
  {
    hide Completed, ClaimedSession, RevokedToken, RevokedInstallation, Redeemed, AuthenticatedBy, Sound, Drawn;
    match step
    case Redeem(code, now, m) => RedeemingLeavesSessions(x, s, code, now, m);
    case Authenticate(token, keks, nonce) => AuthenticatingLeavesSessions(x, s, token, keks, nonce);
    case Complete(k, installation, allowed, now, m) =>
      if id in s.sessions { CompletingMoves(x, s, k, installation, allowed, now, m, id); }
      CompletingKeepsKeys(x, s, k, installation, allowed, now, m);
    case ClaimSession(k, poll, now, keks) => ClaimAnswersHolder(x, s, k, poll, now, keks);
    case _ =>
  }

  lemma CompletingKeepsKeys(x: Scheme, s: State, id: Id, installation: nat, allowed: Option<set<nat>>, now: int, m: Minting)
    ensures After(x, s, Complete(id, installation, allowed, now, m)).sessions.Keys == s.sessions.Keys
  {
    if Completed(x, s, id, installation, allowed, now, m).Ok? { CompletingKeepsPolls(x, s, id, installation, allowed, now, m); }
    hide Completed;
  }

  // ---------------------------------------------------------------- what credentials are good for

  /**
   * Freshly issued credentials work: the token authenticates as the instance just enrolled, with the signing key
   * that was minted, exactly when the key it was sealed under is the first configured one with its id.
   */
  lemma IssuedCredentialsAuthenticate(x: Scheme, s: State, installation: nat, m: Minting, keks: seq<Bytes>, nonce: Bytes)
    requires Trusted(x) && Bound(x, s.instances, s.history) && Unrepeated(s.history) && Drawn(s, m) && keks != []
    ensures var r := Enrolled(x, s, installation, m);
            && r.Ok?
            && var (later, i) := r.value;
            var answer := AuthenticatedBy(x, later, m.token, keks, nonce);
            && (answer.Ok? <==> FirstMatch(x.cipher, keks, x.cipher.keyId(m.kek)) == Some(m.kek))
            && (answer.Ok? ==> answer.value.1 == Some(Caller(i, installation, m.signingKey)))
  {
    EnrollmentIsBound(x, s, installation, m);
    EnrollmentIsLive(x, s, installation, m);
    var (later, i) := Enrolled(x, s, installation, m).value;
    UnsealInvertsSeal(x.cipher, m.signingKey, m.kek, x.purposes.stored, m.nonces.0, keks, x.purposes.stored, true);
    hide Enrolled, Seal, Unseal, Bound, Unrepeated, FirstMatch, Resealed, Authenticated;
    var opening := set k <- later.instances | Opens(later.instances[k], x.hash(m.token));
    assert i in opening;
    forall k <- opening ensures k == i { OneInstanceOpens(x, later.instances, later.history, m.token, k, i); }
    assert opening == {i};
    assert Newest(opening) == Some(i);
  }
}
