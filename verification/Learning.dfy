/** Learned rules: suggestions consolidated under evidence, moderated by hand, and audited. */
module Learning {
  import opened Wrappers
  import opened Rows

  datatype Status = Suggested | Active | Inactive | Rejected

  datatype Content = Content(title: string, guidance: string, appliesTo: seq<string>, severity: string, category: string)

  datatype Rule = Rule(key: string, status: Status, version: nat, content: Content, evidenceCount: nat)

  datatype AuditAction = Proposed | EvidenceAdded | Edited | Approved | RejectedRule | Deactivated | Reactivated

  datatype Snapshot = Snapshot(status: Status, version: nat, content: Content, evidenceCount: nat)

  datatype AuditEvent = AuditEvent(rule: Id, action: AuditAction, key: string, snapshot: Snapshot)

  /** The rules of one repository, the evidence each rests on, and the audit log in the order written. */
  datatype State = State(rules: map<Id, Rule>, evidence: set<(Id, Id)>, audit: seq<AuditEvent>, serial: Id)

  const EMPTY := State(map[], {}, [], 0)

  datatype Candidate = Candidate(content: Content, evidence: seq<Id>)

  /** The normalised key of a suggestion, and whether two suggestions read alike. */
  datatype Matching = Matching(key: Content -> string, alike: (Content, Content) -> bool)

  function SnapshotOf(rule: Rule): Snapshot { Snapshot(rule.status, rule.version, rule.content, rule.evidenceCount) }

  // ---------------------------------------------------------------- matching a suggestion

  function First(ids: seq<Id>, wanted: Id -> bool): Option<Id> {
    if ids == [] then None else if wanted(ids[0]) then Some(ids[0]) else First(ids[1..], wanted)
  }

  function MatchingRule(s: State, x: Matching, candidate: Content): Option<Id> {
    var ids := InOrder(s.rules.Keys);
    var exact := First(ids, i => i in s.rules && s.rules[i].key == x.key(candidate));
    if exact.Some? then exact
    else First(ids, i => && i in s.rules && s.rules[i].content.category == candidate.category
                         && s.rules[i].content.appliesTo == candidate.appliesTo && x.alike(candidate, s.rules[i].content))
  }

  lemma {:induction false} FirstIsWanted(ids: seq<Id>, wanted: Id -> bool)
    ensures match First(ids, wanted)
            case Some(i) => i in ids && wanted(i)
            case None => forall i <- ids :: !wanted(i)
  {
    if ids != [] && !wanted(ids[0]) {
      assert ids == [ids[0]] + ids[1..];
      FirstIsWanted(ids[1..], wanted);
    }
  }

  /** A suggestion that matches nothing has a key no rule has. */
  lemma UnmatchedKeyIsNew(s: State, x: Matching, candidate: Content)
    ensures match MatchingRule(s, x, candidate)
            case Some(i) => i in s.rules
            case None => forall i <- s.rules :: s.rules[i].key != x.key(candidate)
  {
    var ids := InOrder(s.rules.Keys);
    FirstIsWanted(ids, i => i in s.rules && s.rules[i].key == x.key(candidate));
    FirstIsWanted(ids, i => && i in s.rules && s.rules[i].content.category == candidate.category
                            && s.rules[i].content.appliesTo == candidate.appliesTo
                            && x.alike(candidate, s.rules[i].content));
  }

  // ---------------------------------------------------------------- one suggestion

  /** Cites only known evidence, enough of it, from enough pull requests. */
  predicate Supported(candidate: Candidate, pullRequestOf: map<Id, Id>, minimum: nat, minimumPullRequests: nat) {
    && (forall e <- candidate.evidence :: e in pullRequestOf)
    && |candidate.evidence| >= minimum
    && |set e <- candidate.evidence | e in pullRequestOf :: pullRequestOf[e]| >= minimumPullRequests
  }

  /** Each of these pull requests is cited. */
  predicate CitesAll(candidate: Candidate, pullRequestOf: map<Id, Id>, requests: set<Id>) {
    forall q <- requests :: exists e <- candidate.evidence :: e in pullRequestOf && pullRequestOf[e] == q
  }

  /** Enough citations, all of known evidence, among them some from as many different pull requests as are asked for. */
  lemma SupportedExactly(candidate: Candidate, pullRequestOf: map<Id, Id>, minimum: nat, minimumPullRequests: nat)
    ensures Supported(candidate, pullRequestOf, minimum, minimumPullRequests)
            <==> && (forall k | 0 <= k < |candidate.evidence| :: candidate.evidence[k] in pullRequestOf)
                 && minimum <= |candidate.evidence|
                 && exists requests :: |requests| == minimumPullRequests && CitesAll(candidate, pullRequestOf, requests)
  {
    var all := set e <- candidate.evidence | e in pullRequestOf :: pullRequestOf[e];
    if |all| >= minimumPullRequests {
      var requests := SomeOf(all, minimumPullRequests);
      assert CitesAll(candidate, pullRequestOf, requests);
    }
    if requests :| |requests| == minimumPullRequests && CitesAll(candidate, pullRequestOf, requests) {
      assert requests <= all;
      SmallerSet(requests, all);
    }
  }

  lemma {:induction false} SomeOf(all: set<Id>, n: nat) returns (some: set<Id>)
    requires n <= |all|
    ensures some <= all && |some| == n
  {
    some := all;
    while |some| > n
      invariant some <= all && n <= |some|
    {
      var q :| q in some;
      some := some - {q};
    }
  }

  function EvidenceOf(evidence: set<(Id, Id)>, rule: Id): set<Id> { set p <- evidence | p.0 == rule :: p.1 }

  function Cited(rule: Id, ids: seq<Id>): set<(Id, Id)> { set e <- ids :: (rule, e) }

  predicate HasKey(audit: seq<AuditEvent>, rule: Id, key: string) {
    exists e <- audit :: e.rule == rule && e.key == key
  }

  function Audited(audit: seq<AuditEvent>, e: AuditEvent): seq<AuditEvent> {
    if HasKey(audit, e.rule, e.key) then audit else audit + [e]
  }

  function RunKey(run: string, action: AuditAction): string {
    "generation-run:" + run + (if action == Proposed then ":proposed" else ":evidence_added")
  }

  /** Adds the cited evidence to a rule, recounts it, and audits what is new. */
  function Supporting(s: State, i: Id, run: string, ids: seq<Id>, isNew: bool): State
    requires i in s.rules
  {
    var evidence := s.evidence + Cited(i, ids);
    var rule := s.rules[i].(evidenceCount := |EvidenceOf(evidence, i)|);
    var action := if isNew then Proposed else EvidenceAdded;
    var audit := if isNew || evidence != s.evidence
                 then Audited(s.audit, AuditEvent(i, action, RunKey(run, action), SnapshotOf(rule))) else s.audit;
    s.(rules := s.rules[i := rule], evidence := evidence, audit := audit)
  }

  function Inserted(s: State, rule: Rule): State {
    s.(rules := s.rules[s.serial := rule], serial := s.serial + 1)
  }

  datatype Outcome = OutProposed | OutConsolidated | OutRejected

  function Considered(s: State, x: Matching, run: string, candidate: Candidate, supported: bool): (State, Outcome) {
    if !supported then (s, OutRejected)
    else
      UnmatchedKeyIsNew(s, x, candidate.content);
      match MatchingRule(s, x, candidate.content)
      case Some(i) => (Supporting(s, i, run, candidate.evidence, false), OutConsolidated)
      case None =>
        var inserted := Inserted(s, Rule(x.key(candidate.content), Suggested, 1, candidate.content, 0));
        (Supporting(inserted, s.serial, run, candidate.evidence, true), OutProposed)
  }

  function ConsideredAll(s: State, x: Matching, run: string, candidates: seq<Candidate>, supported: Candidate -> bool): State {
    if candidates == [] then s else
      var last := candidates[|candidates| - 1];
      Considered(ConsideredAll(s, x, run, candidates[..|candidates| - 1], supported), x, run, last, supported(last)).0
  }

  // ---------------------------------------------------------------- moderation

  datatype Moderation =
    | Edit(title: Option<string>, guidance: Option<string>, appliesTo: Option<seq<string>>, severity: Option<string>,
           category: Option<string>)
    | Approve | Reject | Deactivate | Reactivate

  datatype Refusal = Unknown | Changed | NotAllowed | NoEdit | InvalidContent

  function EditedContent(content: Content, edit: Moderation): Content
    requires edit.Edit?
  {
    Content(if edit.title.Some? then edit.title.value else content.title,
            if edit.guidance.Some? then edit.guidance.value else content.guidance,
            if edit.appliesTo.Some? then edit.appliesTo.value else content.appliesTo,
            if edit.severity.Some? then edit.severity.value else content.severity,
            if edit.category.Some? then edit.category.value else content.category)
  }

  /** The row a moderation asks for, and the name under which it is audited. */
  function Requested(rule: Rule, action: Moderation): Result<(Rule, AuditAction), Refusal> {
    match action
    case Edit(_, _, _, _, _) =>
      if rule.status != Suggested && rule.status != Inactive then Err(NotAllowed)
      else if EditedContent(rule.content, action) == rule.content then Err(NoEdit)
      else Ok((rule.(content := EditedContent(rule.content, action), version := rule.version + 1), Edited))
    case Approve => if rule.status == Suggested then Ok((rule.(status := Active), Approved)) else Err(NotAllowed)
    case Reject => if rule.status == Suggested then Ok((rule.(status := Rejected), RejectedRule)) else Err(NotAllowed)
    case Deactivate => if rule.status == Active then Ok((rule.(status := Inactive), Deactivated)) else Err(NotAllowed)
    case Reactivate => if rule.status == Inactive then Ok((rule.(status := Active), Reactivated)) else Err(NotAllowed)
  }

  type Validation = Content -> Option<Content>

  function Moderated(s: State, i: Id, action: Moderation, key: string, expected: nat, validate: Validation)
    : Result<(State, Rule), Refusal>
  {
    if i !in s.rules then Err(Unknown)
    else if HasKey(s.audit, i, key) then Ok((s, s.rules[i]))
    else if s.rules[i].version != expected then Err(Changed)
    else
      match Requested(s.rules[i], action)
      case Err(refusal) => Err(refusal)
      case Ok((rule, audited)) =>
        var content := validate(rule.content);
        if content.None? then Err(InvalidContent)
        else
          var updated := rule.(content := content.value);
          Ok((s.(rules := s.rules[i := updated], audit := s.audit + [AuditEvent(i, audited, key, SnapshotOf(updated))]), updated))
  }

  // ---------------------------------------------------------------- what holds between transactions

  function NewestAudit(audit: seq<AuditEvent>, rule: Id): Option<AuditEvent> {
    if audit == [] then None
    else if audit[|audit| - 1].rule == rule then Some(audit[|audit| - 1])
    else NewestAudit(audit[..|audit| - 1], rule)
  }

  /** How often a rule was edited. */
  function Edits(audit: seq<AuditEvent>, rule: Id): nat {
    if audit == [] then 0 else
      var last := audit[|audit| - 1];
      Edits(audit[..|audit| - 1], rule) + (if last.rule == rule && last.action == Edited then 1 else 0)
  }

  /** A rule agrees with its newest snapshot in everything but the running evidence count. */
  predicate Agrees(rule: Rule, audit: seq<AuditEvent>, i: Id) {
    var newest := NewestAudit(audit, i);
    && newest.Some? && newest.value.snapshot.status == rule.status && newest.value.snapshot.version == rule.version
    && newest.value.snapshot.content == rule.content
    && rule.version == 1 + Edits(audit, i)
  }

  predicate Keyed(s: State) {
    && (forall i, j | i in s.rules && j in s.rules && i != j :: s.rules[i].key != s.rules[j].key)
    && (forall i, j | 0 <= i < j < |s.audit| :: s.audit[i].rule != s.audit[j].rule || s.audit[i].key != s.audit[j].key)
  }

  predicate Referenced(s: State) {
    && (forall i <- s.rules :: i < s.serial)
    && (forall p <- s.evidence :: p.0 in s.rules)
    && (forall e <- s.audit :: e.rule in s.rules)
  }

  predicate Counted(s: State) {
    forall i <- s.rules :: s.rules[i].evidenceCount == |EvidenceOf(s.evidence, i)|
  }

  predicate Snapshotted(s: State) { forall i <- s.rules :: Agrees(s.rules[i], s.audit, i) }

  predicate Sound(s: State) { Keyed(s) && Referenced(s) && Counted(s) && Snapshotted(s) }

  /** Rejection is final, versions only grow, rules and their keys stay, and the log is only appended to. */
  predicate Follows(s: State, later: State) {
    && s.audit <= later.audit && s.evidence <= later.evidence
    && forall i <- s.rules ::
         && i in later.rules && later.rules[i].key == s.rules[i].key && s.rules[i].version <= later.rules[i].version
         && (s.rules[i].status == Rejected ==> later.rules[i].status == Rejected && later.rules[i].content == s.rules[i].content)
  }

  lemma {:induction false} NextNewest(audit: seq<AuditEvent>, e: AuditEvent, i: Id)
    ensures NewestAudit(audit + [e], i) == if e.rule == i then Some(e) else NewestAudit(audit, i)
    ensures Edits(audit + [e], i) == Edits(audit, i) + (if e.rule == i && e.action == Edited then 1 else 0)
  {
    assert (audit + [e])[..|audit|] == audit;
  }

  lemma {:induction false} UnreferencedHasNone(audit: seq<AuditEvent>, i: Id)
    requires forall e <- audit :: e.rule != i
    ensures NewestAudit(audit, i) == None && Edits(audit, i) == 0
  {
    if audit != [] {
      assert audit[|audit| - 1] in audit;
      UnreferencedHasNone(audit[..|audit| - 1], i);
    }
  }

  // ---------------------------------------------------------------- generation keeps it

  lemma CitingElsewhere(evidence: set<(Id, Id)>, i: Id, ids: seq<Id>, j: Id)
    requires i != j
    ensures EvidenceOf(evidence + Cited(i, ids), j) == EvidenceOf(evidence, j)
  {
    assert forall p <- evidence + Cited(i, ids) | p.0 == j :: p in evidence;
    assert forall p <- evidence :: p in evidence + Cited(i, ids);
  }

  lemma SupportingIsCounted(s: State, i: Id, run: string, ids: seq<Id>, isNew: bool)
    requires i in s.rules && forall j <- s.rules | j != i :: s.rules[j].evidenceCount == |EvidenceOf(s.evidence, j)|
    ensures Counted(Supporting(s, i, run, ids, isNew))
  {
    var later := Supporting(s, i, run, ids, isNew);
    forall j <- later.rules ensures later.rules[j].evidenceCount == |EvidenceOf(later.evidence, j)| {
      if j != i { CitingElsewhere(s.evidence, i, ids, j); }
    }
  }

  lemma AuditedIsKeyed(audit: seq<AuditEvent>, e: AuditEvent)
    requires forall i, j | 0 <= i < j < |audit| :: audit[i].rule != audit[j].rule || audit[i].key != audit[j].key
    ensures var later := Audited(audit, e);
            forall i, j | 0 <= i < j < |later| :: later[i].rule != later[j].rule || later[i].key != later[j].key
  {
    assert forall i | 0 <= i < |audit| :: audit[i] in audit;
  }

  lemma SupportingIsKeyed(s: State, i: Id, run: string, ids: seq<Id>, isNew: bool)
    requires Keyed(s) && Referenced(s) && i in s.rules
    ensures Keyed(Supporting(s, i, run, ids, isNew)) && Referenced(Supporting(s, i, run, ids, isNew))
  {
    var action := if isNew then Proposed else EvidenceAdded;
    var rule := Supporting(s, i, run, ids, isNew).rules[i];
    AuditedIsKeyed(s.audit, AuditEvent(i, action, RunKey(run, action), SnapshotOf(rule)));
    hide EvidenceOf;
  }

  lemma SupportingIsSnapshotted(s: State, i: Id, run: string, ids: seq<Id>, isNew: bool)
    requires Referenced(s) && i in s.rules && forall j <- s.rules | j != i :: Agrees(s.rules[j], s.audit, j)
    requires if isNew then (forall e <- s.audit :: e.rule != i) && s.rules[i].version == 1 else Agrees(s.rules[i], s.audit, i)
    ensures Snapshotted(Supporting(s, i, run, ids, isNew))
  {
    var later := Supporting(s, i, run, ids, isNew);
    var action := if isNew then Proposed else EvidenceAdded;
    var e := AuditEvent(i, action, RunKey(run, action), SnapshotOf(later.rules[i]));
    if isNew { UnreferencedHasNone(s.audit, i); }
    forall j <- later.rules ensures Agrees(later.rules[j], later.audit, j) {
      NextNewest(s.audit, e, j);
    }
  }

  lemma ConsolidatingIsSound(s: State, i: Id, run: string, ids: seq<Id>)
    requires Sound(s) && i in s.rules
    ensures Sound(Supporting(s, i, run, ids, false))
  {
    hide Keyed, Referenced, Supporting, Agrees;
    SupportingIsCounted(s, i, run, ids, false);
    SupportingIsKeyed(s, i, run, ids, false);
    SupportingIsSnapshotted(s, i, run, ids, false);
    hide Counted, Snapshotted;
  }

  lemma ProposingIsSound(s: State, rule: Rule, run: string, ids: seq<Id>)
    requires Sound(s) && rule.version == 1 && forall i <- s.rules :: s.rules[i].key != rule.key
    ensures Sound(Supporting(Inserted(s, rule), s.serial, run, ids, true))
  {
    var inserted := Inserted(s, rule);
    assert s.serial !in s.rules && forall e <- s.audit :: e.rule != s.serial;
    InsertedIsKeyed(s, inserted);
    hide Keyed, Referenced, Supporting, Agrees, EvidenceOf;
    SupportingIsCounted(inserted, s.serial, run, ids, true);
    SupportingIsKeyed(inserted, s.serial, run, ids, true);
    SupportingIsSnapshotted(inserted, s.serial, run, ids, true);
    hide Counted, Snapshotted;
  }

  lemma ConsideringIsSound(s: State, x: Matching, run: string, candidate: Candidate, supported: bool)
    requires Sound(s)
    ensures Sound(Considered(s, x, run, candidate, supported).0)
  {
    UnmatchedKeyIsNew(s, x, candidate.content);
    hide Sound, MatchingRule, Supporting;
    if supported {
      match MatchingRule(s, x, candidate.content)
      case Some(i) => ConsolidatingIsSound(s, i, run, candidate.evidence);
      case None =>
        ProposingIsSound(s, Rule(x.key(candidate.content), Suggested, 1, candidate.content, 0), run, candidate.evidence);
    }
  }

  lemma InsertedIsKeyed(s: State, inserted: State)
    requires Keyed(s) && Referenced(s) && s.serial in inserted.rules
    requires inserted == s.(rules := s.rules[s.serial := inserted.rules[s.serial]], serial := s.serial + 1)
    requires forall i <- s.rules :: s.rules[i].key != inserted.rules[s.serial].key
    ensures Keyed(inserted) && Referenced(inserted)
  {
  }

  lemma ConsideringFollows(s: State, x: Matching, run: string, candidate: Candidate, supported: bool)
    requires Sound(s)
    ensures Follows(s, Considered(s, x, run, candidate, supported).0)
  {
    UnmatchedKeyIsNew(s, x, candidate.content);
    hide MatchingRule, EvidenceOf, Keyed, Counted, Snapshotted;
  }

  /** What the three outcomes of a suggestion change. */
  lemma OutcomesTellWhatHappened(s: State, x: Matching, run: string, candidate: Candidate, supported: bool)
    requires Sound(s)
    ensures var (later, outcome) := Considered(s, x, run, candidate, supported);
            match outcome
            case OutRejected => !supported && later == s
            case OutConsolidated => supported && later.rules.Keys == s.rules.Keys
            case OutProposed => supported && |later.rules| == |s.rules| + 1
  {
    UnmatchedKeyIsNew(s, x, candidate.content);
    hide MatchingRule, EvidenceOf;
    assert s.serial !in s.rules;
    if supported && MatchingRule(s, x, candidate.content).None? {
      assert Considered(s, x, run, candidate, supported).0.rules.Keys == s.rules.Keys + {s.serial};
      MapSize(s.rules, Considered(s, x, run, candidate, supported).0.rules, s.serial);
    }
  }

  /** New evidence for a known rule is audited once per generation run, and nothing else about it is. */
  lemma EvidenceIsAudited(s: State, i: Id, run: string, ids: seq<Id>)
    requires i in s.rules
    ensures var later := Supporting(s, i, run, ids, false);
            if (exists k :: 0 <= k < |ids| && (i, ids[k]) !in s.evidence) && !HasKey(s.audit, i, RunKey(run, EvidenceAdded))
            then later.audit == s.audit + [AuditEvent(i, EvidenceAdded, RunKey(run, EvidenceAdded), SnapshotOf(later.rules[i]))]
            else later.audit == s.audit
  {
    hide HasKey, SnapshotOf, RunKey, EvidenceOf;
    var cited := Cited(i, ids);
    assert forall k | 0 <= k < |ids| :: (i, ids[k]) in cited by { assert forall k | 0 <= k < |ids| :: ids[k] in ids; }
    if s.evidence + cited != s.evidence {
      var p :| p in cited && p !in s.evidence;
      var k :| 0 <= k < |ids| && (i, ids[k]) == p;
    }
  }

  lemma MapSize(m: map<Id, Rule>, later: map<Id, Rule>, i: Id)
    requires i !in m && later.Keys == m.Keys + {i}
    ensures |later| == |m| + 1
  {
    assert |later| == |later.Keys| && |m| == |m.Keys|;
  }

  // ---------------------------------------------------------------- moderation keeps it

  lemma ModeratingIsSound(s: State, i: Id, action: Moderation, key: string, expected: nat, validate: Validation)
    requires Sound(s)
    ensures var r := Moderated(s, i, action, key, expected, validate); r.Ok? ==> Sound(r.value.0) && Follows(s, r.value.0)
  {
    hide Sound, Follows, Moderated, SnapshotOf, HasKey;
    var r := Moderated(s, i, action, key, expected, validate);
    if r.Ok? {
      if HasKey(s.audit, i, key) {
        RepeatedIsSame(s, i, action, key, expected, validate);
      } else {
        var e := OneAuditedChange(s, i, action, key, expected, validate);
        ModifiedIsSound(s, r.value.0, i, r.value.1, e);
      }
    }
  }

  lemma RepeatedIsSame(s: State, i: Id, action: Moderation, key: string, expected: nat, validate: Validation)
    requires HasKey(s.audit, i, key)
    ensures var r := Moderated(s, i, action, key, expected, validate); (r.Ok? ==> r.value.0 == s) && Follows(s, s)
  {
    hide HasKey;
  }

  /** A moderation that goes through under a new key changes one rule, which was not rejected, and audits it. */
  lemma OneAuditedChange(s: State, i: Id, action: Moderation, key: string, expected: nat, validate: Validation)
    returns (e: AuditEvent)
    requires Moderated(s, i, action, key, expected, validate).Ok? && !HasKey(s.audit, i, key)
    ensures i in s.rules && s.rules[i].status != Rejected
    ensures var (later, updated) := Moderated(s, i, action, key, expected, validate).value;
            && later == s.(rules := s.rules[i := updated], audit := s.audit + [e])
            && updated.key == s.rules[i].key && updated.evidenceCount == s.rules[i].evidenceCount
            && updated.version == s.rules[i].version + (if e.action == Edited then 1 else 0)
            && e.rule == i && e.key == key && e.snapshot == SnapshotOf(updated)
  {
    hide HasKey, SnapshotOf;
    e := Moderated(s, i, action, key, expected, validate).value.0.audit[|s.audit|];
  }

  lemma ModifiedIsSnapshotted(s: State, later: State, i: Id, updated: Rule, e: AuditEvent)
    requires Snapshotted(s) && i in s.rules && later == s.(rules := s.rules[i := updated], audit := s.audit + [e])
    requires e.rule == i && e.snapshot == SnapshotOf(updated)
    requires updated.version == s.rules[i].version + (if e.action == Edited then 1 else 0)
    ensures Snapshotted(later)
  {
    forall j <- later.rules ensures Agrees(later.rules[j], later.audit, j) {
      assert Agrees(s.rules[j], s.audit, j);
      NextNewest(s.audit, e, j);
    }
  }

  lemma ModifiedIsKeyed(s: State, later: State, i: Id, updated: Rule, e: AuditEvent)
    requires Keyed(s) && Referenced(s) && Counted(s) && i in s.rules
    requires later == s.(rules := s.rules[i := updated], audit := s.audit + [e])
    requires e.rule == i && !HasKey(s.audit, i, e.key)
    requires updated.key == s.rules[i].key && updated.evidenceCount == s.rules[i].evidenceCount
    ensures Keyed(later) && Referenced(later) && Counted(later)
  {
    AuditedIsKeyed(s.audit, e);
    hide EvidenceOf, HasKey;
  }

  lemma ModifiedFollows(s: State, later: State, i: Id, updated: Rule, e: AuditEvent)
    requires i in s.rules && later == s.(rules := s.rules[i := updated], audit := s.audit + [e])
    requires updated.key == s.rules[i].key && s.rules[i].version <= updated.version && s.rules[i].status != Rejected
    ensures Follows(s, later)
  {
  }

  lemma ModifiedIsSound(s: State, later: State, i: Id, updated: Rule, e: AuditEvent)
    requires Sound(s) && i in s.rules && later == s.(rules := s.rules[i := updated], audit := s.audit + [e])
    requires e.rule == i && e.snapshot == SnapshotOf(updated) && !HasKey(s.audit, i, e.key)
    requires updated.key == s.rules[i].key && updated.evidenceCount == s.rules[i].evidenceCount
    requires updated.version == s.rules[i].version + (if e.action == Edited then 1 else 0)
    requires s.rules[i].status != Rejected
    ensures Sound(later) && Follows(s, later)
  {
    hide Keyed, Referenced, Counted, Snapshotted, HasKey, Follows, SnapshotOf;
    ModifiedIsKeyed(s, later, i, updated, e);
    ModifiedIsSnapshotted(s, later, i, updated, e);
    ModifiedFollows(s, later, i, updated, e);
  }

  /** A repeated event key changes nothing; a successful edit adds exactly one version; nothing moves a rejected rule. */
  lemma ModerationRules(s: State, i: Id, action: Moderation, key: string, expected: nat, validate: Validation)
    requires Sound(s) && i in s.rules
    ensures var r := Moderated(s, i, action, key, expected, validate);
            && (HasKey(s.audit, i, key) ==> r == Ok((s, s.rules[i])))
            && (!HasKey(s.audit, i, key) && r.Ok? ==>
                && s.rules[i].version == expected && s.rules[i].status != Rejected
                && r.value.0.rules[i].version == expected + (if action.Edit? then 1 else 0)
                && HasKey(r.value.0.audit, i, key)
                && Moderated(r.value.0, i, action, key, expected, validate) == Ok((r.value.0, r.value.0.rules[i])))
  {
    var r := Moderated(s, i, action, key, expected, validate);
    if !HasKey(s.audit, i, key) && r.Ok? {
      assert r.value.0.audit[|s.audit|] in r.value.0.audit;
    }
  }

  // ---------------------------------------------------------------- every run

  datatype Step =
    | Persist(run: string, candidates: seq<Candidate>, pullRequestOf: map<Id, Id>, minimum: nat, minimumPullRequests: nat)
    | Moderate(rule: Id, action: Moderation, key: string, expected: nat)

  function After(s: State, x: Matching, validate: Validation, step: Step): State {
    match step
    case Persist(run, candidates, pullRequestOf, minimum, minimumPullRequests) =>
      ConsideredAll(s, x, run, candidates, c => Supported(c, pullRequestOf, minimum, minimumPullRequests))
    case Moderate(i, action, key, expected) =>
      var r := Moderated(s, i, action, key, expected, validate); if r.Ok? then r.value.0 else s
  }

  lemma FollowingIsTransitive(a: State, b: State, c: State)
    requires Follows(a, b) && Follows(b, c)
    ensures Follows(a, c)
  {
  }

  lemma {:induction false} BatchIsSound(s: State, x: Matching, run: string, candidates: seq<Candidate>, supported: Candidate -> bool)
    requires Sound(s)
    ensures var later := ConsideredAll(s, x, run, candidates, supported); Sound(later) && Follows(s, later)
  {
    if candidates != [] {
      hide Sound, Follows, Considered;
      var init, last := candidates[..|candidates| - 1], candidates[|candidates| - 1];
      BatchIsSound(s, x, run, init, supported);
      var before := ConsideredAll(s, x, run, init, supported);
      ConsideringIsSound(before, x, run, last, supported(last));
      ConsideringFollows(before, x, run, last, supported(last));
      FollowingIsTransitive(s, before, Considered(before, x, run, last, supported(last)).0);
    }
  }

  ghost predicate Execution(states: seq<State>, steps: seq<Step>, x: Matching, validate: Validation) {
    && |states| == |steps| + 1 && states[0] == EMPTY
    && forall i | 0 <= i < |steps| :: states[i + 1] == After(states[i], x, validate, steps[i])
  }

  /**
   * Over all generation and moderation: no two rules share a key, evidence counts count the evidence, the
   * newest snapshot of a rule agrees with its row, and a rule's version is one more than its edits.
   */
  lemma {:induction false} RulesStayAudited(states: seq<State>, steps: seq<Step>, x: Matching, validate: Validation, i: nat, j: nat)
    requires Execution(states, steps, x, validate) && i <= j < |states|
    ensures Sound(states[i]) && Sound(states[j]) && Follows(states[i], states[j])
    decreases j
  {
    if j > 0 {
      hide Sound, Follows, After, Execution;
      RulesStayAudited(states, steps, x, validate, if i < j then i else j - 1, j - 1);
      StepAt(states, steps, x, validate, j - 1);
      StepIsSound(states[j - 1], steps[j - 1], x, validate);
      if i < j { FollowingIsTransitive(states[i], states[j - 1], states[j]); }
    }
    Unmoved(states[j]);
  }

  lemma StepAt(states: seq<State>, steps: seq<Step>, x: Matching, validate: Validation, i: nat)
    requires Execution(states, steps, x, validate) && i + 1 < |states|
    ensures i < |steps| && states[i + 1] == After(states[i], x, validate, steps[i])
  {
    hide After;
  }

  lemma StepIsSound(s: State, step: Step, x: Matching, validate: Validation)
    requires Sound(s)
    ensures Sound(After(s, x, validate, step)) && Follows(s, After(s, x, validate, step))
  {
    hide Sound, Follows, ConsideredAll, Moderated, Supported;
    Unmoved(s);
    match step
    case Persist(run, candidates, pullRequestOf, minimum, minimumPullRequests) =>
      BatchIsSound(s, x, run, candidates, c => Supported(c, pullRequestOf, minimum, minimumPullRequests));
    case Moderate(r, action, key, expected) => ModeratingIsSound(s, r, action, key, expected, validate);
  }

  // ---------------------------------------------------------------- which status an action leads to

  predicate MayStart(status: Status, action: Moderation) {
    match action
    case Edit(_, _, _, _, _) => status in {Suggested, Inactive}
    case Approve => status == Suggested
    case Reject => status == Suggested
    case Deactivate => status == Active
    case Reactivate => status == Inactive
  }

  predicate LeadsTo(status: Status, action: Moderation, later: Status, name: AuditAction) {
    match action
    case Edit(_, _, _, _, _) => later == status && name == Edited
    case Approve => later == Active && name == Approved
    case Reject => later == Rejected && name == RejectedRule
    case Deactivate => later == Inactive && name == Deactivated
    case Reactivate => later == Active && name == Reactivated
  }

  predicate Takes<T(==)>(asked: Option<T>, before: T, later: T) { later == if asked.Some? then asked.value else before }

  /** The content an action asks to be stored: an edit replaces the fields it names, any other action none. */
  predicate AsksFor(action: Moderation, before: Content, wanted: Content) {
    if !action.Edit? then wanted == before
    else && Takes(action.title, before.title, wanted.title) && Takes(action.guidance, before.guidance, wanted.guidance)
         && Takes(action.appliesTo, before.appliesTo, wanted.appliesTo) && Takes(action.severity, before.severity, wanted.severity)
         && Takes(action.category, before.category, wanted.category)
  }

  /** One moderation under a new key and the current version, from the rule before to the rule after. */
  predicate Moves(rule: Rule, later: Rule, action: Moderation, wanted: Content, validate: Validation, name: AuditAction) {
    && MayStart(rule.status, action) && LeadsTo(rule.status, action, later.status, name)
    && AsksFor(action, rule.content, wanted) && (action.Edit? ==> wanted != rule.content)
    && validate(wanted) == Some(later.content)
    && later.version == rule.version + (if action.Edit? then 1 else 0)
    && later.key == rule.key && later.evidenceCount == rule.evidenceCount
  }

  /**
   * A moderation goes through exactly when its action may start at the rule's status, an edit asks for something
   * else, and what is asked for is valid; then the rule moves as its action says, under an audit entry of that name.
   */
  lemma ModerationMovesAsNamed(s: State, i: Id, action: Moderation, key: string, validate: Validation, wanted: Content)
    requires i in s.rules && !HasKey(s.audit, i, key) && AsksFor(action, s.rules[i].content, wanted)
    ensures var r := Moderated(s, i, action, key, s.rules[i].version, validate);
            && (r.Ok? <==> MayStart(s.rules[i].status, action) && (action.Edit? ==> wanted != s.rules[i].content)
                           && validate(wanted).Some?)
            && (!MayStart(s.rules[i].status, action) ==> r == Err(NotAllowed))
            && (r.Ok? ==> exists name ::
                  && Moves(s.rules[i], r.value.1, action, wanted, validate, name)
                  && r.value.0 == s.(rules := s.rules[i := r.value.1],
                                     audit := s.audit + [AuditEvent(i, name, key, SnapshotOf(r.value.1))]))
  {
    hide HasKey, SnapshotOf;
    var r := Moderated(s, i, action, key, s.rules[i].version, validate);
    if action.Edit? { assert wanted == EditedContent(s.rules[i].content, action); }
    if r.Ok? {
      var name := r.value.0.audit[|s.audit|].action;
      assert Moves(s.rules[i], r.value.1, action, wanted, validate, name);
    }
  }

  // ---------------------------------------------------------------- statuses spell the audit log

  /** Where a rule stands by its audit actions alone; an action out of turn breaks the record. */
  datatype Standing = NotYet | Stands(status: Status) | Broken

  function Next(standing: Standing, action: AuditAction): Standing {
    match standing
    case NotYet => if action == Proposed then Stands(Suggested) else Broken
    case Broken => Broken
    case Stands(status) =>
      match action
      case EvidenceAdded => standing
      case Edited => if status in {Suggested, Inactive} then standing else Broken
      case Approved => if status == Suggested then Stands(Active) else Broken
      case RejectedRule => if status == Suggested then Stands(Rejected) else Broken
      case Deactivated => if status == Active then Stands(Inactive) else Broken
      case Reactivated => if status == Inactive then Stands(Active) else Broken
      case Proposed => Broken
  }

  function StandingOf(audit: seq<AuditEvent>, i: Id): Standing {
    if audit == [] then NotYet else
      var before, last := StandingOf(audit[..|audit| - 1], i), audit[|audit| - 1];
      if last.rule == i then Next(before, last.action) else before
  }

  predicate Recorded(s: State) { forall i <- s.rules :: StandingOf(s.audit, i) == Stands(s.rules[i].status) }

  lemma NextStanding(audit: seq<AuditEvent>, e: AuditEvent, i: Id)
    ensures StandingOf(audit + [e], i) == if e.rule == i then Next(StandingOf(audit, i), e.action) else StandingOf(audit, i)
  {
    assert (audit + [e])[..|audit|] == audit;
  }

  lemma {:induction false} UnreferencedStandsNot(audit: seq<AuditEvent>, i: Id)
    requires forall e <- audit :: e.rule != i
    ensures StandingOf(audit, i) == NotYet
  {
    if audit != [] {
      assert audit[|audit| - 1] in audit;
      UnreferencedStandsNot(audit[..|audit| - 1], i);
    }
  }

  lemma ConsolidatingIsRecorded(s: State, i: Id, run: string, ids: seq<Id>)
    requires Recorded(s) && i in s.rules
    ensures Recorded(Supporting(s, i, run, ids, false))
  {
    var later := Supporting(s, i, run, ids, false);
    hide HasKey, EvidenceOf, SnapshotOf, RunKey, StandingOf;
    forall j <- later.rules ensures StandingOf(later.audit, j) == Stands(later.rules[j].status) {
      if later.audit != s.audit { NextStanding(s.audit, later.audit[|s.audit|], j); }
    }
  }

  lemma ProposingIsRecorded(s: State, rule: Rule, run: string, ids: seq<Id>)
    requires Recorded(s) && Referenced(s) && rule.status == Suggested
    ensures Recorded(Supporting(Inserted(s, rule), s.serial, run, ids, true))
  {
    var i, later := s.serial, Supporting(Inserted(s, rule), s.serial, run, ids, true);
    assert i !in s.rules && forall e <- s.audit :: e.rule != i;
    assert !HasKey(s.audit, i, RunKey(run, Proposed));
    UnreferencedStandsNot(s.audit, i);
    hide HasKey, EvidenceOf, SnapshotOf, RunKey, StandingOf, Referenced;
    forall j <- later.rules ensures StandingOf(later.audit, j) == Stands(later.rules[j].status) {
      NextStanding(s.audit, later.audit[|s.audit|], j);
    }
  }

  lemma ConsideringIsRecorded(s: State, x: Matching, run: string, candidate: Candidate, supported: bool)
    requires Recorded(s) && Referenced(s)
    ensures Recorded(Considered(s, x, run, candidate, supported).0)
  {
    UnmatchedKeyIsNew(s, x, candidate.content);
    hide Recorded, Referenced, MatchingRule, Supporting;
    if supported {
      match MatchingRule(s, x, candidate.content)
      case Some(i) => ConsolidatingIsRecorded(s, i, run, candidate.evidence);
      case None =>
        ProposingIsRecorded(s, Rule(x.key(candidate.content), Suggested, 1, candidate.content, 0), run, candidate.evidence);
    }
  }

  lemma {:induction false} BatchIsRecorded(s: State, x: Matching, run: string, candidates: seq<Candidate>, supported: Candidate -> bool)
    requires Sound(s) && Recorded(s)
    ensures Recorded(ConsideredAll(s, x, run, candidates, supported))
  {
    if candidates != [] {
      hide Follows, Considered, Recorded;
      var init, last := candidates[..|candidates| - 1], candidates[|candidates| - 1];
      BatchIsSound(s, x, run, init, supported);
      BatchIsRecorded(s, x, run, init, supported);
      ConsideringIsRecorded(ConsideredAll(s, x, run, init, supported), x, run, last, supported(last));
    }
  }

  lemma WantedContent(content: Content, action: Moderation) returns (wanted: Content)
    ensures AsksFor(action, content, wanted)
  {
    wanted := if action.Edit? then EditedContent(content, action) else content;
  }

  lemma ModeratingIsRecorded(s: State, i: Id, action: Moderation, key: string, expected: nat, validate: Validation)
    requires Recorded(s) && Moderated(s, i, action, key, expected, validate).Ok?
    ensures Recorded(Moderated(s, i, action, key, expected, validate).value.0)
  {
    var later := Moderated(s, i, action, key, expected, validate).value.0;
    if later != s {
      var wanted := WantedContent(s.rules[i].content, action);
      ModerationMovesAsNamed(s, i, action, key, validate, wanted);
      hide Moderated, HasKey, SnapshotOf, StandingOf, AsksFor;
      var updated := later.rules[i];
      var name :| Moves(s.rules[i], updated, action, wanted, validate, name)
                  && later == s.(rules := s.rules[i := updated], audit := s.audit + [AuditEvent(i, name, key, SnapshotOf(updated))]);
      forall j <- later.rules ensures StandingOf(later.audit, j) == Stands(later.rules[j].status) {
        NextStanding(s.audit, later.audit[|s.audit|], j);
      }
    }
  }

  /**
   * In every run, the audit log alone tells each rule's status: its actions come in turn, from the proposal on,
   * and lead to the status the rule has.
   */
  lemma {:induction false} StatusesSpellTheAudit(states: seq<State>, steps: seq<Step>, x: Matching, validate: Validation, j: nat)
    requires Execution(states, steps, x, validate) && j < |states|
    ensures Recorded(states[j])
  {
    hide *;
    if j == 0 {
      StartsRecorded(states, steps, x, validate);
    } else {
      StatusesSpellTheAudit(states, steps, x, validate, j - 1);
      RulesStayAudited(states, steps, x, validate, j - 1, j - 1);
      StepAt(states, steps, x, validate, j - 1);
      StepIsRecorded(states[j - 1], steps[j - 1], x, validate);
    }
  }

  lemma StartsRecorded(states: seq<State>, steps: seq<Step>, x: Matching, validate: Validation)
    requires Execution(states, steps, x, validate)
    ensures Recorded(states[0])
  {
    hide After;
  }

  lemma StepIsRecorded(s: State, step: Step, x: Matching, validate: Validation)
    requires Sound(s) && Recorded(s)
    ensures Recorded(After(s, x, validate, step))
  {
    hide Sound, Recorded, ConsideredAll, Moderated, Supported;
    match step
    case Persist(run, candidates, pullRequestOf, minimum, minimumPullRequests) =>
      BatchIsRecorded(s, x, run, candidates, c => Supported(c, pullRequestOf, minimum, minimumPullRequests));
    case Moderate(i, action, key, expected) =>
      if Moderated(s, i, action, key, expected, validate).Ok? { ModeratingIsRecorded(s, i, action, key, expected, validate); }
  }

  // ---------------------------------------------------------------- edits that change nothing

  /** Validation strips surrounding space from a title. */
  function StripTitle(content: Content): Option<Content> { Some(content.(title := Stripped(content.title))) }

  function Stripped(title: string): string {
    if title != [] && title[0] == ' ' then Stripped(title[1..])
    else if title != [] && title[|title| - 1] == ' ' then Stripped(title[..|title| - 1])
    else title
  }

  /** An edit that goes through changes the content exactly when what it asks for is, once valid, something else. */
  lemma EditsChangeExactly(s: State, i: Id, action: Moderation, key: string, validate: Validation, wanted: Content)
    requires i in s.rules && !HasKey(s.audit, i, key) && AsksFor(action, s.rules[i].content, wanted)
    requires Moderated(s, i, action, key, s.rules[i].version, validate).Ok?
    ensures Moderated(s, i, action, key, s.rules[i].version, validate).value.1.content != s.rules[i].content
            <==> validate(wanted) != Some(s.rules[i].content)
  {
    hide HasKey, Moderated;
    ModerationMovesAsNamed(s, i, action, key, validate, wanted);
  }

  /** A run whose last step edits a title into itself with a space: a new version and an audit entry, the same content. */
  lemma EditCanChangeNothing(x: Matching, content: Content) returns (states: seq<State>, steps: seq<Step>)
    requires content.title == "t"
    ensures Execution(states, steps, x, StripTitle) && |steps| == 2
    ensures steps[1].Moderate? && steps[1].action == Edit(Some(" t"), None, None, None, None)
    ensures 0 in states[1].rules && 0 in states[2].rules
    ensures states[2].rules[0].content == states[1].rules[0].content == content
    ensures states[2].rules[0].version == 2 && |states[2].audit| == |states[1].audit| + 1
  {
    hide After, Stripped, RunKey;
    var persist := Persist("r", [Candidate(content, [])], map[], 0, 0);
    var edit := Edit(Some(" t"), None, None, None, None);
    var one := After(EMPTY, x, StripTitle, persist);
    var two := After(one, x, StripTitle, Moderate(0, edit, "k", 1));
    OneSuggestion(x, content);
    TitleEdited(one, x, content);
    states, steps := [EMPTY, one, two], [persist, Moderate(0, edit, "k", 1)];
  }

  lemma StripsToItself()
    ensures Stripped(" t") == "t"
  {
    assert " t"[1..] == "t";
  }

  lemma OneSuggestion(x: Matching, content: Content)
    ensures var one := After(EMPTY, x, StripTitle, Persist("r", [Candidate(content, [])], map[], 0, 0));
            && 0 in one.rules && one.rules[0] == Rule(x.key(content), Suggested, 1, content, 0)
            && |one.audit| == 1 && one.audit[0].key == RunKey("r", Proposed)
  {
    hide ConsideredAll, Considered, Supporting, Inserted, RunKey;
    var c := Candidate(content, []);
    OneIsConsidered(x, c, c => Supported(c, map[], 0, 0));
    assert Supported(c, map[], 0, 0);
    FirstIsProposed(x, c);
    FirstIsSupported(Rule(x.key(content), Suggested, 1, content, 0));
  }

  lemma OneIsConsidered(x: Matching, c: Candidate, supported: Candidate -> bool)
    ensures ConsideredAll(EMPTY, x, "r", [c], supported) == Considered(EMPTY, x, "r", c, supported(c)).0
  {
    hide Considered;
    assert [c][..0] == [];
  }

  lemma FirstIsProposed(x: Matching, c: Candidate)
    ensures Considered(EMPTY, x, "r", c, true).0
         == Supporting(Inserted(EMPTY, Rule(x.key(c.content), Suggested, 1, c.content, 0)), 0, "r", c.evidence, true)
  {
    hide Supporting, MatchingRule;
    UnmatchedKeyIsNew(EMPTY, x, c.content);
  }

  lemma FirstIsSupported(rule: Rule)
    requires rule.evidenceCount == 0
    ensures var one := Supporting(Inserted(EMPTY, rule), 0, "r", [], true);
            && 0 in one.rules && one.rules[0] == rule && |one.audit| == 1 && one.audit[0].key == RunKey("r", Proposed)
  {
    hide RunKey, SnapshotOf;
    assert EvidenceOf({} + Cited(0, []), 0) == {};
  }

  lemma TitleEdited(one: State, x: Matching, content: Content)
    requires 0 in one.rules && one.rules[0].content == content && content.title == "t"
    requires one.rules[0].status == Suggested && one.rules[0].version == 1
    requires |one.audit| == 1 && one.audit[0].key == RunKey("r", Proposed)
    ensures var later := After(one, x, StripTitle, Moderate(0, Edit(Some(" t"), None, None, None, None), "k", 1));
            && 0 in later.rules && later.rules[0].content == content && later.rules[0].version == 2 && |later.audit| == 2
  {
    StripsToItself();
    hide Stripped;
    assert RunKey("r", Proposed)[0] == 'g' && "k"[0] == 'k';
    assert !HasKey(one.audit, 0, "k");
    assert " t" != "t" by { assert |" t"| == 2; }
  }

  // ---------------------------------------------------------------- the store

  class RuleStore {
    var s: State
    const x: Matching
    const validate: Validation

    constructor (x: Matching, validate: Validation)
      ensures s == EMPTY && this.x == x && this.validate == validate
    {
      s := EMPTY;
      this.x, this.validate := x, validate;
    }

    /** Every suggestion is proposed, consolidated or rejected. */
    method PersistRuleSuggestions(run: string, candidates: seq<Candidate>, pullRequestOf: map<Id, Id>, minimum: nat,
                                  minimumPullRequests: nat)
      returns (proposed: nat, consolidated: nat, rejected: nat)
      requires Sound(s)
      modifies this`s
      ensures s == After(old(s), x, validate, Persist(run, candidates, pullRequestOf, minimum, minimumPullRequests))
      ensures Sound(s) && Follows(old(s), s)
      ensures proposed + consolidated + rejected == |candidates| && |s.rules| == |old(s).rules| + proposed
    {
      var supported := (c: Candidate) => Supported(c, pullRequestOf, minimum, minimumPullRequests);
      proposed, consolidated, rejected := 0, 0, 0;
      ghost var base := s;
      BatchIsSound(base, x, run, candidates, supported);
      hide Follows, Supported, Supporting, MatchingRule, Sound;
      for i := 0 to |candidates|
        invariant s == ConsideredAll(base, x, run, candidates[..i], supported)
        invariant proposed + consolidated + rejected == i && |s.rules| == |base.rules| + proposed
      {
        assert candidates[..i + 1][..i] == candidates[..i];
        BatchIsSound(base, x, run, candidates[..i], supported);
        OutcomesTellWhatHappened(s, x, run, candidates[i], supported(candidates[i]));
        var outcome := Consider(run, candidates[i], supported(candidates[i]));
        match outcome
        case OutProposed => proposed := proposed + 1;
        case OutConsolidated => consolidated := consolidated + 1;
        case OutRejected => rejected := rejected + 1;
      }
      assert candidates[..|candidates|] == candidates;
    }

    method Consider(run: string, candidate: Candidate, supported: bool) returns (outcome: Outcome)
      modifies this`s
      ensures (s, outcome) == Considered(old(s), x, run, candidate, supported)
    {
      if !supported { return OutRejected; }
      UnmatchedKeyIsNew(s, x, candidate.content);
      hide MatchingRule, Supporting;
      var matching := MatchingRule(s, x, candidate.content);
      var i, isNew := s.serial, matching.None?;
      if isNew {
        s := Inserted(s, Rule(x.key(candidate.content), Suggested, 1, candidate.content, 0));
      } else {
        i := matching.value;
      }
      Support(i, run, candidate.evidence, isNew);
      return if isNew then OutProposed else OutConsolidated;
    }

    /** The evidence is inserted one citation at a time, and counted again. */
    method Support(i: Id, run: string, ids: seq<Id>, isNew: bool)
      requires i in s.rules
      modifies this`s
      ensures s == Supporting(old(s), i, run, ids, isNew)
    {
      var before, added := s.evidence, 0;
      for k := 0 to |ids|
        invariant s == old(s).(evidence := before + Cited(i, ids[..k]))
        invariant added > 0 <==> s.evidence != before
      {
        NextCited(i, ids, k);
        if (i, ids[k]) !in s.evidence {
          s := s.(evidence := s.evidence + {(i, ids[k])});
          added := added + 1;
        }
      }
      assert ids[..|ids|] == ids;
      s := s.(rules := s.rules[i := s.rules[i].(evidenceCount := |EvidenceOf(s.evidence, i)|)]);
      if isNew || added > 0 {
        var action := if isNew then Proposed else EvidenceAdded;
        s := s.(audit := Audited(s.audit, AuditEvent(i, action, RunKey(run, action), SnapshotOf(s.rules[i]))));
      }
    }

    method Moderate(i: Id, action: Moderation, key: string, expected: nat) returns (r: Result<Rule, Refusal>)
      requires Sound(s)
      modifies this`s
      ensures Sound(s) && Follows(old(s), s)
      ensures match Moderated(old(s), i, action, key, expected, validate)
              case Ok((later, rule)) => s == later && r == Ok(rule)
              case Err(refusal) => s == old(s) && r == Err(refusal)
      ensures i !in old(s).rules <==> r == Err(Unknown)
      ensures i in old(s).rules && HasKey(old(s).audit, i, key) ==> r == Ok(old(s).rules[i]) && s == old(s)
      ensures i in old(s).rules && !HasKey(old(s).audit, i, key) ==> (r == Err(Changed) <==> old(s).rules[i].version != expected)
    {
      ModeratingIsSound(s, i, action, key, expected, validate);
      Unmoved(s);
      hide Sound, Follows;
      if i !in s.rules { return Err(Unknown); }
      if HasKey(s.audit, i, key) { return Ok(s.rules[i]); }
      if s.rules[i].version != expected { return Err(Changed); }
      var requested := Requested(s.rules[i], action);
      if requested.Err? { return Err(requested.error); }
      var (rule, audited) := requested.value;
      var content := validate(rule.content);
      if content.None? { return Err(InvalidContent); }
      var updated := rule.(content := content.value);
      s := s.(rules := s.rules[i := updated], audit := s.audit + [AuditEvent(i, audited, key, SnapshotOf(updated))]);
      return Ok(updated);
    }
  }

  lemma Unmoved(s: State)
    ensures Follows(s, s)
  {
  }

  lemma NextCited(i: Id, ids: seq<Id>, k: nat)
    requires k < |ids|
    ensures Cited(i, ids[..k + 1]) == Cited(i, ids[..k]) + {(i, ids[k])}
  {
    assert ids[..k + 1] == ids[..k] + [ids[k]];
  }
}
