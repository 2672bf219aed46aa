/** Whole runs of the review store: how far a prediction carries, and what its publication leaves. */
module ReviewRuns {
  import opened Wrappers
  import opened Rows
  import opened Lineage
  import opened LineageSteps
  import opened LineageIntake
  import opened Continuity
  import opened ReviewStore

  // ---------------------------------------------------------------- what a prediction reads

  /** The run reports on this lineage. */
  predicate Touches(db: Tables, r: Id, l: Id) {
    exists e <- db.events :: db.events[e].run == r && db.events[e].lineage == l
  }

  predicate SameFindings(a: Tables, b: Tables, l: Id) {
    && FindingsOf(a, l) == FindingsOf(b, l)
    && forall f <- a.findings | a.findings[f].lineage == l :: f in b.findings && b.findings[f] == a.findings[f]
  }

  predicate SameEvents(a: Tables, b: Tables, r: Id) {
    && (forall e <- a.events | a.events[e].run == r :: e in b.events && b.events[e] == a.events[e])
    && (forall e <- b.events | b.events[e].run == r :: e in a.events && a.events[e] == b.events[e])
    && (forall e <- a.events | a.events[e].run == r :: e in a.applied <==> e in b.applied)
  }

  /** The published open findings of the request, the run's events, and the findings of the lineages it reports on. */
  predicate SameView(a: Tables, b: Tables, r: Id) {
    && r in a.runs && r in b.runs && a.runs[r].pullRequest == b.runs[r].pullRequest
    && SameEvents(a, b, r)
    && (forall e <- a.events | a.events[e].run == r :: SameFindings(a, b, a.events[e].lineage))
    && Continuity.Active(a, a.runs[r].pullRequest) == Continuity.Active(b, a.runs[r].pullRequest)
  }

  lemma ViewsCompose(a: Tables, b: Tables, c: Tables, r: Id)
    requires SameView(a, b, r) && SameView(b, c, r)
    ensures SameView(a, c, r)
  {
    hide Continuity.Active, FindingsOf;
  }

  lemma {:induction false} SameAdjustments(a: Tables, b: Tables, open: map<Id, Id>, ids: seq<Id>)
    requires forall e <- ids :: && e in a.events && e in b.events && a.events[e] == b.events[e]
                                && FindingsOf(a, a.events[e].lineage) == FindingsOf(b, a.events[e].lineage) != {}
    ensures AdjustedAll(a, open, ids) == AdjustedAll(b, open, ids)
  {
    hide FindingsOf;
    if ids != [] {
      assert ids[|ids| - 1] in ids && forall e <- ids[..|ids| - 1] :: e in ids;
      SameAdjustments(a, b, open, ids[..|ids| - 1]);
    }
  }

  function OwnRows(db: Tables, r: Id): set<Id> {
    set e <- db.events | db.events[e].run == r && FindingsOf(db, db.events[e].lineage) != {}
  }

  lemma SameOwnRows(a: Tables, b: Tables, r: Id)
    requires SameView(a, b, r)
    ensures OwnRows(a, r) == OwnRows(b, r)
    ensures forall e <- OwnRows(a, r) :: && e in a.events && e in b.events && a.events[e] == b.events[e]
                                         && FindingsOf(a, a.events[e].lineage) == FindingsOf(b, a.events[e].lineage) != {}
  {
    hide FindingsOf, Continuity.Active;
    assert forall e <- a.events | a.events[e].run == r :: SameFindings(a, b, a.events[e].lineage);
  }

  lemma RowsInOrder(db: Tables, r: Id)
    ensures EventRows(db, r) == InOrder(OwnRows(db, r))
  {
    hide FindingsOf, InOrder;
  }

  /** The prediction is a function of the view. */
  lemma SamePrediction(a: Tables, b: Tables, r: Id)
    requires SameView(a, b, r)
    ensures Predicted(a, r) == Predicted(b, r)
  {
    SameOwnRows(a, b, r);
    RowsInOrder(a, r);
    RowsInOrder(b, r);
    hide Continuity.Active, EventRows, AdjustedAll, FindingsOf, OwnRows, SameEvents, SameFindings;
    SameAdjustments(a, b, Continuity.Active(a, a.runs[r].pullRequest), EventRows(a, r));
  }

  // ---------------------------------------------------------------- steps that leave the view alone

  lemma AppliedStays(a: Tables, b: Tables, f: Id)
    requires Wired(a) && Journaled(a) && Keeps(a, b) && b.applied == a.applied
    ensures AppliedFinding(a, f) ==> f in a.findings && f in b.findings && b.findings[f] == a.findings[f]
    ensures AppliedFinding(b, f) <==> AppliedFinding(a, f)
  {
    if AppliedFinding(a, f) {
      var e :| e in a.applied && e in a.events && a.events[e].finding == Some(f);
      assert EventIsWired(a, a.events[e]);
    }
    hide EventIsWired;
  }

  lemma AppliedFindingsStay(a: Tables, b: Tables, l: Id)
    requires Wired(a) && Journaled(a) && Keeps(a, b) && b.applied == a.applied
    ensures AppliedFindings(b, l) == AppliedFindings(a, l)
  {
    forall f: Id ensures f in AppliedFindings(b, l) <==> f in AppliedFindings(a, l) { AppliedStays(a, b, f); }
    hide Keeps, Wired, AppliedFinding;
  }

  /** Nothing new is applied, and no active lineage appears, disappears or changes. */
  lemma ActiveStays(a: Tables, b: Tables, pullRequest: Id)
    requires Wired(a) && Journaled(a) && Keeps(a, b) && b.applied == a.applied
    requires forall l <- a.lineages | a.lineages[l].status == Status.Active :: l in b.lineages && b.lineages[l] == a.lineages[l]
    requires forall l <- b.lineages | b.lineages[l].status == Status.Active :: l in a.lineages && b.lineages[l] == a.lineages[l]
    ensures Continuity.Active(a, pullRequest) == Continuity.Active(b, pullRequest)
  {
    hide Wired, Journaled, Keeps, AppliedFindings;
    forall l: Id ensures AppliedFindings(b, l) == AppliedFindings(a, l) { AppliedFindingsStay(a, b, l); }
  }

  /** Runs, publications and threads may change; a run keeps its pull request. */
  predicate Administrative(db: Tables, later: Tables, r: Id) {
    && later == db.(runs := later.runs, publications := later.publications, threads := later.threads, serial := later.serial)
    && r in db.runs && r in later.runs && later.runs[r].pullRequest == db.runs[r].pullRequest
  }

  lemma AdministrationKeepsView(db: Tables, later: Tables, r: Id)
    requires Administrative(db, later, r)
    ensures SameView(db, later, r)
  {
    forall l: Id ensures AppliedFindings(later, l) == AppliedFindings(db, l) {
      assert forall f :: AppliedFinding(later, f) <==> AppliedFinding(db, f);
    }
    hide AppliedFindings;
    assert forall l :: FindingsOf(later, l) == FindingsOf(db, l);
  }

  /** What discarding run `q` would take away is nothing that run `r` reports on. */
  predicate Untangled(db: Tables, q: Id, r: Id) {
    && (forall l <- Dead(db, q) :: !Touches(db, r, l))
    && (forall f <- db.findings | db.findings[f].run == q :: !Touches(db, r, db.findings[f].lineage))
  }

  lemma ClearedKeepsView(db: Tables, q: Id, r: Id)
    requires Invariant(db) && q in db.runs && db.runs[q].status != Published && r in db.runs && q != r && Untangled(db, q, r)
    ensures SameView(db, Cleared(db, q), r)
  {
    var later := Cleared(db, q);
    ClearedKeeps(db, q);
    assert later.runs == db.runs && later.applied == db.applied;
    ActiveStays(db, later, db.runs[r].pullRequest);
    ClearedKeepsEvents(db, q, r);
    hide Invariant, Keeps, Continuity.Active, Cleared, Dead, SameEvents;
    forall e <- db.events | db.events[e].run == r ensures SameFindings(db, later, db.events[e].lineage) {
      ClearedKeepsFindings(db, q, r, db.events[e].lineage);
    }
  }

  lemma ClearedKeepsEvents(db: Tables, q: Id, r: Id)
    requires q != r && Untangled(db, q, r)
    ensures SameEvents(db, Cleared(db, q), r)
  {
    forall e <- db.events | db.events[e].run == r ensures e in Cleared(db, q).events {
      assert Touches(db, r, db.events[e].lineage);
    }
    hide Dead, Touches;
  }

  lemma ClearedKeepsFindings(db: Tables, q: Id, r: Id, l: Id)
    requires Untangled(db, q, r) && Touches(db, r, l)
    ensures SameFindings(db, Cleared(db, q), l)
  {
    hide Dead, Touches;
  }

  // ---------------------------------------------------------------- reports of other runs

  /** A change of run `q` puts its event, and its finding if it has one, on this stored lineage. */
  predicate Targets(db: Tables, q: Id, change: Change, l: Id)
    requires q in db.runs
  {
    match change.lineage
    case Some(k) => l == k
    case None =>
      change.finding.Some? && l in db.lineages && db.lineages[l].pullRequest == db.runs[q].pullRequest
      && db.lineages[l].initial == change.finding.value.fingerprint
  }

  predicate LandsElsewhere(db: Tables, q: Id, r: Id, changes: seq<Change>)
    requires q in db.runs
  {
    forall change <- changes, e <- db.events | db.events[e].run == r :: !Targets(db, q, change, db.events[e].lineage)
  }

  /** The run's events, and the findings of the lineages it reports on. */
  predicate Spares(a: Tables, b: Tables, r: Id) {
    && SameEvents(a, b, r)
    && forall e <- a.events | a.events[e].run == r :: SameFindings(a, b, a.events[e].lineage)
  }

  lemma SparingComposes(a: Tables, b: Tables, c: Tables, r: Id)
    requires Spares(a, b, r) && Spares(b, c, r)
    ensures Spares(a, c, r)
  {
    hide FindingsOf;
  }

  lemma NewLineageSpares(db: Tables, row: LineageRow, r: Id)
    ensures Spares(db, LineageInserted(db, row), r)
  {
    assert forall l :: FindingsOf(LineageInserted(db, row), l) == FindingsOf(db, l);
  }

  lemma NewFindingSpares(db: Tables, row: FindingRow, r: Id)
    requires Issued(db) && !Touches(db, r, row.lineage)
    ensures Spares(db, FindingInserted(db, row), r)
  {
    forall l | l != row.lineage ensures SameFindings(db, FindingInserted(db, row), l) {}
  }

  lemma NewEventSpares(db: Tables, event: Event, r: Id)
    requires Issued(db) && event.run != r
    ensures Spares(db, EventInserted(db, event), r)
  {
    assert forall l :: FindingsOf(EventInserted(db, event), l) == FindingsOf(db, l);
  }

  lemma ReportedFindingSpares(db: Tables, row: FindingRow, transition: Transition, r: Id)
    requires Issued(db) && row.run != r && !Touches(db, r, row.lineage) && WithReported(db, row, transition).Ok?
    ensures Spares(db, WithReported(db, row, transition).value, r)
  {
    var found := FindingInserted(db, row);
    NewFindingSpares(db, row, r);
    NewEventSpares(found, Event(row.lineage, row.run, Some(db.serial), transition), r);
    hide Spares, Touches;
    SparingComposes(db, found, WithReported(db, row, transition).value, r);
  }

  lemma ChangeSpares(db: Tables, q: Id, ordinal: nat, change: Change, r: Id)
    requires Issued(db) && q in db.runs && q != r && WithChange(db, q, ordinal, change).Ok?
    requires forall e <- db.events | db.events[e].run == r :: !Targets(db, q, change, db.events[e].lineage)
    requires forall e <- db.events :: db.events[e].lineage in db.lineages
    ensures Spares(db, WithChange(db, q, ordinal, change).value, r)
  {
    hide Spares, SameEvents, SameFindings, WithReported;
    match change.finding
    case None => NewEventSpares(db, Event(change.lineage.value, q, None, change.transition), r);
    case Some(finding) =>
      if change.lineage.Some? {
        assert !Touches(db, r, change.lineage.value);
        ReportedFindingSpares(db, FindingRow(q, change.lineage.value, ordinal, finding), change.transition, r);
      } else {
        var (known, l) := WithLineage(db, q, finding.fingerprint).value;
        KnownIsUntouched(db, q, change, r);
        ReportedFindingSpares(known, FindingRow(q, l, ordinal, finding), change.transition, r);
        SparingComposes(db, known, WithChange(db, q, ordinal, change).value, r);
      }
  }

  /** The lineage that a new finding is stored on is not one the other run reports on. */
  lemma KnownIsUntouched(db: Tables, q: Id, change: Change, r: Id)
    requires Issued(db) && q in db.runs && change.lineage == None && change.finding.Some?
    requires WithLineage(db, q, change.finding.value.fingerprint).Ok?
    requires forall e <- db.events | db.events[e].run == r :: !Targets(db, q, change, db.events[e].lineage)
    requires forall e <- db.events :: db.events[e].lineage in db.lineages
    ensures var (known, l) := WithLineage(db, q, change.finding.value.fingerprint).value;
            Issued(known) && Spares(db, known, r) && !Touches(known, r, l)
  {
    var fingerprint := change.finding.value.fingerprint;
    NewLineageSpares(db, LineageRow(db.runs[q].pullRequest, fingerprint, Pending, q, None, None), r);
    Itself(db, r);
    hide Spares;
  }

  lemma Itself(db: Tables, r: Id)
    ensures Spares(db, db, r)
  {
  }

  lemma {:induction false} ChangesSpare(db: Tables, q: Id, findings: seq<Finding>, changes: seq<Change>, r: Id)
    requires Invariant(db) && q in db.runs && q != r && WithChanges(db, q, findings, changes).Ok?
    requires (forall change <- changes :: InRequest(db, q, change)) && LandsElsewhere(db, q, r, changes)
    ensures Spares(db, WithChanges(db, q, findings, changes).value, r)
  {
    if changes == [] {
      Itself(db, r);
    } else {
      var init, last := changes[..|changes| - 1], changes[|changes| - 1];
      assert last in changes && forall change <- init :: change in changes;
      var before := WithChanges(db, q, findings, init).value;
      ChangesSpare(db, q, findings, init, r);
      ChangesKeep(db, q, findings, init);
      StillElsewhere(db, before, q, last, r);
      hide Invariant, Spares, Extends, Targets, WithChange;
      ChangeSpares(before, q, OrdinalOf(findings, last), last, r);
      SparingComposes(db, before, WithChanges(db, q, findings, changes).value, r);
    }
  }

  lemma StillElsewhere(db: Tables, before: Tables, q: Id, change: Change, r: Id)
    requires Wired(db) && Invariant(before) && q in db.runs && Extends(db, before) && Spares(db, before, r)
    requires forall e <- db.events | db.events[e].run == r :: !Targets(db, q, change, db.events[e].lineage)
    ensures q in before.runs && Issued(before) && forall e <- before.events :: before.events[e].lineage in before.lineages
    ensures forall e <- before.events | before.events[e].run == r :: !Targets(before, q, change, before.events[e].lineage)
  {
    hide SameFindings, Folded, Keyed, Journaled, Settled;
    forall e <- before.events ensures before.events[e].lineage in before.lineages { assert EventIsWired(before, before.events[e]); }
    forall e <- before.events | before.events[e].run == r
      ensures !Targets(before, q, change, before.events[e].lineage)
    {
      assert e in db.events && EventIsWired(db, db.events[e]);
    }
  }

  lemma ExtensionKeepsActive(db: Tables, later: Tables, pullRequest: Id)
    requires Invariant(db) && Extends(db, later)
    ensures Continuity.Active(later, pullRequest) == Continuity.Active(db, pullRequest)
  {
    ExtensionKeeps(db, later);
    hide Keeps, Wired, Keyed, Folded, Settled, Continuity.Active;
    ActiveStays(db, later, pullRequest);
  }

  /** The reports of other runs leave a prediction alone when they land on other lineages. */
  lemma ReportKeepsView(db: Tables, q: Id, enabled: bool, findings: seq<Finding>, changes: seq<Change>, r: Id)
    requires Invariant(db) && r in db.runs && q != r && Persisted(db, q, enabled, findings, changes).Ok?
    requires Classified(Reported(db, q, enabled), db.runs[q].pullRequest, findings, changes)
    requires Untangled(db, q, r) && LandsElsewhere(db, q, r, changes)
    ensures SameView(db, Persisted(db, q, enabled, findings, changes).value, r)
  {
    var run := db.runs[q].(status := if enabled then Ready else RunStatus.Skipped, publishable := enabled);
    var begun := db.(runs := db.runs[q := run]);
    var reported, later := Reported(db, q, enabled), Persisted(db, q, enabled, findings, changes).value;
    AdministrationKeepsView(db, begun, r);
    BegunIsUntangled(db, begun, q, r);
    RunChangeKeeps(db, q, run);
    hide Invariant, Keeps, SameView, Cleared, Untangled, LandsElsewhere, Spares, Extends, Classified;
    ReportedKeeps(db, q, enabled);
    ClearedKeepsView(begun, q, r);
    ViewsCompose(db, begun, reported, r);
    ReportLandsElsewhere(db, q, enabled, r, changes);
    ClassifiedAreInRequest(reported, q, findings, changes);
    ChangesSpare(reported, q, findings, changes, r);
    ChangesKeep(reported, q, findings, changes);
    ExtensionKeepsActive(reported, later, reported.runs[r].pullRequest);
    SparedView(reported, later, r);
    ViewsCompose(db, reported, later, r);
  }

  lemma SparedView(a: Tables, b: Tables, r: Id)
    requires r in a.runs && a.runs == b.runs && Spares(a, b, r)
    requires Continuity.Active(a, a.runs[r].pullRequest) == Continuity.Active(b, a.runs[r].pullRequest)
    ensures SameView(a, b, r)
  {
    hide Continuity.Active, SameEvents, SameFindings;
  }

  lemma BegunIsUntangled(db: Tables, begun: Tables, q: Id, r: Id)
    requires Untangled(db, q, r) && begun == db.(runs := begun.runs)
    ensures Untangled(begun, q, r)
  {
    assert forall l :: Touches(begun, r, l) <==> Touches(db, r, l);
    hide Touches;
  }

  lemma ReportLandsElsewhere(db: Tables, q: Id, enabled: bool, r: Id, changes: seq<Change>)
    requires q in db.runs && LandsElsewhere(db, q, r, changes)
    ensures q in Reported(db, q, enabled).runs && LandsElsewhere(Reported(db, q, enabled), q, r, changes)
  {
    hide Dead;
  }

  lemma ClassifiedAreInRequest(db: Tables, q: Id, findings: seq<Finding>, changes: seq<Change>)
    requires q in db.runs && Classified(db, db.runs[q].pullRequest, findings, changes)
    ensures forall change <- changes :: InRequest(db, q, change)
  {
    forall change <- changes ensures InRequest(db, q, change) {
      var i :| 0 <= i < |changes| && changes[i] == change;
      assert ChangeFits(db, db.runs[q].pullRequest, changes[i]);
    }
  }

  // ---------------------------------------------------------------- giving up, and publications of other requests

  lemma StatusKeepsView(db: Tables, q: Id, from: set<RunStatus>, to: RunStatus, r: Id)
    requires r in db.runs
    ensures SameView(db, StatusIf(db, q, from, to), r)
  {
    AdministrationKeepsView(db, StatusIf(db, q, from, to), r);
    hide SameView;
  }

  lemma GivingUpKeepsView(db: Tables, q: Id, to: RunStatus, r: Id)
    requires Invariant(db) && r in db.runs && q != r && Untangled(db, q, r)
    ensures SameView(db, StatusIf(Discarded(db, q), q, UNFINISHED, to), r)
  {
    var discarded := Discarded(db, q);
    assert discarded.runs == db.runs;
    AdministrationKeepsView(db, db, r);
    hide Invariant, SameView, Untangled, Cleared;
    if discarded != db { ClearedKeepsView(db, q, r); }
    StatusKeepsView(discarded, q, UNFINISHED, to, r);
    hide Discarded, StatusIf;
    ViewsCompose(db, discarded, StatusIf(discarded, q, UNFINISHED, to), r);
  }

  lemma ActiveByLineage(a: Tables, b: Tables, pullRequest: Id)
    requires forall l <- a.lineages | a.lineages[l].pullRequest == pullRequest ::
               l in b.lineages && b.lineages[l] == a.lineages[l] && AppliedFindings(b, l) == AppliedFindings(a, l)
    requires forall l <- b.lineages | b.lineages[l].pullRequest == pullRequest ::
               l in a.lineages && a.lineages[l].pullRequest == pullRequest
    ensures Continuity.Active(a, pullRequest) == Continuity.Active(b, pullRequest)
  {
    hide AppliedFindings;
  }

  /** Publishing a run of another pull request moves none of this request's lineages. */
  lemma ActivationKeepsView(db: Tables, q: Id, unanchored: set<Fingerprint>, r: Id)
    requires Invariant(db) && q in db.runs && r in db.runs && db.runs[q].pullRequest != db.runs[r].pullRequest
    requires Activated(db, q, unanchored).Ok?
    ensures SameView(db, Activated(db, q, unanchored).value, r)
  {
    var later, pr := Activated(db, q, unanchored).value, db.runs[r].pullRequest;
    ActivationMoves(db, q, unanchored);
    hide Activated, Invariant, AppliedFindings, SameView;
    forall l <- db.lineages | db.lineages[l].pullRequest == pr
      ensures l in later.lineages && later.lineages[l] == db.lineages[l] && AppliedFindings(later, l) == AppliedFindings(db, l)
    {
      OtherRequestIsUntouched(db, q, unanchored, l);
    }
    ActiveByLineage(db, later, pr);
    SparedByActivation(db, later, q, r);
    hide OnlyMoves;
    SparedView(db, later, r);
  }

  lemma ActivationMoves(db: Tables, q: Id, unanchored: set<Fingerprint>)
    requires Invariant(db) && Activated(db, q, unanchored).Ok?
    ensures var later := Activated(db, q, unanchored).value;
            && later.runs == db.runs && OnlyMoves(db, later)
            && forall e <- later.applied :: e in db.applied || (e in db.events && db.events[e].run == q)
  {
    assert Consistent(db);
    hide Consistent;
    ActivatedIsConsistent(db, q, unanchored);
    assert forall e <- Applicable(db, q, unanchored) :: e in db.events && db.events[e].run == q;
  }

  lemma SparedByActivation(db: Tables, later: Tables, q: Id, r: Id)
    requires OnlyMoves(db, later) && q != r
    requires forall e <- later.applied :: e in db.applied || (e in db.events && db.events[e].run == q)
    ensures Spares(db, later, r)
  {
    assert forall l :: FindingsOf(later, l) == FindingsOf(db, l);
  }

  lemma OtherRequestIsUntouched(db: Tables, q: Id, unanchored: set<Fingerprint>, l: Id)
    requires Invariant(db) && q in db.runs && l in db.lineages && db.lineages[l].pullRequest != db.runs[q].pullRequest
    requires Activated(db, q, unanchored).Ok?
    ensures var later := Activated(db, q, unanchored).value;
            && l in later.lineages && later.lineages[l] == db.lineages[l]
            && AppliedFindings(later, l) == AppliedFindings(db, l)
  {
    forall e <- db.events ensures db.events[e].run != q || db.events[e].lineage != l { assert EventIsWired(db, db.events[e]); }
    assert Consistent(db);
    hide Consistent, Activated;
    UntouchedPublication(db, q, unanchored, l);
  }

  /** The lineages publication leaves pending, once the threads of the published comments are recorded. */
  function LeftUnanchored(db: Tables, r: Id, s: Id, provider: string, comments: seq<Comment>, unanchored: set<Fingerprint>): set<Id>
    requires ThreadsRecorded(db, s, provider, comments).Ok?
  {
    SkippedLineages(ThreadsRecorded(db, s, provider, comments).value, r, unanchored)
  }

  lemma FullyPublishedParts(db: Tables, p: Id, s: Id, provider: string, comments: seq<Comment>, unanchored: set<Fingerprint>)
    returns (marked: Tables)
    requires Invariant(db) && FullyPublished(db, p, s, provider, comments, unanchored).Ok? && p in db.publications
    requires db.publications[p].run in db.runs
    ensures ThreadsRecorded(db, s, provider, comments).Ok?
    ensures var r := db.publications[p].run;
            && Invariant(marked) && Activated(marked, r, unanchored).Ok?
            && (forall q <- db.runs :: && Administrative(db, marked, q)
                                       && Administrative(Activated(marked, r, unanchored).value,
                                                         FullyPublished(db, p, s, provider, comments, unanchored).value, q))
            && SkippedLineages(marked, r, unanchored) == LeftUnanchored(db, r, s, provider, comments, unanchored)
  {
    var threaded, r := ThreadsRecorded(db, s, provider, comments).value, db.publications[p].run;
    assert threaded == db.(threads := threaded.threads);
    marked := threaded.(publications := threaded.publications[p := threaded.publications[p].(published := true)]);
    hide Invariant, Activated, ThreadsRecorded, Keeps, SkippedLineages;
    ThreadsKeep(db, threaded.threads);
    PublicationMarkKeeps(threaded, p, true);
    ActivationMoves(marked, r, unanchored);
    MarkSkipsNothing(threaded, marked, r, unanchored);
  }

  lemma MarkSkipsNothing(db: Tables, marked: Tables, r: Id, unanchored: set<Fingerprint>)
    requires marked == db.(publications := marked.publications)
    ensures SkippedLineages(marked, r, unanchored) == SkippedLineages(db, r, unanchored)
  {
    assert forall e <- db.events :: Unanchored(marked, e, unanchored) <==> Unanchored(db, e, unanchored);
    hide Unanchored;
  }

  lemma PublishKeepsView(db: Tables, p: Id, s: Id, provider: string, comments: seq<Comment>, unanchored: set<Fingerprint>, r: Id)
    requires Invariant(db) && FullyPublished(db, p, s, provider, comments, unanchored).Ok? && r in db.runs
    requires p in db.publications && db.publications[p].run in db.runs
    requires db.runs[db.publications[p].run].pullRequest != db.runs[r].pullRequest
    ensures SameView(db, FullyPublished(db, p, s, provider, comments, unanchored).value, r)
  {
    var q := db.publications[p].run;
    var marked := FullyPublishedParts(db, p, s, provider, comments, unanchored);
    var active, later := Activated(marked, q, unanchored).value, FullyPublished(db, p, s, provider, comments, unanchored).value;
    assert Administrative(db, marked, r) && Administrative(db, marked, q) && Administrative(active, later, r);
    hide Activated, Invariant, SameView, FullyPublished, SkippedLineages, LeftUnanchored;
    ActivationKeepsView(marked, q, unanchored, r);
    AdministrationKeepsView(db, marked, r);
    AdministrationKeepsView(active, later, r);
    ViewsCompose(db, marked, active, r);
    ViewsCompose(db, active, later, r);
  }

  // ---------------------------------------------------------------- from prediction to publication

  /**
   * A transaction that leaves the prediction of run `r` alone: bookkeeping of any run; giving up or reporting
   * on another run, away from the lineages `r` reports on; or publishing for another pull request.
   */
  predicate Quiet(db: Tables, step: Step, r: Id)
    requires r in db.runs
  {
    match step
    case Begin(_, _, _, _) => true
    case Fail(_) => true
    case BeginPublication(_, _) => true
    case FailPublication(_) => true
    case Supersede(q, leaseHeld) => !leaseHeld || (q != r && Untangled(db, q, r))
    case Exhaust(job) => var q := RunOfJob(db, job); q == None || (q.value != r && Untangled(db, q.value, r))
    case Persist(q, _, _, changes) =>
      q !in db.runs || (q != r && Untangled(db, q, r) && LandsElsewhere(db, q, r, changes))
    case Publish(p, _, _, _, _) =>
      p !in db.publications || db.publications[p].run !in db.runs
      || db.runs[db.publications[p].run].pullRequest != db.runs[r].pullRequest
  }

  lemma NothingKeepsView(db: Tables, r: Id)
    requires r in db.runs
    ensures SameView(db, db, r)
  {
    AdministrationKeepsView(db, db, r);
    hide SameView;
  }

  lemma BegunIsAdministrative(db: Tables, job: Id, pullRequest: Id, revision: string, configuration: string, r: Id)
    requires Issued(db) && r in db.runs && Begun(db, job, pullRequest, revision, configuration).Ok?
    ensures Administrative(db, Begun(db, job, pullRequest, revision, configuration).value.0, r)
  {
    assert db.serial !in db.runs;
    hide Issued, SameReview;
    match RunOfJob(db, job)
    case Some(q) => assert q in db.runs;
    case None =>
      match RunOfReview(db, pullRequest, revision, configuration)
      case Some(q) => assert q in db.runs;
      case None =>
  }

  lemma BeginKeepsView(db: Tables, job: Id, pullRequest: Id, revision: string, configuration: string, r: Id)
    requires Invariant(db) && r in db.runs
    ensures SameView(db, After(db, Begin(job, pullRequest, revision, configuration)), r)
  {
    assert Issued(db);
    hide Invariant, SameView, Begun, Issued, Administrative;
    NothingKeepsView(db, r);
    if Begun(db, job, pullRequest, revision, configuration).Ok? {
      BegunIsAdministrative(db, job, pullRequest, revision, configuration, r);
      AdministrationKeepsView(db, Begun(db, job, pullRequest, revision, configuration).value.0, r);
    }
  }

  lemma BeginPublicationKeepsView(db: Tables, q: Id, provider: string, r: Id)
    requires r in db.runs
    ensures SameView(db, After(db, Step.BeginPublication(q, provider)), r)
  {
    var begun := PublicationBegun(db, q, provider);
    hide SameView, Newest;
    NothingKeepsView(db, r);
    if begun.Ok? {
      assert Administrative(db, begun.value.0, r);
      hide PublicationBegun, Administrative;
      AdministrationKeepsView(db, begun.value.0, r);
    }
  }

  lemma FailPublicationKeepsView(db: Tables, p: Id, r: Id)
    requires r in db.runs
    ensures SameView(db, PublicationFailed(db, p), r)
  {
    hide SameView;
    assert Administrative(db, PublicationFailed(db, p), r);
    hide PublicationFailed, Administrative;
    AdministrationKeepsView(db, PublicationFailed(db, p), r);
  }

  lemma QuietKeepsView(db: Tables, step: Step, r: Id)
    requires Invariant(db) && Possible(db, step) && r in db.runs && Quiet(db, step, r)
    ensures SameView(db, After(db, step), r)
  {
    NothingKeepsView(db, r);
    hide Invariant, SameView, Untangled, LandsElsewhere, Persisted, FullyPublished, StatusIf, Begun, PublicationBegun;
    hide Classified, Discarded;
    match step
    case Begin(job, pullRequest, revision, configuration) => BeginKeepsView(db, job, pullRequest, revision, configuration, r);
    case Fail(q) => StatusKeepsView(db, q, {Generating}, RunStatus.Failed, r);
    case BeginPublication(q, provider) => BeginPublicationKeepsView(db, q, provider, r);
    case FailPublication(p) => FailPublicationKeepsView(db, p, r);
    case Supersede(q, leaseHeld) => if q in db.runs && leaseHeld { GivingUpKeepsView(db, q, Superseded, r); }
    case Exhaust(job) =>
      if RunOfJob(db, job).Some? { GivingUpKeepsView(db, RunOfJob(db, job).value, RunStatus.Failed, r); }
    case Persist(q, enabled, findings, changes) =>
      if Persisted(db, q, enabled, findings, changes).Ok? {
        PersistedIsGenerating(db, q, enabled, findings, changes);
        ReportKeepsView(db, q, enabled, findings, changes, r);
      }
    case Publish(p, s, provider, comments, unanchored) =>
      if FullyPublished(db, p, s, provider, comments, unanchored).Ok? {
        PublishedIsKnown(db, p, s, provider, comments, unanchored);
        PublishKeepsView(db, p, s, provider, comments, unanchored, r);
      }
  }

  lemma PublishedIsKnown(db: Tables, p: Id, s: Id, provider: string, comments: seq<Comment>, unanchored: set<Fingerprint>)
    requires Invariant(db) && FullyPublished(db, p, s, provider, comments, unanchored).Ok?
    ensures p in db.publications && db.publications[p].run in db.runs
  {
    hide Keyed, Issued, Journaled, Folded, Settled, Activated, EventIsWired;
  }

  /** Every transaction between two moments is quiet for the run. */
  ghost predicate QuietBetween(states: seq<Tables>, steps: seq<Step>, i: nat, j: nat, r: Id)
    requires j <= |steps| && j <= |states|
  {
    forall k | i <= k < j :: r in states[k].runs && Quiet(states[k], steps[k], r)
  }

  lemma LastIsQuiet(states: seq<Tables>, steps: seq<Step>, i: nat, j: nat, r: Id)
    requires j <= |steps| && j <= |states| && i < j && QuietBetween(states, steps, i, j, r)
    ensures QuietBetween(states, steps, i, j - 1, r) && r in states[j - 1].runs && Quiet(states[j - 1], steps[j - 1], r)
  {
    hide Quiet;
  }

  lemma AsManyStates(states: seq<Tables>, steps: seq<Step>)
    requires Execution(states, steps)
    ensures |states| == |steps| + 1
  {
  }

  /** While other transactions are quiet for a run, its prediction stands. */
  lemma {:induction false} PredictionStands(states: seq<Tables>, steps: seq<Step>, i: nat, j: nat, r: Id)
    requires Execution(states, steps)
    requires i <= j <= |steps| && r in states[i].runs && QuietBetween(states, steps, i, j, r)
    ensures SameView(states[i], states[j], r) && r in states[j].runs
    ensures Predicted(states[j], r) == Predicted(states[i], r)
    decreases j
  {
    hide *;
    AsManyStates(states, steps);
    if i == j {
      NothingKeepsView(states[i], r);
    } else {
      LastIsQuiet(states, steps, i, j, r);
      PredictionStands(states, steps, i, j - 1, r);
      EveryRunKeepsTheInvariant(states, steps, j - 1);
      StepAt(states, steps, j - 1);
      QuietKeepsView(states[j - 1], steps[j - 1], r);
      ViewsCompose(states[i], states[j - 1], states[j], r);
    }
    ViewHasRun(states[i], states[j], r);
    SamePrediction(states[i], states[j], r);
  }

  lemma ViewHasRun(a: Tables, b: Tables, r: Id)
    requires SameView(a, b, r)
    ensures r in a.runs && r in b.runs && b.runs[r].pullRequest == a.runs[r].pullRequest
  {
  }

  // ---------------------------------------------------------------- what publication leaves

  lemma SameContest(db: Tables, marked: Tables, r: Id, l: Id)
    requires Administrative(db, marked, r)
    ensures Unapplied(marked, r) <==> Unapplied(db, r)
    ensures FindingsOf(marked, l) == FindingsOf(db, l)
    ensures NoneNewerOn(marked, r, l) <==> NoneNewerOn(db, r, l)
  {
    assert forall k :: FindingsOf(marked, k) == FindingsOf(db, k);
    assert forall f :: AppliedFinding(marked, f) <==> AppliedFinding(db, f);
    hide FindingsOf, AppliedFinding, Greatest;
    assert forall e <- db.events | FindingsOf(db, db.events[e].lineage) != {} :: NoneNewer(marked, e) <==> NoneNewer(db, e);
  }

  lemma AdministrationKeepsActive(db: Tables, later: Tables, r: Id)
    requires Administrative(db, later, r)
    ensures Continuity.Active(later, db.runs[r].pullRequest) == Continuity.Active(db, db.runs[r].pullRequest)
  {
    AdministrationKeepsView(db, later, r);
    hide Continuity.Active, Administrative;
  }

  /**
   * Against the tables a publication leaves, on any lineage: it was predicted open exactly when it is now
   * active or was left unanchored, and the finding predicted for an active one is the committed one exactly
   * when no unpublished finding was newer.
   */
  lemma PublicationAgrees(db: Tables, p: Id, s: Id, provider: string, comments: seq<Comment>, unanchored: set<Fingerprint>, l: Id)
    requires Invariant(db) && FullyPublished(db, p, s, provider, comments, unanchored).Ok? && p in db.publications
    requires db.publications[p].run in db.runs && Unapplied(db, db.publications[p].run)
    ensures ThreadsRecorded(db, s, provider, comments).Ok?
    ensures var r, later := db.publications[p].run, FullyPublished(db, p, s, provider, comments, unanchored).value;
            var open, skipped := Continuity.Active(later, db.runs[r].pullRequest), LeftUnanchored(db, r, s, provider, comments, unanchored);
            && (l in Predicted(db, r) <==> l in open || l in skipped)
            && (l in open && l !in skipped ==> (Predicted(db, r)[l] == open[l] <==> NoneNewerOn(db, r, l)))
            && (l in skipped ==> FindingsOf(db, l) != {} && Predicted(db, r)[l] == Greatest(FindingsOf(db, l)))
  {
    var r, later := db.publications[p].run, FullyPublished(db, p, s, provider, comments, unanchored).value;
    var marked := FullyPublishedParts(db, p, s, provider, comments, unanchored);
    assert marked.runs[r].pullRequest == db.runs[r].pullRequest;
    ActivationMoves(marked, r, unanchored);
    hide Invariant, FullyPublished, Activated, LeftUnanchored, Unapplied, Administrative, OnlyMoves, SkippedLineages;
    hide Continuity.Active, FindingsOf, NoneNewerOn, Predicted, SameView;
    AdministrationKeepsView(db, marked, r);
    SamePrediction(db, marked, r);
    SameContest(db, marked, r, l);
    PredictionAgreesWithPublication(marked, r, unanchored, l);
    AdministrationKeepsActive(Activated(marked, r, unanchored).value, later, r);
  }

  /** On one lineage, the open findings are those committed and the newest of those skipped. */
  predicate Matches(db: Tables, predicted: map<Id, Id>, open: map<Id, Id>, skipped: set<Id>, l: Id) {
    && (l in predicted <==> l in open || l in skipped)
    && (l in open && l !in skipped ==> predicted[l] == open[l])
    && (l in skipped ==> FindingsOf(db, l) != {} && predicted[l] == Greatest(FindingsOf(db, l)))
  }

  lemma MatchingMaps(db: Tables, predicted: map<Id, Id>, open: map<Id, Id>, skipped: set<Id>)
    requires forall l :: Matches(db, predicted, open, skipped, l)
    ensures forall l <- skipped :: FindingsOf(db, l) != {}
    ensures predicted == open + NewestOn(db, skipped)
  {
    assert forall l <- skipped :: Matches(db, predicted, open, skipped, l);
    hide FindingsOf;
    var all := open + NewestOn(db, skipped);
    forall l: Id ensures l in predicted <==> l in all ensures l in predicted ==> predicted[l] == all[l] {
      assert Matches(db, predicted, open, skipped, l);
    }
  }

  /** A publication commits what was predicted, when the run's findings are the newest of their lineages. */
  lemma PublicationCommitsPrediction(db: Tables, p: Id, s: Id, provider: string, comments: seq<Comment>, unanchored: set<Fingerprint>)
    requires Invariant(db) && FullyPublished(db, p, s, provider, comments, unanchored).Ok? && p in db.publications
    requires db.publications[p].run in db.runs && Unapplied(db, db.publications[p].run) && Uncontested(db, db.publications[p].run)
    ensures ThreadsRecorded(db, s, provider, comments).Ok?
    ensures var r, later := db.publications[p].run, FullyPublished(db, p, s, provider, comments, unanchored).value;
            var skipped := LeftUnanchored(db, r, s, provider, comments, unanchored);
            && (forall l <- skipped :: FindingsOf(db, l) != {})
            && Predicted(db, r) == Continuity.Active(later, db.runs[r].pullRequest) + NewestOn(db, skipped)
  {
    var r, later := db.publications[p].run, FullyPublished(db, p, s, provider, comments, unanchored).value;
    hide *;
    PublicationAgrees(db, p, s, provider, comments, unanchored, 0);
    var open, skipped := Continuity.Active(later, db.runs[r].pullRequest), LeftUnanchored(db, r, s, provider, comments, unanchored);
    forall l: Id ensures Matches(db, Predicted(db, r), open, skipped, l) {
      PublicationMatches(db, p, s, provider, comments, unanchored, l);
    }
    MatchingMaps(db, Predicted(db, r), open, skipped);
  }

  lemma PublicationMatches(db: Tables, p: Id, s: Id, provider: string, comments: seq<Comment>, unanchored: set<Fingerprint>, l: Id)
    requires Invariant(db) && FullyPublished(db, p, s, provider, comments, unanchored).Ok? && p in db.publications
    requires db.publications[p].run in db.runs && Unapplied(db, db.publications[p].run) && Uncontested(db, db.publications[p].run)
    ensures ThreadsRecorded(db, s, provider, comments).Ok?
    ensures var r, later := db.publications[p].run, FullyPublished(db, p, s, provider, comments, unanchored).value;
            Matches(db, Predicted(db, r), Continuity.Active(later, db.runs[r].pullRequest),
                    LeftUnanchored(db, r, s, provider, comments, unanchored), l)
  {
    PublicationAgrees(db, p, s, provider, comments, unanchored, l);
    UncontestedOn(db, db.publications[p].run, l);
    hide Invariant, FullyPublished, Predicted, Continuity.Active, LeftUnanchored, NoneNewerOn, FindingsOf, Unapplied, Uncontested;
  }

  // ---------------------------------------------------------------- the check, from prediction to publication

  lemma StillUncontested(a: Tables, b: Tables, r: Id)
    requires SameView(a, b, r) && Uncontested(a, r) && Keeps(a, b) && Journaled(b)
    ensures Uncontested(b, r)
  {
    forall e <- b.events | b.events[e].run == r && FindingsOf(b, b.events[e].lineage) != {} ensures NoneNewer(b, e) {
      assert e in a.events && SameFindings(a, b, a.events[e].lineage) && NoneNewer(a, e);
      var newest := Greatest(FindingsOf(a, a.events[e].lineage));
      if AppliedFinding(a, newest) {
        var d :| d in a.applied && d in a.events && a.events[d].finding == Some(newest);
        assert d in b.applied;
      }
    }
  }

  lemma StillUnapplied(a: Tables, b: Tables, r: Id)
    requires SameView(a, b, r) && Unapplied(a, r)
    ensures Unapplied(b, r)
  {
    hide Continuity.Active, FindingsOf;
  }

  /** The open findings, by lineage, that a publication leaves: active ones, and those it could not anchor. */
  function LeftOpen(db: Tables, p: Id, s: Id, provider: string, comments: seq<Comment>, unanchored: set<Fingerprint>): map<Id, Id>
    requires p in db.publications && db.publications[p].run in db.runs
    requires FullyPublished(db, p, s, provider, comments, unanchored).Ok? && ThreadsRecorded(db, s, provider, comments).Ok?
    requires forall l <- LeftUnanchored(db, db.publications[p].run, s, provider, comments, unanchored) :: FindingsOf(db, l) != {}
  {
    var r := db.publications[p].run;
    Continuity.Active(FullyPublished(db, p, s, provider, comments, unanchored).value, db.runs[r].pullRequest)
    + NewestOn(db, LeftUnanchored(db, r, s, provider, comments, unanchored))
  }

  /**
   * However many transactions fall between computing a prediction and publishing, the publication leaves open
   * exactly what was predicted, if those transactions are quiet for the run and its findings were the newest.
   */
  lemma PredictionReachesPublication(states: seq<Tables>, steps: seq<Step>, i: nat, j: nat, p: Id, s: Id, provider: string,
                                     comments: seq<Comment>, unanchored: set<Fingerprint>)
    requires Execution(states, steps) && i <= j < |steps|
    requires steps[j] == Publish(p, s, provider, comments, unanchored)
    requires FullyPublished(states[j], p, s, provider, comments, unanchored).Ok? && p in states[j].publications
    requires var r := states[j].publications[p].run;
             r in states[i].runs && QuietBetween(states, steps, i, j, r) && Unapplied(states[i], r) && Uncontested(states[i], r)
    ensures var r := states[j].publications[p].run;
            && states[j + 1] == FullyPublished(states[j], p, s, provider, comments, unanchored).value
            && r in states[j].runs && ThreadsRecorded(states[j], s, provider, comments).Ok?
            && (forall l <- LeftUnanchored(states[j], r, s, provider, comments, unanchored) :: FindingsOf(states[j], l) != {})
            && Predicted(states[i], r) == LeftOpen(states[j], p, s, provider, comments, unanchored)
  {
    var r := states[j].publications[p].run;
    hide *;
    PredictionStands(states, steps, i, j, r);
    EveryRunKeepsTheInvariant(states, steps, j);
    NothingAppliedIsLost(states, steps, i, j);
    StepAt(states, steps, j);
    PublishLeaves(states[j], p, s, provider, comments, unanchored);
    InvariantIsJournaled(states[j]);
    StillUnapplied(states[i], states[j], r);
    StillUncontested(states[i], states[j], r);
    PublicationCommitsPrediction(states[j], p, s, provider, comments, unanchored);
    LeftOpenIs(states[j], p, s, provider, comments, unanchored);
  }

  lemma PublishLeaves(db: Tables, p: Id, s: Id, provider: string, comments: seq<Comment>, unanchored: set<Fingerprint>)
    requires FullyPublished(db, p, s, provider, comments, unanchored).Ok?
    ensures After(db, Publish(p, s, provider, comments, unanchored)) == FullyPublished(db, p, s, provider, comments, unanchored).value
  {
    hide FullyPublished;
  }

  lemma InvariantIsJournaled(db: Tables)
    requires Invariant(db)
    ensures Journaled(db)
  {
  }

  lemma LeftOpenIs(db: Tables, p: Id, s: Id, provider: string, comments: seq<Comment>, unanchored: set<Fingerprint>)
    requires p in db.publications && db.publications[p].run in db.runs
    requires FullyPublished(db, p, s, provider, comments, unanchored).Ok? && ThreadsRecorded(db, s, provider, comments).Ok?
    requires forall l <- LeftUnanchored(db, db.publications[p].run, s, provider, comments, unanchored) :: FindingsOf(db, l) != {}
    ensures var r := db.publications[p].run;
            LeftOpen(db, p, s, provider, comments, unanchored)
            == Continuity.Active(FullyPublished(db, p, s, provider, comments, unanchored).value, db.runs[r].pullRequest)
               + NewestOn(db, LeftUnanchored(db, r, s, provider, comments, unanchored))
  {
    hide FullyPublished, ThreadsRecorded, LeftUnanchored, NewestOn;
  }

  predicate SameRow(a: Tables, b: Tables, f: Id) { f in a.findings && f in b.findings && a.findings[f] == b.findings[f] }

  lemma {:induction false} AdjustedRows(a: Tables, b: Tables, open: map<Id, Id>, ids: seq<Id>)
    requires forall e <- ids :: e in a.events && FindingsOf(a, a.events[e].lineage) != {} && SameFindings(a, b, a.events[e].lineage)
    requires forall l <- open :: SameRow(a, b, open[l])
    ensures forall l <- AdjustedAll(a, open, ids) :: SameRow(a, b, AdjustedAll(a, open, ids)[l])
  {
    if ids != [] {
      var e := ids[|ids| - 1];
      assert e in ids && forall d <- ids[..|ids| - 1] :: d in ids;
      AdjustedRows(a, b, open, ids[..|ids| - 1]);
      assert Greatest(FindingsOf(a, a.events[e].lineage)) in FindingsOf(a, a.events[e].lineage);
      hide Greatest;
    }
  }

  lemma ActiveRows(a: Tables, b: Tables, pullRequest: Id)
    requires Keeps(a, b)
    ensures forall l <- Continuity.Active(a, pullRequest) :: SameRow(a, b, Continuity.Active(a, pullRequest)[l])
  {
    forall l <- Continuity.Active(a, pullRequest) ensures SameRow(a, b, Continuity.Active(a, pullRequest)[l]) {
      assert Continuity.Active(a, pullRequest)[l] in AppliedFindings(a, l);
    }
    hide Greatest, AppliedFinding;
  }

  /** The predicted findings keep their rows. */
  lemma PredictedRows(a: Tables, b: Tables, r: Id)
    requires SameView(a, b, r) && Keeps(a, b)
    ensures forall l <- Predicted(a, r) :: SameRow(a, b, Predicted(a, r)[l])
  {
    ActiveRows(a, b, a.runs[r].pullRequest);
    RowsInOrder(a, r);
    assert forall e <- OwnRows(a, r) :: e in a.events && a.events[e].run == r && SameFindings(a, b, a.events[e].lineage);
    hide Continuity.Active, EventRows, FindingsOf, SameFindings, SameRow, Keeps, InOrder;
    AdjustedRows(a, b, Continuity.Active(a, a.runs[r].pullRequest), EventRows(a, r));
  }

  lemma PublicationKeepsRows(db: Tables, p: Id, s: Id, provider: string, comments: seq<Comment>, unanchored: set<Fingerprint>)
    requires FullyPublished(db, p, s, provider, comments, unanchored).Ok? && p in db.publications && Invariant(db)
    requires db.publications[p].run in db.runs
    ensures FullyPublished(db, p, s, provider, comments, unanchored).value.findings == db.findings
  {
    var marked := FullyPublishedParts(db, p, s, provider, comments, unanchored);
    ActivationMoves(marked, db.publications[p].run, unanchored);
    hide Invariant, Activated, FullyPublished;
  }

  /** Between the prediction and the tables after the publication, no finding that decides the check changes. */
  lemma CheckIsDecidedAlike(a: Tables, b: Tables, open: map<Id, Id>, publishable: bool, blocking: set<Severity>)
    requires forall l <- open :: open[l] in a.findings && SameRow(a, b, open[l])
    ensures Answers(ReviewConclusion(publishable, blocking, OpenFindings(a, open)), publishable,
                    exists l <- open :: Blocks(b, open[l], blocking))
  {
    hide ReviewConclusion, OpenFindings, Answers;
    ConclusionOf(a, open, publishable, blocking);
    if l :| l in open && Blocks(a, open[l], blocking) { assert SameRow(a, b, open[l]) && Blocks(b, open[l], blocking); }
    if l :| l in open && Blocks(b, open[l], blocking) { assert SameRow(a, b, open[l]) && Blocks(a, open[l], blocking); }
  }

  /**
   * With publication on, the conclusion a worker computes from its prediction is a failure exactly when, after the
   * publication, a blocking finding is open, on an active lineage of the request or on one that was left unanchored,
   * and a success exactly when none is; with publication off it is skipped, whatever is open.
   */
  lemma CheckFollowsPublication(states: seq<Tables>, steps: seq<Step>, i: nat, j: nat, p: Id, s: Id, provider: string,
                                comments: seq<Comment>, unanchored: set<Fingerprint>, publishable: bool, blocking: set<Severity>)
    requires Execution(states, steps) && i <= j < |steps|
    requires steps[j] == Publish(p, s, provider, comments, unanchored)
    requires FullyPublished(states[j], p, s, provider, comments, unanchored).Ok? && p in states[j].publications
    requires var r := states[j].publications[p].run;
             r in states[i].runs && QuietBetween(states, steps, i, j, r) && Unapplied(states[i], r) && Uncontested(states[i], r)
    ensures var r := states[j].publications[p].run;
            && r in states[j].runs && ThreadsRecorded(states[j], s, provider, comments).Ok?
            && (forall l <- LeftUnanchored(states[j], r, s, provider, comments, unanchored) :: FindingsOf(states[j], l) != {})
            && (forall l <- Predicted(states[i], r) :: Predicted(states[i], r)[l] in states[i].findings)
            && (var open := LeftOpen(states[j], p, s, provider, comments, unanchored);
                Answers(ReviewConclusion(publishable, blocking, OpenFindings(states[i], Predicted(states[i], r))), publishable,
                        exists l <- open :: Blocks(states[j + 1], open[l], blocking)))
  {
    var r := states[j].publications[p].run;
    hide *;
    PredictionReachesPublication(states, steps, i, j, p, s, provider, comments, unanchored);
    PredictionStands(states, steps, i, j, r);
    EveryRunKeepsTheInvariant(states, steps, j);
    NothingAppliedIsLost(states, steps, i, j);
    PredictedRows(states[i], states[j], r);
    PublicationKeepsRows(states[j], p, s, provider, comments, unanchored);
    forall l <- Predicted(states[i], r) ensures SameRow(states[i], states[j + 1], Predicted(states[i], r)[l])
                                        ensures Predicted(states[i], r)[l] in states[i].findings {
      SameRowLater(states[i], states[j], states[j + 1], Predicted(states[i], r)[l]);
    }
    CheckIsDecidedAlike(states[i], states[j + 1], Predicted(states[i], r), publishable, blocking);
  }

  lemma SameRowLater(a: Tables, b: Tables, c: Tables, f: Id)
    requires SameRow(a, b, f) && c.findings == b.findings
    ensures SameRow(a, c, f) && f in a.findings
  {
  }
}
