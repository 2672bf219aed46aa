/** What persisting one review report inserts, and exactly when the database refuses it. */
module LineageIntake {
  import opened Wrappers
  import opened Rows
  import opened Lineage
  import opened LineageSteps

  /** One classified transition: `lineage` is absent for a new finding, `finding` for an addressed one. */
  datatype Change = Change(transition: Transition, lineage: Option<Id>, finding: Option<Finding>)

  function LineageFor(db: Tables, pullRequest: Id, fingerprint: Fingerprint): Option<Id> {
    Newest(set l <- db.lineages | db.lineages[l].pullRequest == pullRequest && db.lineages[l].initial == fingerprint)
  }

  function LineageInserted(db: Tables, row: LineageRow): Tables {
    db.(lineages := db.lineages[db.serial := row], serial := db.serial + 1)
  }

  function FindingInserted(db: Tables, row: FindingRow): Tables {
    db.(findings := db.findings[db.serial := row], serial := db.serial + 1)
  }

  function EventInserted(db: Tables, event: Event): Tables {
    db.(events := db.events[db.serial := event], serial := db.serial + 1)
  }

  /** Reuses a pending lineage of the same fingerprint, refuses any other, and otherwise inserts one. */
  function WithLineage(db: Tables, r: Id, fingerprint: Fingerprint): Result<(Tables, Id), Failure>
    requires r in db.runs
  {
    match LineageFor(db, db.runs[r].pullRequest, fingerprint)
    case Some(l) => if db.lineages[l].status == Pending then Ok((db, l)) else Err(FingerprintCollision)
    case None =>
      Ok((LineageInserted(db, LineageRow(db.runs[r].pullRequest, fingerprint, Pending, r, None, None)), db.serial))
  }

  function WithFinding(db: Tables, row: FindingRow): Result<(Tables, Id), Failure> {
    if row.lineage !in db.lineages then Err(ForeignKeyViolation)
    else if exists f <- db.findings :: && db.findings[f].run == row.run
                                       && (db.findings[f].finding.fingerprint == row.finding.fingerprint
                                           || db.findings[f].ordinal == row.ordinal)
    then Err(UniqueViolation)
    else Ok((FindingInserted(db, row), db.serial))
  }

  function WithEvent(db: Tables, event: Event): Result<Tables, Failure> {
    if event.lineage !in db.lineages then Err(ForeignKeyViolation)
    else if (event.transition == Closed) != (event.finding == None) then Err(CheckViolation)
    else if exists e <- db.events :: db.events[e].lineage == event.lineage && db.events[e].run == event.run
    then Err(UniqueViolation)
    else Ok(EventInserted(db, event))
  }

  function WithReported(db: Tables, row: FindingRow, transition: Transition): Result<Tables, Failure> {
    match WithFinding(db, row)
    case Err(failure) => Err(failure)
    case Ok((found, f)) => WithEvent(found, Event(row.lineage, row.run, Some(f), transition))
  }

  function WithChange(db: Tables, r: Id, ordinal: nat, change: Change): Result<Tables, Failure>
    requires r in db.runs
  {
    match change.finding
    case None =>
      if change.lineage.None? then Err(NotNullViolation)
      else WithEvent(db, Event(change.lineage.value, r, None, change.transition))
    case Some(finding) =>
      var target: Result<(Tables, Id), Failure> :=
        if change.lineage.Some? then Ok((db, change.lineage.value)) else WithLineage(db, r, finding.fingerprint);
      match target
      case Err(failure) => Err(failure)
      case Ok((known, l)) =>
        WithReported(known, FindingRow(r, l, ordinal, finding), change.transition)
  }

  /** The position of the last finding with this fingerprint. */
  function Ordinal(findings: seq<Finding>, fingerprint: Fingerprint): nat {
    if findings == [] || findings[|findings| - 1].fingerprint == fingerprint then
      if findings == [] then 0 else |findings| - 1
    else Ordinal(findings[..|findings| - 1], fingerprint)
  }

  function OrdinalOf(findings: seq<Finding>, change: Change): nat {
    if change.finding.None? then 0 else Ordinal(findings, change.finding.value.fingerprint)
  }

  function WithChanges(db: Tables, r: Id, findings: seq<Finding>, changes: seq<Change>): (later: Result<Tables, Failure>)
    requires r in db.runs
    ensures later.Ok? ==> later.value.runs == db.runs
  {
    if changes == [] then Ok(db) else
      match WithChanges(db, r, findings, changes[..|changes| - 1])
      case Err(failure) => Err(failure)
      case Ok(before) =>
        WithChange(before, r, OrdinalOf(findings, changes[|changes| - 1]), changes[|changes| - 1])
  }

  /** What the classifier promises about its transitions, given the open and addressed lineages of the request. */
  ghost predicate Classified(db: Tables, pullRequest: Id, findings: seq<Finding>, changes: seq<Change>) {
    && |findings| <= |changes|
    && (forall i | 0 <= i < |findings| :: changes[i].finding == Some(findings[i]) && changes[i].transition != Closed)
    && (forall i | |findings| <= i < |changes| :: changes[i].finding == None && changes[i].transition == Closed)
    && (forall i | 0 <= i < |changes| :: ChangeFits(db, pullRequest, changes[i]))
    && (forall i, j | 0 <= i < j < |changes| :: changes[i].lineage == None || changes[i].lineage != changes[j].lineage)
  }

  predicate ChangeFits(db: Tables, pullRequest: Id, change: Change) {
    match change.lineage
    case None => change.transition == New
    case Some(l) =>
      && change.transition != New && l in db.lineages && db.lineages[l].pullRequest == pullRequest
      && db.lineages[l].status == Expected(change.transition)
  }

  function Persisted(db: Tables, r: Id, enabled: bool, findings: seq<Finding>, changes: seq<Change>)
    : Result<Tables, Failure>
  {
    if r !in db.runs || db.runs[r].status != Generating then Err(NotGeneratable)
    else WithChanges(Reported(db, r, enabled), r, findings, changes)
  }

  /** The tables at the moment a report's findings are classified. */
  function Reported(db: Tables, r: Id, enabled: bool): Tables
    requires r in db.runs
  {
    var run := db.runs[r].(status := if enabled then Ready else RunStatus.Skipped, publishable := enabled);
    Cleared(db.(runs := db.runs[r := run]), r)
  }

  lemma ReportedKeeps(db: Tables, r: Id, enabled: bool)
    requires Invariant(db) && r in db.runs && db.runs[r].status != Published
    ensures Invariant(Reported(db, r, enabled)) && Keeps(db, Reported(db, r, enabled))
  {
    var run := db.runs[r].(status := if enabled then Ready else RunStatus.Skipped, publishable := enabled);
    var later := db.(runs := db.runs[r := run]);
    hide Invariant, Keeps, Cleared;
    RunChangeKeeps(db, r, run);
    ClearedIsFolded(later, r);
    ClearedKeeps(later, r);
    KeepingIsTransitiveFor(db, later, Cleared(later, r));
  }

  // ---------------------------------------------------------------- insertions keep the invariant

  /** No row of `db` is changed or missing, and new lineages are pending. */
  predicate Extends(db: Tables, later: Tables) {
    && later.runs == db.runs && later.applied == db.applied && later.publications == db.publications
    && db.serial <= later.serial
    && (forall l <- db.lineages :: l in later.lineages && later.lineages[l] == db.lineages[l])
    && (forall f <- db.findings :: f in later.findings && later.findings[f] == db.findings[f])
    && (forall e <- db.events :: e in later.events && later.events[e] == db.events[e])
    && (forall l <- later.lineages | l !in db.lineages :: later.lineages[l].status == Pending && later.lineages[l].addressedBy == None)
  }

  lemma ExtensionIsTransitive(a: Tables, b: Tables, c: Tables)
    requires Extends(a, b) && Extends(b, c)
    ensures Extends(a, c)
  {
  }

  lemma ExtensionKeeps(db: Tables, later: Tables)
    requires Extends(db, later)
    ensures Keeps(db, later)
  {
  }

  lemma ExtensionWires(db: Tables, later: Tables, event: Event)
    requires Extends(db, later) && EventIsWired(db, event)
    ensures EventIsWired(later, event)
  {
  }

  lemma ExtensionIsFolded(db: Tables, later: Tables)
    requires Wired(db) && Journaled(db) && Folded(db) && Extends(db, later)
    ensures Journaled(later) && Folded(later)
  {
    assert forall e <- db.applied :: e in later.events && later.events[e] == db.events[e];
    assert forall e <- db.applied :: EventIsWired(db, db.events[e]);
    hide Wired;
    forall l <- later.lineages
      ensures History(later.events, later.applied, l) == History(db.events, db.applied, l)
      ensures l !in db.lineages ==> History(later.events, later.applied, l) == []
    {
      HistoryReadsAppliedEvents(db.events, later.events, db.applied, l);
      NothingApplied(db.events, db.applied, l);
    }
  }

  lemma ExtensionIsSettled(db: Tables, later: Tables)
    requires Wired(db) && Journaled(db) && Settled(db) && Extends(db, later) && Wired(later) && Journaled(later)
    ensures Settled(later)
  {
    assert forall e <- db.applied :: e in later.events && later.events[e] == db.events[e];
  }

  /** Insertions keep the invariant when the new rows are wired and keyed. */
  lemma InsertionKeeps(db: Tables, later: Tables)
    requires Invariant(db) && Extends(db, later)
    requires forall e <- later.events | e !in db.events :: EventIsWired(later, later.events[e])
    requires forall f <- later.findings | f !in db.findings ::
               later.findings[f].lineage in later.lineages && later.findings[f].run in later.runs
    requires Keyed(later) && Issued(later)
    ensures Invariant(later)
  {
    assert Wired(later) by {
      hide Folded, Journaled, Keyed, Issued;
      forall e <- later.events ensures EventIsWired(later, later.events[e]) {
        if e in db.events {
          ExtensionWires(db, later, db.events[e]);
        }
      }
      hide EventIsWired;
    }
    ExtensionIsFolded(db, later);
    ExtensionIsSettled(db, later);
  }

  lemma NewLineageKeeps(db: Tables, row: LineageRow)
    requires Invariant(db) && row.status == Pending && row.addressedBy == None
    requires forall l <- db.lineages :: (db.lineages[l].pullRequest, db.lineages[l].initial) != (row.pullRequest, row.initial)
    ensures Invariant(LineageInserted(db, row)) && Extends(db, LineageInserted(db, row))
  {
    var later := LineageInserted(db, row);
    assert Extends(db, later) && Keyed(later) && Issued(later) by { hide Wired, Folded, Journaled, Settled; }
    hide Wired, Folded, Journaled, Settled, Keyed, Issued, EventIsWired;
    InsertionKeeps(db, later);
  }

  lemma Unchanged(db: Tables)
    ensures Extends(db, db)
  {
  }

  lemma LineageInsertKeeps(db: Tables, r: Id, fingerprint: Fingerprint)
    requires Invariant(db) && r in db.runs && WithLineage(db, r, fingerprint).Ok?
    ensures var (later, l) := WithLineage(db, r, fingerprint).value;
            && Invariant(later) && Extends(db, later) && l in later.lineages && later.runs == db.runs
            && later.lineages[l].pullRequest == db.runs[r].pullRequest && later.lineages[l].initial == fingerprint
            && later.lineages[l].status == Pending
  {
    var pr := db.runs[r].pullRequest;
    var same := set l <- db.lineages | db.lineages[l].pullRequest == pr && db.lineages[l].initial == fingerprint;
    assert LineageFor(db, pr, fingerprint) == Newest(same);
    hide Invariant, Extends, LineageFor;
    Unchanged(db);
    if same == {} {
      forall l <- db.lineages
        ensures (db.lineages[l].pullRequest, db.lineages[l].initial) != (pr, fingerprint)
      {
        assert l !in same;
      }
      NewLineageKeeps(db, LineageRow(pr, fingerprint, Pending, r, None, None));
    }
  }

  lemma FindingInsertKeeps(db: Tables, row: FindingRow)
    requires Invariant(db) && row.run in db.runs && row.lineage in db.lineages
    ensures Invariant(FindingInserted(db, row)) && Extends(db, FindingInserted(db, row))
  {
    var later := FindingInserted(db, row);
    assert Extends(db, later) && Keyed(later) && Issued(later) by { hide Wired, Folded, Journaled, Settled; }
    hide Wired, Folded, Journaled, Settled, Keyed, Issued, EventIsWired;
    InsertionKeeps(db, later);
  }

  lemma EventInsertIsKeyed(db: Tables, event: Event)
    requires Keyed(db) && Issued(db)
    requires forall e <- db.events :: db.events[e].lineage != event.lineage || db.events[e].run != event.run
    ensures Keyed(EventInserted(db, event)) && Issued(EventInserted(db, event))
    ensures Extends(db, EventInserted(db, event))
  {
  }

  lemma EventInsertKeeps(db: Tables, event: Event)
    requires Invariant(db) && EventIsWired(db, event) && WithEvent(db, event).Ok?
    ensures Invariant(WithEvent(db, event).value) && Extends(db, WithEvent(db, event).value)
  {
    EventInsertIsKeyed(db, event);
    ExtensionWires(db, EventInserted(db, event), event);
    hide Wired, Folded, Journaled, Settled, Keyed, Issued, EventIsWired, Extends;
    InsertionKeeps(db, EventInserted(db, event));
  }

  /** The lineage named by a change belongs to the pull request of the run. */
  predicate InRequest(db: Tables, r: Id, change: Change)
    requires r in db.runs
  {
    change.lineage.Some? ==>
      change.lineage.value in db.lineages
      && db.lineages[change.lineage.value].pullRequest == db.runs[r].pullRequest
  }

  lemma ReportedFindingKeeps(db: Tables, row: FindingRow, transition: Transition)
    requires Invariant(db) && row.run in db.runs && row.lineage in db.lineages && transition != Closed
    requires db.lineages[row.lineage].pullRequest == db.runs[row.run].pullRequest
    ensures var later := WithEvent(FindingInserted(db, row), Event(row.lineage, row.run, Some(db.serial), transition));
            later.Ok? ==> Invariant(later.value) && Extends(db, later.value)
  {
    var found, event := FindingInserted(db, row), Event(row.lineage, row.run, Some(db.serial), transition);
    hide Invariant, Extends, WithEvent;
    FindingInsertKeeps(db, row);
    assert EventIsWired(found, event);
    if WithEvent(found, event).Ok? {
      EventInsertKeeps(found, event);
      ExtensionIsTransitive(db, found, WithEvent(found, event).value);
    }
  }

  lemma ChangeKeeps(db: Tables, r: Id, ordinal: nat, change: Change)
    requires Invariant(db) && r in db.runs && InRequest(db, r, change) && WithChange(db, r, ordinal, change).Ok?
    ensures var later := WithChange(db, r, ordinal, change).value; Invariant(later) && Extends(db, later)
  {
    hide Invariant, Extends, WithLineage;
    match change.finding
    case None =>
      EventOnly(db, Event(change.lineage.value, r, None, change.transition));
    case Some(finding) =>
      if change.lineage.Some? {
        ReportedFindingKeeps(db, FindingRow(r, change.lineage.value, ordinal, finding), change.transition);
      } else {
        LineageInsertKeeps(db, r, finding.fingerprint);
        var (known, l) := WithLineage(db, r, finding.fingerprint).value;
        ReportedFindingKeeps(known, FindingRow(r, l, ordinal, finding), change.transition);
        ExtensionIsTransitive(db, known, WithChange(db, r, ordinal, change).value);
      }
  }

  lemma EventOnly(db: Tables, event: Event)
    requires Invariant(db) && event.finding == None && event.run in db.runs && event.lineage in db.lineages
    requires db.lineages[event.lineage].pullRequest == db.runs[event.run].pullRequest && WithEvent(db, event).Ok?
    ensures Invariant(WithEvent(db, event).value) && Extends(db, WithEvent(db, event).value)
  {
    EventInsertKeeps(db, event);
  }

  lemma {:induction false} ChangesKeep(db: Tables, r: Id, findings: seq<Finding>, changes: seq<Change>)
    requires Invariant(db) && r in db.runs && WithChanges(db, r, findings, changes).Ok?
    requires forall change <- changes :: InRequest(db, r, change)
    ensures var later := WithChanges(db, r, findings, changes).value; Invariant(later) && Extends(db, later)
  {
    if changes == [] {
      Unchanged(db);
    } else {
      var init, last := changes[..|changes| - 1], changes[|changes| - 1];
      ChangesKeep(db, r, findings, init);
      var before := WithChanges(db, r, findings, init).value;
      assert InRequest(db, r, last);
      assert InRequest(before, r, last) by { hide Invariant; }
      hide Invariant, Extends, WithChange;
      ChangeKeeps(before, r, OrdinalOf(findings, last), last);
      ExtensionIsTransitive(db, before, WithChanges(db, r, findings, changes).value);
    }
  }

  lemma PersistedKeeps(db: Tables, r: Id, enabled: bool, findings: seq<Finding>, changes: seq<Change>)
    requires Invariant(db) && Persisted(db, r, enabled, findings, changes).Ok?
    requires Classified(Reported(db, r, enabled), db.runs[r].pullRequest, findings, changes)
    ensures var later := Persisted(db, r, enabled, findings, changes).value; Invariant(later) && Keeps(db, later)
  {
    var base := Reported(db, r, enabled);
    ReportedKeeps(db, r, enabled);
    assert base.runs[r].pullRequest == db.runs[r].pullRequest;
    forall change <- changes ensures InRequest(base, r, change) { assert ChangeFits(base, db.runs[r].pullRequest, change); }
    hide Invariant, Extends, Reported, Keeps, Classified, WithChanges;
    ChangesKeep(base, r, findings, changes);
    ExtensionKeeps(base, Persisted(db, r, enabled, findings, changes).value);
    KeepingIsTransitiveFor(db, base, Persisted(db, r, enabled, findings, changes).value);
  }

  // ---------------------------------------------------------------- exactly when a report is refused

  /** A published lineage of the pull request already carries this initial fingerprint. */
  predicate Collides(db: Tables, pullRequest: Id, fingerprint: Fingerprint) {
    exists l <- db.lineages :: && db.lineages[l].pullRequest == pullRequest && db.lineages[l].initial == fingerprint
                               && db.lineages[l].status != Pending
  }

  predicate Repeats(changes: seq<Change>, finding: Finding) {
    exists i :: 0 <= i < |changes| && changes[i].finding.Some? && changes[i].finding.value.fingerprint == finding.fingerprint
  }

  /** A change is refused for repeating a fingerprint of its report or colliding with a published lineage. */
  predicate Refused(db: Tables, pullRequest: Id, before: seq<Change>, change: Change) {
    change.finding.Some?
    && (Repeats(before, change.finding.value)
        || (change.lineage.None? && Collides(db, pullRequest, change.finding.value.fingerprint)))
  }

  predicate Fitting(db: Tables, pullRequest: Id, findings: seq<Finding>, changes: seq<Change>) {
    && (forall i | 0 <= i < |changes| :: ChangeFits(db, pullRequest, changes[i]))
    && (forall i | 0 <= i < |changes| :: changes[i].finding == None <==> changes[i].transition == Closed)
    && (forall i | 0 <= i < |changes| :: changes[i].finding.Some? ==> changes[i].finding.value in findings)
    && (forall i, j | 0 <= i < j < |changes| :: changes[i].lineage == None || changes[i].lineage != changes[j].lineage)
  }

  /** The event of a change: on the lineage it names, or on the pending lineage of its fingerprint. */
  predicate EventOf(db: Tables, r: Id, change: Change, l: Id) {
    match change.lineage
    case Some(k) => l == k
    case None => && change.finding.Some? && l in db.lineages && db.lineages[l].status == Pending
                 && db.lineages[l].initial == change.finding.value.fingerprint
  }

  predicate RowFor(row: FindingRow, r: Id, finding: Finding) { row.run == r && row.finding == finding }

  /** The run's finding rows are those of its changes, each at the position the report gives it. */
  predicate RowsDescribed(later: Tables, r: Id, findings: seq<Finding>, changes: seq<Change>) {
    forall f <- later.findings | later.findings[f].run == r ::
      && Repeats(changes, later.findings[f].finding) && later.findings[f].finding in findings
      && later.findings[f].ordinal == Ordinal(findings, later.findings[f].finding.fingerprint)
  }

  predicate FindingsStored(later: Tables, r: Id, changes: seq<Change>) {
    forall i | 0 <= i < |changes| && changes[i].finding.Some? ::
      exists f <- later.findings :: RowFor(later.findings[f], r, changes[i].finding.value)
  }

  predicate FindingsHeld(later: Tables, r: Id, findings: seq<Finding>, changes: seq<Change>) {
    RowsDescribed(later, r, findings, changes) && FindingsStored(later, r, changes)
  }

  /** The run's events are those of its changes. */
  predicate EventsHeld(later: Tables, r: Id, changes: seq<Change>) {
    forall e <- later.events | later.events[e].run == r ::
      exists i :: 0 <= i < |changes| && EventOf(later, r, changes[i], later.events[e].lineage)
  }

  lemma {:induction false} OrdinalFinds(findings: seq<Finding>, finding: Finding)
    requires finding in findings
    ensures var n := Ordinal(findings, finding.fingerprint); n < |findings| && findings[n].fingerprint == finding.fingerprint
  {
    var last := |findings| - 1;
    if findings[last].fingerprint != finding.fingerprint {
      assert findings == findings[..last] + [findings[last]];
      OrdinalFinds(findings[..last], finding);
    }
  }

  predicate Clashes(later: Tables, row: FindingRow) {
    exists f <- later.findings :: && later.findings[f].run == row.run
                                  && (later.findings[f].finding.fingerprint == row.finding.fingerprint
                                      || later.findings[f].ordinal == row.ordinal)
  }

  lemma RepeatClashes(later: Tables, r: Id, findings: seq<Finding>, changes: seq<Change>, row: FindingRow)
    requires FindingsHeld(later, r, findings, changes) && row.run == r && Repeats(changes, row.finding)
    ensures Clashes(later, row)
  {
    hide Ordinal;
    var i :| 0 <= i < |changes| && changes[i].finding.Some? && changes[i].finding.value.fingerprint == row.finding.fingerprint;
    var f :| f in later.findings && RowFor(later.findings[f], r, changes[i].finding.value);
  }

  lemma ClashRepeats(later: Tables, r: Id, findings: seq<Finding>, changes: seq<Change>, row: FindingRow)
    requires FindingsHeld(later, r, findings, changes) && row.run == r && Clashes(later, row)
    requires row.finding in findings && row.ordinal == Ordinal(findings, row.finding.fingerprint)
    ensures Repeats(changes, row.finding)
  {
    var f :| f in later.findings && later.findings[f].run == r
             && (later.findings[f].finding.fingerprint == row.finding.fingerprint || later.findings[f].ordinal == row.ordinal);
    var other := later.findings[f].finding;
    assert Repeats(changes, other);
    OrdinalFinds(findings, row.finding);
    OrdinalFinds(findings, other);
    assert later.findings[f].ordinal == Ordinal(findings, other.fingerprint);
    hide Ordinal, FindingsHeld;
    assert other.fingerprint == row.finding.fingerprint;
  }

  /** Within one report, the unique keys on findings reject exactly a repeated fingerprint. */
  lemma FindingFits(later: Tables, r: Id, findings: seq<Finding>, changes: seq<Change>, l: Id, finding: Finding)
    requires FindingsHeld(later, r, findings, changes) && l in later.lineages && finding in findings
    ensures WithFinding(later, FindingRow(r, l, Ordinal(findings, finding.fingerprint), finding)).Ok?
            <==> !Repeats(changes, finding)
  {
    var row := FindingRow(r, l, Ordinal(findings, finding.fingerprint), finding);
    assert WithFinding(later, row).Ok? <==> !Clashes(later, row);
    hide FindingsHeld, Ordinal, WithFinding;
    if Repeats(changes, finding) { RepeatClashes(later, r, findings, changes, row); }
    if Clashes(later, row) { ClashRepeats(later, r, findings, changes, row); }
  }

  /** The pull request's published lineages are those it had before the report. */
  lemma LineageFits(db: Tables, later: Tables, r: Id, fingerprint: Fingerprint)
    requires Invariant(later) && Extends(db, later) && r in db.runs
    ensures WithLineage(later, r, fingerprint).Ok? <==> !Collides(db, db.runs[r].pullRequest, fingerprint)
  {
    var pr := db.runs[r].pullRequest;
    var same := set l <- later.lineages | later.lineages[l].pullRequest == pr && later.lineages[l].initial == fingerprint;
    assert LineageFor(later, pr, fingerprint) == Newest(same);
    hide Wired, Journaled, Folded, Settled, Issued, LineageFor;
    if Collides(db, pr, fingerprint) {
      var l :| l in db.lineages && db.lineages[l].pullRequest == pr && db.lineages[l].initial == fingerprint
               && db.lineages[l].status != Pending;
      assert l in same;
      assert forall k <- same :: k == l;
    } else if same != {} {
      var l := Greatest(same);
      assert l in same;
      assert l in db.lineages ==> db.lineages[l].status == Pending;
    }
  }

  // Inserting the next change keeps the rows of the run described.

  lemma RowsGrow(db: Tables, later: Tables, r: Id, findings: seq<Finding>, changes: seq<Change>, row: FindingRow, next: Change)
    requires RowsDescribed(db, r, findings, changes) && later.findings == db.findings[db.serial := row]
    requires next.finding == Some(row.finding) && row.run == r && row.finding in findings
    requires row.ordinal == Ordinal(findings, row.finding.fingerprint)
    ensures RowsDescribed(later, r, findings, changes + [next])
  {
    hide Ordinal;
    var after := changes + [next];
    forall f <- later.findings | later.findings[f].run == r ensures Repeats(after, later.findings[f].finding) {
      if f == db.serial {
        assert after[|changes|].finding == Some(row.finding);
      } else {
        RepeatsMore(changes, next, db.findings[f].finding);
      }
    }
    hide Repeats;
  }

  lemma StoredGrows(db: Tables, later: Tables, r: Id, changes: seq<Change>, row: FindingRow, next: Change)
    requires FindingsStored(db, r, changes) && db.serial !in db.findings && later.findings == db.findings[db.serial := row]
    requires next.finding == Some(row.finding) && row.run == r
    ensures FindingsStored(later, r, changes + [next])
  {
    var after := changes + [next];
    forall i | 0 <= i < |after| && after[i].finding.Some?
      ensures exists f <- later.findings :: RowFor(later.findings[f], r, after[i].finding.value)
    {
      if i < |changes| {
        var f :| f in db.findings && RowFor(db.findings[f], r, changes[i].finding.value);
        assert f in later.findings && later.findings[f] == db.findings[f];
      } else {
        assert RowFor(later.findings[db.serial], r, after[i].finding.value);
      }
    }
  }

  lemma RepeatsMore(changes: seq<Change>, next: Change, finding: Finding)
    requires Repeats(changes, finding)
    ensures Repeats(changes + [next], finding)
  {
    var i :| 0 <= i < |changes| && changes[i].finding.Some? && changes[i].finding.value.fingerprint == finding.fingerprint;
    assert (changes + [next])[i] == changes[i];
  }

  lemma RowsStay(db: Tables, later: Tables, r: Id, findings: seq<Finding>, changes: seq<Change>, next: Change)
    requires FindingsHeld(db, r, findings, changes) && later.findings == db.findings && next.finding == None
    ensures FindingsHeld(later, r, findings, changes + [next])
  {
    var after := changes + [next];
    forall f <- later.findings | later.findings[f].run == r ensures Repeats(after, later.findings[f].finding) {
      RepeatsMore(changes, next, db.findings[f].finding);
    }
    hide Ordinal, Repeats;
    forall i | 0 <= i < |after| && after[i].finding.Some?
      ensures exists f <- later.findings :: RowFor(later.findings[f], r, after[i].finding.value)
    {
      assert after[i] == changes[i];
    }
  }

  lemma EventsGrow(db: Tables, later: Tables, r: Id, changes: seq<Change>, next: Change, event: Event)
    requires EventsHeld(db, r, changes) && Extends(db, later) && later.events.Keys == db.events.Keys + {later.serial - 1}
    requires later.serial > 0 && later.events[later.serial - 1] == event && EventOf(later, r, next, event.lineage)
    requires forall e <- db.events :: db.events[e].lineage in db.lineages
    ensures EventsHeld(later, r, changes + [next])
  {
    var after := changes + [next];
    forall e <- later.events | later.events[e].run == r
      ensures exists i :: 0 <= i < |after| && EventOf(later, r, after[i], later.events[e].lineage)
    {
      if e == later.serial - 1 {
        assert EventOf(later, r, after[|changes|], event.lineage);
      } else {
        var i :| 0 <= i < |changes| && EventOf(db, r, changes[i], db.events[e].lineage);
        assert EventOf(later, r, after[i], later.events[e].lineage);
      }
    }
  }

  /** The next change has a lineage of its own in the run, so its event is never a duplicate. */
  lemma EventFits(db: Tables, later: Tables, r: Id, findings: seq<Finding>, changes: seq<Change>, next: Change, l: Id)
    requires r in db.runs && Extends(db, later) && EventsHeld(later, r, changes)
    requires Fitting(db, db.runs[r].pullRequest, findings, changes + [next]) && EventOf(later, r, next, l) && l in later.lineages
    requires next.finding.Some? ==> !Repeats(changes, next.finding.value)
    ensures forall e <- later.events :: later.events[e].lineage != l || later.events[e].run != r
  {
    var after := changes + [next];
    assert ChangeFits(db, db.runs[r].pullRequest, after[|changes|]);
    forall e <- later.events | later.events[e].run == r ensures later.events[e].lineage != l {
      var i :| 0 <= i < |changes| && EventOf(later, r, changes[i], later.events[e].lineage);
      assert after[i] == changes[i] && ChangeFits(db, db.runs[r].pullRequest, after[i]);
      if changes[i].lineage.None? && next.lineage.None? {
        assert changes[i].finding.value.fingerprint != next.finding.value.fingerprint;
      }
    }
  }

  ghost predicate Holds(db: Tables, later: Tables, r: Id, findings: seq<Finding>, changes: seq<Change>) {
    && Invariant(later) && Extends(db, later) && r in db.runs
    && FindingsHeld(later, r, findings, changes) && EventsHeld(later, r, changes)
  }

  lemma EventsHeldWithLineage(later: Tables, known: Tables, r: Id, changes: seq<Change>)
    requires EventsHeld(later, r, changes) && Extends(later, known) && Wired(later) && known.events == later.events
    ensures EventsHeld(known, r, changes)
  {
    forall e <- known.events | known.events[e].run == r
      ensures exists i :: 0 <= i < |changes| && EventOf(known, r, changes[i], known.events[e].lineage)
    {
      assert EventIsWired(later, later.events[e]);
      var i :| 0 <= i < |changes| && EventOf(later, r, changes[i], later.events[e].lineage);
      assert EventOf(known, r, changes[i], known.events[e].lineage);
    }
  }

  lemma HoldsWithLineage(db: Tables, later: Tables, known: Tables, r: Id, findings: seq<Finding>, changes: seq<Change>)
    requires Holds(db, later, r, findings, changes) && Extends(later, known) && Invariant(known)
    requires known.findings == later.findings && known.events == later.events
    ensures Holds(db, known, r, findings, changes)
  {
    ExtensionIsTransitive(db, later, known);
    EventsHeldWithLineage(later, known, r, changes);
    hide Repeats, Ordinal, Wired, Folded, Journaled, Settled, Keyed, Issued, EventsHeld, Extends;
  }

  lemma ClosureAccepted(db: Tables, later: Tables, r: Id, findings: seq<Finding>, changes: seq<Change>, next: Change)
    requires Holds(db, later, r, findings, changes) && next.finding.None?
    requires Fitting(db, db.runs[r].pullRequest, findings, changes + [next])
    ensures var inserted := WithChange(later, r, OrdinalOf(findings, next), next);
            inserted.Ok? && Holds(db, inserted.value, r, findings, changes + [next])
  {
    assert (changes + [next])[|changes|] == next && ChangeFits(db, db.runs[r].pullRequest, next);
    assert next.transition == Closed && next.lineage.Some?;
    var l := next.lineage.value;
    var event := Event(l, r, None, Closed);
    EventFits(db, later, r, findings, changes, next, l);
    assert WithEvent(later, event) == Ok(EventInserted(later, event));
    hide FindingsHeld, EventsHeld, Fitting, Wired, Keyed, Journaled, Folded, Settled;
    EventOnly(later, event);
    ExtensionIsTransitive(db, later, EventInserted(later, event));
    assert later.serial !in later.events;
    StepHeld(later, EventInserted(later, event), r, findings, changes, next, event);
  }

  lemma StepHeld(later: Tables, after: Tables, r: Id, findings: seq<Finding>, changes: seq<Change>, next: Change, event: Event)
    requires FindingsHeld(later, r, findings, changes) && EventsHeld(later, r, changes) && Wired(later)
    requires next.finding.None? && next.lineage == Some(event.lineage) && after == EventInserted(later, event)
    requires Extends(later, after)
    ensures FindingsHeld(after, r, findings, changes + [next]) && EventsHeld(after, r, changes + [next])
  {
    RowsStay(later, after, r, findings, changes, next);
    assert forall e <- later.events :: EventIsWired(later, later.events[e]);
    EventsGrow(later, after, r, changes, next, event);
  }

  /** The rows a finding of the report leads to, once its lineage is known. */
  function RowOf(later: Tables, r: Id, findings: seq<Finding>, l: Id, finding: Finding): FindingRow {
    FindingRow(r, l, Ordinal(findings, finding.fingerprint), finding)
  }

  function EventFor(later: Tables, r: Id, l: Id, transition: Transition): Event {
    Event(l, r, Some(later.serial), transition)
  }

  lemma InsertedParts(db: Tables, row: FindingRow, event: Event)
    ensures var after := EventInserted(FindingInserted(db, row), event);
            && after.findings == db.findings[db.serial := row] && after.serial == db.serial + 2
            && after.events == db.events[db.serial + 1 := event]
  {
  }

  lemma ExtensionEvent(db: Tables, later: Tables, r: Id, change: Change, l: Id)
    requires Extends(db, later) && EventOf(db, r, change, l)
    ensures EventOf(later, r, change, l)
  {
  }

  lemma EventsHaveLineages(db: Tables)
    requires Wired(db)
    ensures forall e <- db.events :: db.events[e].lineage in db.lineages
  {
    assert forall e <- db.events :: EventIsWired(db, db.events[e]);
  }

  lemma FindingHeld(later: Tables, r: Id, findings: seq<Finding>, changes: seq<Change>, next: Change, l: Id)
    requires FindingsHeld(later, r, findings, changes) && EventsHeld(later, r, changes) && Wired(later) && Issued(later)
    requires next.finding.Some? && next.finding.value in findings && EventOf(later, r, next, l)
    ensures var found := FindingInserted(later, RowOf(later, r, findings, l, next.finding.value));
            var after := EventInserted(found, EventFor(later, r, l, next.transition));
            Extends(later, after) ==>
            FindingsHeld(after, r, findings, changes + [next]) && EventsHeld(after, r, changes + [next])
  {
    var row := RowOf(later, r, findings, l, next.finding.value);
    var event := EventFor(later, r, l, next.transition);
    var after := EventInserted(FindingInserted(later, row), event);
    EventsHaveLineages(later);
    InsertedParts(later, row, event);
    assert later.serial !in later.findings;
    hide Wired, Issued, Ordinal, Extends, FindingInserted, EventInserted, EventsHeld, RowsDescribed, FindingsStored, EventOf;
    if Extends(later, after) {
      RowsGrow(later, after, r, findings, changes, row, next);
      StoredGrows(later, after, r, changes, row, next);
      ExtensionEvent(later, after, r, next, l);
      EventsGrow(later, after, r, changes, next, event);
    }
  }

  lemma FindingFitsAlone(db: Tables, later: Tables, r: Id, findings: seq<Finding>, changes: seq<Change>, next: Change, l: Id)
    requires Holds(db, later, r, findings, changes) && next.finding.Some?
    requires Fitting(db, db.runs[r].pullRequest, findings, changes + [next])
    requires EventOf(later, r, next, l) && l in later.lineages
    ensures var finding := next.finding.value;
            var row := RowOf(later, r, findings, l, finding);
            var event := EventFor(later, r, l, next.transition);
            && finding in findings && next.transition != Closed
            && (WithFinding(later, row).Ok? <==> !Repeats(changes, finding))
            && (WithFinding(later, row).Ok? ==>
                WithReported(later, row, next.transition) == Ok(EventInserted(FindingInserted(later, row), event)))
  {
    hide Invariant, Ordinal, Extends, FindingsHeld, EventsHeld, Fitting;
    NextFits(db, db.runs[r].pullRequest, findings, changes, next);
    var finding := next.finding.value;
    FindingFits(later, r, findings, changes, l, finding);
    if !Repeats(changes, finding) { EventFits(db, later, r, findings, changes, next, l); }
  }

  lemma NextFits(db: Tables, pullRequest: Id, findings: seq<Finding>, changes: seq<Change>, next: Change)
    requires Fitting(db, pullRequest, findings, changes + [next])
    ensures next.finding.Some? ==> next.finding.value in findings && next.transition != Closed
  {
    assert (changes + [next])[|changes|] == next;
  }

  lemma FindingAccepted(db: Tables, later: Tables, r: Id, findings: seq<Finding>, changes: seq<Change>, next: Change, l: Id)
    requires Holds(db, later, r, findings, changes) && next.finding.Some?
    requires Fitting(db, db.runs[r].pullRequest, findings, changes + [next])
    requires EventOf(later, r, next, l) && l in later.lineages
    requires later.lineages[l].pullRequest == db.runs[r].pullRequest
    ensures var finding := next.finding.value;
            var after := WithReported(later, RowOf(later, r, findings, l, finding), next.transition);
            && (after.Ok? <==> !Repeats(changes, finding))
            && (after.Ok? ==> Holds(db, after.value, r, findings, changes + [next]))
  {
    FindingFitsAlone(db, later, r, findings, changes, next, l);
    ExtensionRuns(db, later);
    var row := RowOf(later, r, findings, l, next.finding.value);
    hide FindingsHeld, EventsHeld, Fitting, Wired, Keyed, Issued, Journaled, Folded, Settled, Extends, Repeats, WithFinding, EventOf;
    hide FindingInserted, EventInserted, WithEvent;
    if !Repeats(changes, next.finding.value) {
      AcceptedKeeps(db, later, r, findings, changes, next, l);
    } else {
      RefusedFinding(later, row, next.transition);
    }
  }

  lemma RefusedFinding(later: Tables, row: FindingRow, transition: Transition)
    ensures WithFinding(later, row).Err? ==> WithReported(later, row, transition).Err?
  {
    hide WithFinding;
  }

  lemma AcceptedKeeps(db: Tables, later: Tables, r: Id, findings: seq<Finding>, changes: seq<Change>, next: Change, l: Id)
    requires Holds(db, later, r, findings, changes) && next.finding.Some? && next.finding.value in findings
    requires r in later.runs && later.runs == db.runs && next.transition != Closed
    requires EventOf(later, r, next, l) && l in later.lineages
    requires later.lineages[l].pullRequest == db.runs[r].pullRequest
    requires var row := RowOf(later, r, findings, l, next.finding.value);
             WithReported(later, row, next.transition)
             == Ok(EventInserted(FindingInserted(later, row), EventFor(later, r, l, next.transition)))
    ensures var row := RowOf(later, r, findings, l, next.finding.value);
            Holds(db, WithReported(later, row, next.transition).value, r, findings, changes + [next])
  {
    var row, event := RowOf(later, r, findings, l, next.finding.value), EventFor(later, r, l, next.transition);
    var after := EventInserted(FindingInserted(later, row), event);
    ReportedGives(later, row, next.transition, event);
    hide FindingsHeld, EventsHeld, Wired, Keyed, Journaled, Folded, Settled, Extends, Repeats, WithReported, EventOf;
    ReportedFindingKeeps(later, row, next.transition);
    FindingHeld(later, r, findings, changes, next, l);
    ExtensionIsTransitive(db, later, after);
  }

  lemma ReportedGives(later: Tables, row: FindingRow, transition: Transition, event: Event)
    requires event == Event(row.lineage, row.run, Some(later.serial), transition)
    requires WithReported(later, row, transition).Ok?
    ensures WithEvent(FindingInserted(later, row), event) == WithReported(later, row, transition)
  {
  }

  lemma ExtensionRuns(db: Tables, later: Tables)
    requires Extends(db, later)
    ensures later.runs == db.runs
    ensures forall l <- db.lineages :: l in later.lineages && later.lineages[l] == db.lineages[l]
  {
  }

  lemma ChangeAccepted(db: Tables, later: Tables, r: Id, findings: seq<Finding>, changes: seq<Change>, next: Change)
    requires Holds(db, later, r, findings, changes) && r in later.runs
    requires Fitting(db, db.runs[r].pullRequest, findings, changes + [next])
    ensures var inserted := WithChange(later, r, OrdinalOf(findings, next), next);
            && (inserted.Ok? <==> !Refused(db, db.runs[r].pullRequest, changes, next))
            && (inserted.Ok? ==> Holds(db, inserted.value, r, findings, changes + [next]))
  {
    assert (changes + [next])[|changes|] == next && ChangeFits(db, db.runs[r].pullRequest, next);
    ExtensionRuns(db, later);
    hide Holds, Fitting, Collides, Repeats, WithReported, WithEvent, WithLineage, Ordinal, ChangeFits;
    if next.finding.None? {
      ClosureAccepted(db, later, r, findings, changes, next);
    } else if next.lineage.Some? {
      FindingAccepted(db, later, r, findings, changes, next, next.lineage.value);
    } else {
      NewFindingAccepted(db, later, r, findings, changes, next);
    }
  }

  lemma OnlyLineages(db: Tables, r: Id, fingerprint: Fingerprint)
    requires r in db.runs && WithLineage(db, r, fingerprint).Ok?
    ensures var known := WithLineage(db, r, fingerprint).value.0; known.findings == db.findings && known.events == db.events
  {
  }

  lemma NewIsNamed(db: Tables, r: Id, next: Change, l: Id)
    requires next.finding.Some? && next.lineage.None? && l in db.lineages && db.lineages[l].status == Pending
    requires db.lineages[l].initial == next.finding.value.fingerprint
    ensures EventOf(db, r, next, l)
  {
  }

  lemma NewChange(db: Tables, r: Id, findings: seq<Finding>, next: Change)
    requires r in db.runs && next.finding.Some? && next.lineage.None?
    ensures var target, finding := WithLineage(db, r, next.finding.value.fingerprint), next.finding.value;
            WithChange(db, r, OrdinalOf(findings, next), next) == if target.Err? then Err(target.error)
              else WithReported(target.value.0, RowOf(target.value.0, r, findings, target.value.1, finding), next.transition)
  {
    hide WithLineage, WithReported;
  }

  lemma NewFindingAccepted(db: Tables, later: Tables, r: Id, findings: seq<Finding>, changes: seq<Change>, next: Change)
    requires Holds(db, later, r, findings, changes) && r in later.runs && next.finding.Some? && next.lineage.None?
    requires Fitting(db, db.runs[r].pullRequest, findings, changes + [next])
    ensures var inserted := WithChange(later, r, OrdinalOf(findings, next), next);
            && (inserted.Ok? <==> !Refused(db, db.runs[r].pullRequest, changes, next))
            && (inserted.Ok? ==> Holds(db, inserted.value, r, findings, changes + [next]))
  {
    var fingerprint := next.finding.value.fingerprint;
    LineageFits(db, later, r, fingerprint);
    NewChange(later, r, findings, next);
    if WithLineage(later, r, fingerprint).Ok? {
      LineageInsertKeeps(later, r, fingerprint);
      OnlyLineages(later, r, fingerprint);
      ExtensionRuns(db, later);
      var (known, l) := WithLineage(later, r, fingerprint).value;
      NewIsNamed(known, r, next, l);
      hide *;
      HoldsWithLineage(db, later, known, r, findings, changes);
      FindingAccepted(db, known, r, findings, changes, next, l);
    }
  }

  predicate SomeRefused(db: Tables, pullRequest: Id, changes: seq<Change>) {
    exists i :: 0 <= i < |changes| && Refused(db, pullRequest, changes[..i], changes[i])
  }

  lemma NoChangesHeld(db: Tables, r: Id, findings: seq<Finding>)
    requires Invariant(db) && r in db.runs
    requires forall f <- db.findings :: db.findings[f].run != r
    requires forall e <- db.events :: db.events[e].run != r
    ensures Holds(db, db, r, findings, []) && !SomeRefused(db, db.runs[r].pullRequest, [])
  {
    Unchanged(db);
    hide Invariant, Extends;
  }

  lemma {:induction false} ChangesAccepted(db: Tables, r: Id, findings: seq<Finding>, changes: seq<Change>)
    requires Invariant(db) && r in db.runs && Fitting(db, db.runs[r].pullRequest, findings, changes)
    requires forall f <- db.findings :: db.findings[f].run != r
    requires forall e <- db.events :: db.events[e].run != r
    ensures var later := WithChanges(db, r, findings, changes);
            && (later.Ok? <==> !SomeRefused(db, db.runs[r].pullRequest, changes))
            && (later.Ok? ==> Holds(db, later.value, r, findings, changes))
  {
    hide Invariant, Fitting, Holds, SomeRefused, Refused, WithChange;
    var pr := db.runs[r].pullRequest;
    if changes == [] {
      NoChangesHeld(db, r, findings);
    } else {
      var init, last := changes[..|changes| - 1], changes[|changes| - 1];
      assert changes == init + [last];
      FittingPrefix(db, pr, findings, init, last);
      ChangesAccepted(db, r, findings, init);
      RefusedAtTheEnd(db, pr, init, last);
      if WithChanges(db, r, findings, init).Ok? {
        ChangeAccepted(db, WithChanges(db, r, findings, init).value, r, findings, init, last);
      }
    }
  }

  lemma FittingPrefix(db: Tables, pr: Id, findings: seq<Finding>, init: seq<Change>, last: Change)
    requires Fitting(db, pr, findings, init + [last])
    ensures Fitting(db, pr, findings, init)
  {
    assert forall i | 0 <= i < |init| :: (init + [last])[i] == init[i];
  }

  lemma RefusedAtTheEnd(db: Tables, pr: Id, init: seq<Change>, last: Change)
    ensures SomeRefused(db, pr, init + [last]) <==> SomeRefused(db, pr, init) || Refused(db, pr, init, last)
  {
    var changes := init + [last];
    hide Refused;
    assert changes[..|init|] == init && changes[|init|] == last;
    assert forall i | 0 <= i < |init| :: changes[..i] == init[..i] && changes[i] == init[i];
    if SomeRefused(db, pr, init) {
      var i :| 0 <= i < |init| && Refused(db, pr, init[..i], init[i]);
      assert Refused(db, pr, changes[..i], changes[i]);
    }
    if Refused(db, pr, init, last) { assert Refused(db, pr, changes[..|init|], changes[|init|]); }
  }

  predicate DistinctFingerprints(findings: seq<Finding>) {
    forall i, j | 0 <= i < j < |findings| :: findings[i].fingerprint != findings[j].fingerprint
  }

  lemma ClassifiedFits(db: Tables, pr: Id, findings: seq<Finding>, changes: seq<Change>)
    requires Classified(db, pr, findings, changes)
    ensures Fitting(db, pr, findings, changes)
  {
  }

  lemma ReportedIsCleared(db: Tables, r: Id, enabled: bool)
    requires Invariant(db) && r in db.runs && db.runs[r].status == Generating
    ensures forall f <- Reported(db, r, enabled).findings :: Reported(db, r, enabled).findings[f].run != r
    ensures forall e <- Reported(db, r, enabled).events :: Reported(db, r, enabled).events[e].run != r
    ensures forall fp :: Collides(Reported(db, r, enabled), db.runs[r].pullRequest, fp)
                         <==> Collides(db, db.runs[r].pullRequest, fp)
  {
    var later := Reported(db, r, enabled);
    hide Wired, Keyed, Folded, Issued;
    forall fp | Collides(db, db.runs[r].pullRequest, fp) ensures Collides(later, db.runs[r].pullRequest, fp) {
      var l :| l in db.lineages && db.lineages[l].pullRequest == db.runs[r].pullRequest && db.lineages[l].initial == fp
               && db.lineages[l].status != Pending;
      assert l in later.lineages;
    }
  }

  lemma RefusalOfAReport(db: Tables, pr: Id, findings: seq<Finding>, changes: seq<Change>)
    requires Classified(db, pr, findings, changes)
    ensures SomeRefused(db, pr, changes)
            <==> (!DistinctFingerprints(findings)
                  || exists i :: 0 <= i < |findings| && changes[i].transition == New
                                 && Collides(db, pr, findings[i].fingerprint))
  {
    hide Collides;
    if SomeRefused(db, pr, changes) {
      var i :| 0 <= i < |changes| && Refused(db, pr, changes[..i], changes[i]);
      if Repeats(changes[..i], changes[i].finding.value) {
        var j :| 0 <= j < i && changes[..i][j].finding.Some?
                 && changes[..i][j].finding.value.fingerprint == changes[i].finding.value.fingerprint;
        assert findings[j].fingerprint == findings[i].fingerprint;
      } else {
        assert ChangeFits(db, pr, changes[i]);
      }
    }
    if !DistinctFingerprints(findings) {
      var j, i :| 0 <= j < i < |findings| && findings[j].fingerprint == findings[i].fingerprint;
      assert changes[..i][j].finding == Some(findings[j]);
      assert Refused(db, pr, changes[..i], changes[i]);
    }
    if i :| 0 <= i < |findings| && changes[i].transition == New && Collides(db, pr, findings[i].fingerprint) {
      assert ChangeFits(db, pr, changes[i]);
      assert Refused(db, pr, changes[..i], changes[i]);
    }
  }

  /**
   * Persisting a report fails in exactly two ways: the report names a fingerprint twice, or a finding
   * that matched nothing carries the fingerprint of a lineage that was already published.
   */
  lemma ReportsAreRefusedExactly(db: Tables, r: Id, enabled: bool, findings: seq<Finding>, changes: seq<Change>)
    requires Invariant(db) && r in db.runs && db.runs[r].status == Generating
    requires Classified(Reported(db, r, enabled), db.runs[r].pullRequest, findings, changes)
    ensures Persisted(db, r, enabled, findings, changes).Ok?
            <==> (&& DistinctFingerprints(findings)
                  && forall i | 0 <= i < |findings| && changes[i].transition == New ::
                       !Collides(db, db.runs[r].pullRequest, findings[i].fingerprint))
    ensures Persisted(db, r, enabled, findings, changes).Ok? ==>
            var later := Persisted(db, r, enabled, findings, changes).value;
            FindingsHeld(later, r, findings, changes) && EventsHeld(later, r, changes)
  {
    var base, pr := Reported(db, r, enabled), db.runs[r].pullRequest;
    ReportedKeeps(db, r, enabled);
    ReportedIsCleared(db, r, enabled);
    ClassifiedFits(base, pr, findings, changes);
    RefusalOfAReport(base, pr, findings, changes);
    assert r in base.runs && base.runs[r].pullRequest == pr;
    ReportedAccepted(base, r, findings, changes);
    hide Invariant, Fitting, Reported, Keeps, SomeRefused, FindingsHeld, EventsHeld, WithChanges;
  }

  lemma ReportedAccepted(db: Tables, r: Id, findings: seq<Finding>, changes: seq<Change>)
    requires Invariant(db) && r in db.runs && Fitting(db, db.runs[r].pullRequest, findings, changes)
    requires forall f <- db.findings :: db.findings[f].run != r
    requires forall e <- db.events :: db.events[e].run != r
    ensures var later := WithChanges(db, r, findings, changes);
            && (later.Ok? <==> !SomeRefused(db, db.runs[r].pullRequest, changes))
            && (later.Ok? ==> FindingsHeld(later.value, r, findings, changes) && EventsHeld(later.value, r, changes))
  {
    ChangesAccepted(db, r, findings, changes);
    hide Invariant, Fitting, FindingsHeld, EventsHeld, SomeRefused, Extends;
  }
}
