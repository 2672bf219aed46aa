/** The review store: its transactions, and every run of them. */
module ReviewStore {
  import opened Wrappers
  import opened Rows
  import opened Lineage
  import opened LineageSteps
  import opened LineageIntake
  import opened Classifier
  import opened Continuity

  // ---------------------------------------------------------------- all runs

  datatype Step =
    | Begin(job: Id, pullRequest: Id, revision: string, configuration: string)
    | Persist(run: Id, enabled: bool, findings: seq<Finding>, changes: seq<Change>)
    | Fail(run: Id)
    | Supersede(run: Id, leaseHeld: bool)
    | Exhaust(job: Id)
    | BeginPublication(run: Id, provider: string)
    | Publish(publication: Id, run: Id, provider: string, comments: seq<Comment>, unanchored: set<Fingerprint>)
    | FailPublication(publication: Id)

  function FullyPublished(db: Tables, p: Id, r: Id, provider: string, comments: seq<Comment>, unanchored: set<Fingerprint>)
    : Result<Tables, Failure>
  {
    match ThreadsRecorded(db, r, provider, comments)
    case Err(failure) => Err(failure)
    case Ok(threaded) => PublicationPublished(threaded, p, unanchored)
  }

  /** The tables after one transaction; a failed one is rolled back. */
  function After(db: Tables, step: Step): Tables {
    match step
    case Begin(job, pullRequest, revision, configuration) =>
      var begun := Begun(db, job, pullRequest, revision, configuration);
      if begun.Ok? then begun.value.0 else db
    case Persist(r, enabled, findings, changes) =>
      var persisted := Persisted(db, r, enabled, findings, changes);
      if persisted.Ok? then persisted.value else db
    case Fail(r) => StatusIf(db, r, {Generating}, Failed)
    case Supersede(r, leaseHeld) => Retired(db, r, leaseHeld)
    case Exhaust(job) => Exhausted(db, job)
    case BeginPublication(r, provider) =>
      var begun := PublicationBegun(db, r, provider);
      if begun.Ok? then begun.value.0 else db
    case Publish(p, r, provider, comments, unanchored) =>
      var published := FullyPublished(db, p, r, provider, comments, unanchored);
      if published.Ok? then published.value else db
    case FailPublication(p) => PublicationFailed(db, p)
  }

  /** A report's transitions come from the classifier; every other step is open to any caller. */
  ghost predicate Possible(db: Tables, step: Step) {
    step.Persist? && step.run in db.runs ==>
      Classified(Reported(db, step.run, step.enabled), db.runs[step.run].pullRequest, step.findings, step.changes)
  }

  ghost predicate Execution(states: seq<Tables>, steps: seq<Step>) {
    && |states| == |steps| + 1 && states[0] == EMPTY
    && forall i | 0 <= i < |steps| :: Possible(states[i], steps[i]) && states[i + 1] == After(states[i], steps[i])
  }

  lemma PublishKeeps(db: Tables, p: Id, r: Id, provider: string, comments: seq<Comment>, unanchored: set<Fingerprint>)
    requires Invariant(db) && FullyPublished(db, p, r, provider, comments, unanchored).Ok?
    ensures var later := FullyPublished(db, p, r, provider, comments, unanchored).value; Invariant(later) && Keeps(db, later)
  {
    var threaded := ThreadsRecorded(db, r, provider, comments).value;
    assert threaded == db.(threads := threaded.threads);
    hide Invariant, Keeps, PublicationPublished, ThreadsRecorded;
    ThreadsKeep(db, threaded.threads);
    PublicationPublishedKeeps(threaded, p, unanchored);
    KeepingIsTransitiveFor(db, threaded, PublicationPublished(threaded, p, unanchored).value);
  }

  lemma StepKeeps(db: Tables, step: Step)
    requires Invariant(db) && Possible(db, step)
    ensures Invariant(After(db, step)) && Keeps(db, After(db, step))
  {
    hide Invariant, Keeps, StatusIf, Begun, Persisted, PublicationBegun, PublicationFailed, FullyPublished;
    hide Discarded, Classified, Reported;
    NothingLost(db);
    match step
    case Begin(job, pullRequest, revision, configuration) => BegunKeeps(db, job, pullRequest, revision, configuration);
    case Persist(r, enabled, findings, changes) =>
      if Persisted(db, r, enabled, findings, changes).Ok? {
        PersistedIsGenerating(db, r, enabled, findings, changes);
        PersistedKeeps(db, r, enabled, findings, changes);
      }
    case Fail(r) => StatusIfKeeps(db, r, {Generating}, Failed);
    case Supersede(r, leaseHeld) => GivingUpKeeps(db, r, Superseded);
    case Exhaust(job) =>
      match RunOfJob(db, job) {
        case Some(r) => GivingUpKeeps(db, r, Failed);
        case None =>
      }
    case BeginPublication(r, provider) => PublicationBegunKeeps(db, r, provider);
    case Publish(p, r, provider, comments, unanchored) =>
      if FullyPublished(db, p, r, provider, comments, unanchored).Ok? {
        PublishKeeps(db, p, r, provider, comments, unanchored);
      }
    case FailPublication(p) => PublicationFailedKeeps(db, p);
  }

  lemma PersistedIsGenerating(db: Tables, r: Id, enabled: bool, findings: seq<Finding>, changes: seq<Change>)
    ensures Persisted(db, r, enabled, findings, changes).Ok? ==> r in db.runs && db.runs[r].status == Generating
  {
    hide WithChanges, Reported;
  }

  lemma StepAt(states: seq<Tables>, steps: seq<Step>, i: nat)
    requires Execution(states, steps) && i + 1 < |states|
    ensures i < |steps| && Possible(states[i], steps[i]) && states[i + 1] == After(states[i], steps[i])
  {
  }

  lemma StartKeepsTheInvariant(states: seq<Tables>, steps: seq<Step>)
    requires Execution(states, steps)
    ensures Invariant(states[0])
  {
    hide After, Possible;
  }

  /** Whatever the workers do, in whatever order, the tables stay consistent and settled. */
  lemma {:induction false} EveryRunKeepsTheInvariant(states: seq<Tables>, steps: seq<Step>, i: nat)
    requires Execution(states, steps) && i < |states|
    ensures Invariant(states[i])
  {
    hide *;
    if i == 0 {
      StartKeepsTheInvariant(states, steps);
    } else {
      EveryRunKeepsTheInvariant(states, steps, i - 1);
      StepAt(states, steps, i - 1);
      StepKeeps(states[i - 1], steps[i - 1]);
    }
  }

  /** Applied events, their findings, published lineages and published runs are never lost. */
  lemma {:induction false} NothingAppliedIsLost(states: seq<Tables>, steps: seq<Step>, i: nat, j: nat)
    requires Execution(states, steps) && i <= j < |states|
    ensures Keeps(states[i], states[j])
    decreases j
  {
    hide *;
    if i == j {
      NothingLost(states[i]);
    } else {
      NothingAppliedIsLost(states, steps, i, j - 1);
      EveryRunKeepsTheInvariant(states, steps, i);
      EveryRunKeepsTheInvariant(states, steps, j - 1);
      StepAt(states, steps, j - 1);
      StepKeeps(states[j - 1], steps[j - 1]);
      KeepingIsTransitiveFor(states[i], states[j - 1], states[j]);
    }
  }

  /** In every reachable state a lineage's applied events spell the pattern, and its status is where it ends. */
  lemma StatusesFollowTheirHistory(states: seq<Tables>, steps: seq<Step>, i: nat, l: Id)
    requires Execution(states, steps) && i < |states| && l in states[i].lineages
    ensures Journaled(states[i])
    ensures var word := History(states[i].events, states[i].applied, l);
            && Spelled(word)
            && states[i].lineages[l].status == if word == [] then Pending else Lineage.Reached(word[|word| - 1])
    ensures forall e <- states[i].applied :: states[i].events[e].run in states[i].runs
              && states[i].runs[states[i].events[e].run].status == RunStatus.Published
  {
    EveryRunKeepsTheInvariant(states, steps, i);
    AcceptedWords(History(states[i].events, states[i].applied, l));
    hide Execution;
    assert forall e <- states[i].applied :: EventIsWired(states[i], states[i].events[e]);
  }

  // ---------------------------------------------------------------- the history offered to the classifier

  function HistoryRows(db: Tables, ids: seq<Id>): (rows: seq<Historical>)
    requires forall l <- ids :: l in db.lineages && AppliedFindings(db, l) != {}
    ensures |rows| == |ids|
    ensures forall i | 0 <= i < |ids| ::
              rows[i] == Historical(ids[i], db.lineages[ids[i]].status, db.findings[Greatest(AppliedFindings(db, ids[i]))].finding)
  {
    if ids == [] then [] else
      var l := ids[0];
      [Historical(l, db.lineages[l].status, db.findings[Greatest(AppliedFindings(db, l))].finding)]
      + HistoryRows(db, ids[1..])
  }

  function HistoricalFindings(db: Tables, pullRequest: Id): seq<Historical> {
    HistoryRows(db, InOrder(set l <- db.lineages | && db.lineages[l].pullRequest == pullRequest
                                                   && db.lineages[l].status != Pending && AppliedFindings(db, l) != {}))
  }

  lemma HistoryIsFromRequest(db: Tables, pullRequest: Id)
    ensures FromRequest(db, pullRequest, HistoricalFindings(db, pullRequest))
  {
    var ids := InOrder(set l <- db.lineages | && db.lineages[l].pullRequest == pullRequest
                                              && db.lineages[l].status != Pending && AppliedFindings(db, l) != {});
    hide AppliedFindings, Greatest;
    var history := HistoricalFindings(db, pullRequest);
    assert forall i | 0 <= i < |ids| :: ids[i] in ids && history[i].lineage == ids[i] && history[i].status == db.lineages[ids[i]].status;
  }

  // ---------------------------------------------------------------- the store

  predicate Needs(db: Tables, e: Id, r: Id)
    requires e in db.events
  {
    var finding := db.events[e].finding;
    finding.Some? && finding.value in db.findings && db.findings[finding.value].run == r
  }

  function WithoutProvisionalEvents(db: Tables, r: Id): Tables {
    db.(events := map e <- db.events | db.events[e].run != r || e in db.applied :: db.events[e])
  }

  function WithoutFindings(db: Tables, r: Id): Tables {
    db.(findings := map f <- db.findings | db.findings[f].run != r :: db.findings[f])
  }

  /** Events, findings and threads go with their lineage. */
  function WithoutPendingLineages(db: Tables, r: Id): Tables {
    var dead := set l <- db.lineages | db.lineages[l].status == Pending && db.lineages[l].firstSeen == r;
    db.(lineages := map l <- db.lineages | l !in dead :: db.lineages[l],
        findings := map f <- db.findings | db.findings[f].lineage !in dead :: db.findings[f],
        events := map e <- db.events | db.events[e].lineage !in dead :: db.events[e],
        threads := map l <- db.threads | l !in dead :: db.threads[l])
  }

  /** The three deletions in the order they are made, as one change. */
  lemma DeletionsCompose(db: Tables, r: Id)
    ensures WithoutPendingLineages(WithoutFindings(WithoutProvisionalEvents(db, r), r), r) == Cleared(db, r)
  {
    var dead := Dead(db, r);
    var two := WithoutFindings(WithoutProvisionalEvents(db, r), r);
    assert dead == set l <- two.lineages | two.lineages[l].status == Pending && two.lineages[l].firstSeen == r;
    var three := WithoutPendingLineages(two, r);
    assert three.findings == Cleared(db, r).findings by { hide Dead; }
    assert three.events == Cleared(db, r).events by { hide Dead; }
  }

  /** What a report must meet before it is classified. */
  predicate Persistable(db: Tables, r: Id, touched: set<string>, aliases: map<string, string>) {
    && (forall path <- touched :: NormalizedPath(path)) && NormalizedAliases(aliases)
    && r in db.runs && db.runs[r].status == Generating
  }

  /** The published history a report's findings are matched with. */
  function HistoryOfReport(db: Tables, r: Id, enabled: bool): seq<Historical>
    requires r in db.runs
  {
    HistoricalFindings(Reported(db, r, enabled), db.runs[r].pullRequest)
  }

  /** The event by which the run reported a new finding with this fingerprint. */
  predicate IsNewFor(db: Tables, r: Id, fingerprint: Fingerprint, e: Id) {
    e in db.events && db.events[e].transition == New && FingerprintOf(db, e) == Some(fingerprint)
    && db.findings[db.events[e].finding.value].run == r
  }

  /** The lineage has this thread, and no other lineage has got one. */
  predicate HasThread(db: Tables, before: set<Id>, l: Id, root: string) {
    l in db.threads && db.threads[l] == root && db.threads.Keys == before + {l}
  }

  lemma NewEventsAre(db: Tables, r: Id, fingerprint: Fingerprint)
    ensures NewEventFor(db, r, fingerprint).None? <==> forall e :: !IsNewFor(db, r, fingerprint, e)
    ensures NewEventFor(db, r, fingerprint).Some? ==> IsNewFor(db, r, fingerprint, NewEventFor(db, r, fingerprint).value)
  {
    var news := set e <- db.events | && db.events[e].transition == New && FingerprintOf(db, e) == Some(fingerprint)
                                     && db.findings[db.events[e].finding.value].run == r;
    assert NewEventFor(db, r, fingerprint) == Newest(news);
    forall e ensures e in news <==> IsNewFor(db, r, fingerprint, e) {}
  }

  lemma NewEventIsNew(db: Tables, r: Id, fingerprint: Fingerprint, later: Tables)
    requires later == db.(threads := later.threads)
    ensures NewEventFor(db, r, fingerprint).Some? ==> IsNewFor(later, r, fingerprint, NewEventFor(db, r, fingerprint).value)
    ensures NewEventFor(later, r, fingerprint) == NewEventFor(db, r, fingerprint)
  {
    NewEventQuery(db, r, fingerprint);
    NewEventQuery(later, r, fingerprint);
    var before, after := set e <- db.events | IsNewFor(db, r, fingerprint, e), set e <- later.events | IsNewFor(later, r, fingerprint, e);
    assert forall e <- db.events :: FingerprintOf(later, e) == FingerprintOf(db, e);
    assert before == after;
    hide NewEventFor, FingerprintOf;
  }

  lemma NewEventQuery(db: Tables, r: Id, fingerprint: Fingerprint)
    ensures NewEventFor(db, r, fingerprint) == Newest(set e <- db.events | IsNewFor(db, r, fingerprint, e))
  {
    var query := set e <- db.events | && db.events[e].transition == New && FingerprintOf(db, e) == Some(fingerprint)
                                      && db.findings[db.events[e].finding.value].run == r;
    assert query == set e <- db.events | IsNewFor(db, r, fingerprint, e);
  }

  class Store {
    var tables: Tables

    constructor ()
      ensures tables == EMPTY
    {
      tables := EMPTY;
    }

    method BeginReviewRun(job: Id, pullRequest: Id, revision: string, configuration: string)
      returns (run: Result<Id, Failure>)
      requires Invariant(tables)
      modifies this
      ensures Invariant(tables) && Keeps(old(tables), tables)
      ensures match Begun(old(tables), job, pullRequest, revision, configuration)
              case Err(failure) => run == Err(failure) && tables == old(tables)
              case Ok((later, r)) => run == Ok(r) && tables == later && r in tables.runs
    {
      BegunKeeps(tables, job, pullRequest, revision, configuration);
      NothingLost(tables);
      hide Invariant, Keeps;
      var jobRun := RunOfJob(tables, job);
      if jobRun.Some? {
        var r := jobRun.value;
        var row := tables.runs[r];
        if row.status == Failed || row.status == Generating {
          if exists q <- tables.runs :: q != r && SameReview(tables.runs[q], row.pullRequest, row.revision, configuration) {
            return Err(UniqueViolation);
          }
          tables := tables.(runs := tables.runs[r := row.(configuration := configuration, status := Generating)]);
        }
        return Ok(r);
      }
      var existing := RunOfReview(tables, pullRequest, revision, configuration);
      if existing.Some? {
        var r := existing.value;
        var row := tables.runs[r];
        if row.status == Failed || row.status == Generating {
          tables := tables.(runs := tables.runs[r := row.(job := job, status := Generating)]);
        }
        return Ok(r);
      }
      var r := tables.serial;
      tables := tables.(runs := tables.runs[r := Run(job, pullRequest, revision, configuration, Generating, true)],
                        serial := r + 1);
      return Ok(r);
    }

    /** Three deletions; taking the finding of an event that needs one would break a row check. */
    method DeleteProjection(r: Id) returns (ok: bool)
      requires Invariant(tables) && r in tables.runs && tables.runs[r].status != RunStatus.Published
      modifies this
      ensures ok && tables == Cleared(old(tables), r)
    {
      NoAppliedEvent(tables, r);
      DeletionsCompose(tables, r);
      hide Invariant, Cleared, WithoutFindings, WithoutPendingLineages;
      tables := WithoutProvisionalEvents(tables, r);
      if exists e <- tables.events :: Needs(tables, e, r) { return false; }
      tables := WithoutFindings(tables, r);
      tables := WithoutPendingLineages(tables, r);
      return true;
    }

    method DiscardUnpublished(r: Id) returns (ok: bool)
      requires Invariant(tables)
      modifies this
      ensures ok && tables == Discarded(old(tables), r) && Invariant(tables) && Keeps(old(tables), tables)
    {
      DiscardedKeeps(tables, r);
      hide Invariant, Keeps, Cleared;
      if r !in tables.runs || tables.runs[r].status in {RunStatus.Published, RunStatus.Skipped} { return true; }
      ok := DeleteProjection(r);
    }

    method MarkReviewFailed(r: Id)
      requires Invariant(tables)
      modifies this
      ensures tables == After(old(tables), Fail(r)) && Invariant(tables) && Keeps(old(tables), tables)
    {
      StatusIfKeeps(tables, r, {Generating}, Failed);
      hide Invariant, Keeps;
      if r in tables.runs && tables.runs[r].status == Generating {
        tables := tables.(runs := tables.runs[r := tables.runs[r].(status := Failed)]);
      }
    }

    method MarkReviewSuperseded(r: Id, leaseHeld: bool) returns (owned: bool)
      requires Invariant(tables)
      modifies this
      ensures owned <==> r in old(tables).runs && leaseHeld
      ensures tables == After(old(tables), Supersede(r, leaseHeld)) && Invariant(tables) && Keeps(old(tables), tables)
    {
      StepKeeps(tables, Supersede(r, leaseHeld));
      hide Invariant, Keeps, Discarded;
      if r !in tables.runs || !leaseHeld { return false; }
      var _ := DiscardUnpublished(r);
      if r in tables.runs && tables.runs[r].status in UNFINISHED {
        tables := tables.(runs := tables.runs[r := tables.runs[r].(status := Superseded)]);
      }
      return true;
    }

    method MarkReviewTerminalFailed(job: Id)
      requires Invariant(tables)
      modifies this
      ensures tables == After(old(tables), Exhaust(job)) && Invariant(tables) && Keeps(old(tables), tables)
    {
      StepKeeps(tables, Exhaust(job));
      hide Invariant, Keeps, Discarded;
      var run := RunOfJob(tables, job);
      if run.None? || tables.runs[run.value].status in {RunStatus.Published, RunStatus.Skipped, Superseded} { return; }
      var r := run.value;
      var _ := DiscardUnpublished(r);
      if r in tables.runs && tables.runs[r].status in UNFINISHED {
        tables := tables.(runs := tables.runs[r := tables.runs[r].(status := Failed)]);
      }
    }

    /** One transition of the report: its lineage if it is new, its finding if it has one, and its event. */
    method InsertChange(r: Id, ordinal: nat, change: Change) returns (ok: Result<(), Failure>)
      requires r in tables.runs
      modifies this
      ensures match WithChange(old(tables), r, ordinal, change)
              case Err(failure) => ok == Err(failure)
              case Ok(later) => ok == Ok(()) && tables == later
    {
      var lineage, finding := change.lineage, None;
      if change.finding.Some? {
        var fingerprint := change.finding.value.fingerprint;
        if lineage.None? {
          var known := LineageFor(tables, tables.runs[r].pullRequest, fingerprint);
          if known.Some? && tables.lineages[known.value].status != Pending { return Err(FingerprintCollision); }
          if known.None? {
            known := Some(tables.serial);
            tables := LineageInserted(tables, LineageRow(tables.runs[r].pullRequest, fingerprint, Pending, r, None, None));
          }
          lineage := known;
        }
        var row := FindingRow(r, lineage.value, ordinal, change.finding.value);
        if row.lineage !in tables.lineages { return Err(ForeignKeyViolation); }
        if exists f <- tables.findings :: && tables.findings[f].run == r
                                          && (tables.findings[f].finding.fingerprint == fingerprint
                                              || tables.findings[f].ordinal == ordinal)
        {
          return Err(UniqueViolation);
        }
        finding := Some(tables.serial);
        tables := FindingInserted(tables, row);
      }
      if lineage.None? { return Err(NotNullViolation); }
      var event := Event(lineage.value, r, finding, change.transition);
      var inserted := WithEvent(tables, event);
      if inserted.Err? { return Err(inserted.error); }
      tables := inserted.value;
      return Ok(());
    }

    method PersistFindingLineage(r: Id, findings: seq<Finding>, changes: seq<Change>) returns (ok: Result<(), Failure>)
      requires r in tables.runs
      modifies this
      ensures match WithChanges(old(tables), r, findings, changes)
              case Err(failure) => ok == Err(failure)
              case Ok(later) => ok == Ok(()) && tables == later
    {
      ghost var base := tables;
      hide WithChange;
      for i := 0 to |changes|
        invariant WithChanges(base, r, findings, changes[..i]) == Ok(tables) && tables.runs == base.runs
      {
        assert changes[..i + 1][..i] == changes[..i];
        ok := InsertChange(r, OrdinalOf(findings, changes[i]), changes[i]);
        if ok.Err? {
          ErrorsStay(base, r, findings, changes, i + 1);
          return;
        }
      }
      assert changes[..|changes|] == changes;
      return Ok(());
    }

    method RecordReport(r: Id, enabled: bool)
      requires Invariant(tables) && r in tables.runs && tables.runs[r].status == Generating
      modifies this
      ensures tables == Reported(old(tables), r, enabled) && r in tables.runs
      ensures tables.runs[r].pullRequest == old(tables).runs[r].pullRequest
    {
      var run := tables.runs[r].(status := if enabled then Ready else RunStatus.Skipped, publishable := enabled);
      RunChangeKeeps(tables, r, run);
      hide Invariant, Keeps;
      tables := tables.(runs := tables.runs[r := run]);
      var _ := DeleteProjection(r);
    }

    /** A whole report in one transaction; its transitions are those of the classifier. */
    method PersistReviewReport(r: Id, enabled: bool, findings: seq<Finding>, touched: set<string>,
                               aliases: map<string, string>, similarity: Similarity)
      returns (ok: Result<(), Failure>, ghost changes: seq<Change>, ghost cs: seq<Candidate>, ghost m: Matching)
      requires Invariant(tables)
      modifies this
      ensures Invariant(tables) && Keeps(old(tables), tables)
      ensures !Persistable(old(tables), r, touched, aliases) ==> ok.Err? && tables == old(tables)
      ensures r !in old(tables).runs || old(tables).runs[r].status != Generating ==> ok.Err? && tables == old(tables)
      ensures forall path <- touched + aliases.Keys + aliases.Values | path == "" || path[0] == '/' ::
                ok == Err(InvalidPath) && tables == old(tables)
      ensures Persistable(old(tables), r, touched, aliases) ==>
                && ClassifiedBy(findings, HistoryOfReport(old(tables), r, enabled), if enabled then touched else {},
                                if enabled then aliases else map[], similarity, cs, m, changes)
                && Possible(old(tables), Persist(r, enabled, findings, changes))
                && match Persisted(old(tables), r, enabled, findings, changes)
                   case Err(failure) => ok == Err(failure) && tables == old(tables)
                   case Ok(later) => ok == Ok(()) && tables == later
    {
      changes, cs, m := [], [], map[];
      NothingLost(tables);
      if exists path <- touched :: !NormalizedPath(path) { return Err(InvalidPath), changes, cs, m; }
      if !NormalizedAliases(aliases) { return Err(InvalidPath), changes, cs, m; }
      if r !in tables.runs || tables.runs[r].status != Generating { return Err(NotGeneratable), changes, cs, m; }
      var saved := tables;
      hide Invariant, Keeps, Cleared, WithChanges, Classified, FromRequest, ClassifiedBy;
      RecordReport(r, enabled);
      var pullRequest := tables.runs[r].pullRequest;
      var history := HistoricalFindings(tables, pullRequest);
      HistoryIsFromRequest(tables, pullRequest);
      var transitions;
      transitions, cs, m := Classify(findings, history, if enabled then touched else {},
                                     if enabled then aliases else map[], similarity);
      changes := transitions.value;
      TransitionsMeetTheContract(tables, pullRequest, findings, history, if enabled then touched else {},
                                 if enabled then aliases else map[], similarity, cs, m, changes);
      ok := PersistFindingLineage(r, findings, transitions.value);
      if ok.Err? {
        tables := saved;
        return;
      }
      PersistedKeeps(saved, r, enabled, findings, changes);
    }

    method BeginPublication(r: Id, provider: string) returns (p: Result<Id, Failure>)
      requires Invariant(tables)
      modifies this
      ensures Invariant(tables) && Keeps(old(tables), tables)
      ensures match PublicationBegun(old(tables), r, provider)
              case Err(failure) => p == Err(failure) && tables == old(tables)
              case Ok((later, q)) => p == Ok(q) && tables == later
                                     && q in tables.publications && tables.publications[q].run == r
                                     && tables.publications[q].provider == provider
    {
      PublicationBegunKeeps(tables, r, provider);
      NothingLost(tables);
      hide Invariant, Keeps;
      if r !in tables.runs || !tables.runs[r].publishable
         || tables.runs[r].status !in {Ready, Publishing, RunStatus.Published}
      {
        return Err(NotPublishable);
      }
      var existing := PublicationOf(tables, r, provider);
      if existing.Some? && tables.publications[existing.value].published { return Ok(existing.value); }
      if existing.None? {
        existing := Some(tables.serial);
        tables := tables.(publications := tables.publications[tables.serial := Publication(r, provider, false)],
                          serial := tables.serial + 1);
      }
      if tables.runs[r].status in {Ready, Publishing} {
        tables := tables.(runs := tables.runs[r := tables.runs[r].(status := Publishing)]);
      }
      return Ok(existing.value);
    }

    method RecordFindingThreads(r: Id, provider: string, comments: seq<Comment>) returns (ok: Result<(), Failure>)
      modifies this
      ensures match ThreadsRecorded(old(tables), r, provider, comments)
              case Err(failure) => ok == Err(failure)
              case Ok(later) => ok == Ok(()) && tables == later
      ensures comments == [] ==> ok == Ok(()) && tables == old(tables)
      ensures ok == Err(UnsupportedProvider) <==> comments != [] && provider != "github"
    {
      if comments == [] { return Ok(()); }
      if provider != "github" { return Err(UnsupportedProvider); }
      ghost var base := tables;
      ok := Ok(());
      hide Threaded, NewEventFor;
      for i := 0 to |comments|
        invariant AllThreaded(base, r, comments[..i]) == Ok(tables)
        invariant ok != Err(UnsupportedProvider)
      {
        assert comments[..i + 1][..i] == comments[..i];
        ok := RecordThread(r, comments[i]);
        if ok.Err? {
          ThreadErrorsStay(base, r, comments, i + 1);
          return;
        }
      }
      assert comments[..|comments|] == comments;
      return Ok(());
    }

    /** A lineage gets the thread of the comment on its new finding; no thread is ever moved to another root. */
    method RecordThread(r: Id, comment: Comment) returns (ok: Result<(), Failure>)
      modifies this
      ensures match Threaded(old(tables), r, comment)
              case Err(failure) => ok == Err(failure) && tables == old(tables)
              case Ok(later) => ok == Ok(()) && tables == later
      ensures tables == old(tables).(threads := tables.threads)
      ensures ok == Err(UnmappedComment) <==> forall e :: !IsNewFor(old(tables), r, comment.fingerprint, e)
      ensures ok.Err? && ok != Err(UnmappedComment) ==>
                && ok == Err(ThreadConflict)
                && exists e :: IsNewFor(tables, r, comment.fingerprint, e) && tables.events[e].lineage in tables.threads
                               && tables.threads[tables.events[e].lineage] != comment.root
      ensures forall l <- old(tables).threads :: l in tables.threads && tables.threads[l] == old(tables).threads[l]
      ensures ok.Ok? ==>
                && Threaded(tables, r, comment) == Ok(tables)
                && exists e :: IsNewFor(tables, r, comment.fingerprint, e)
                               && HasThread(tables, old(tables).threads.Keys, tables.events[e].lineage, comment.root)
    {
      var event := NewEventFor(tables, r, comment.fingerprint);
      NewEventsAre(tables, r, comment.fingerprint);
      if event.None? { return Err(UnmappedComment); }
      var l := tables.events[event.value].lineage;
      if l in tables.threads && tables.threads[l] != comment.root { return Err(ThreadConflict); }
      NewEventIsNew(tables, r, comment.fingerprint, tables.(threads := tables.threads[l := comment.root]));
      hide NewEventFor;
      tables := tables.(threads := tables.threads[l := comment.root]);
      assert tables.threads[l := comment.root] == tables.threads;
      assert IsNewFor(tables, r, comment.fingerprint, event.value);
      assert HasThread(tables, old(tables).threads.Keys, tables.events[event.value].lineage, comment.root);
      return Ok(());
    }

    method ApplyEvent(e: Id)
      requires e in tables.events && tables.events[e].lineage in tables.lineages
      modifies this
      ensures tables == ApplyOne(old(tables), e)
      ensures tables.events == old(tables).events && tables.lineages.Keys == old(tables).lineages.Keys
    {
      var event := tables.events[e];
      var row := tables.lineages[event.lineage];
      if event.transition == Closed {
        row := row.(status := Addressed, addressedBy := Some(event.run));
      } else {
        row := row.(status := Status.Active, lastSeen := Some(event.run), addressedBy := None);
      }
      tables := tables.(lineages := tables.lineages[event.lineage := row], applied := tables.applied + [e]);
    }

    /** The loop checks every event against the rows read before it started. */
    method ActivateFindingLineageEvents(r: Id, unanchored: set<Fingerprint>) returns (ok: Result<(), Failure>)
      requires Consistent(tables)
      modifies this
      ensures match Activated(old(tables), r, unanchored)
              case Err(failure) => ok == Err(failure)
              case Ok(later) => ok == Ok(()) && tables == later
    {
      var read := tables;
      var waiting := InOrder(Waiting(read, r));
      ghost var ids: seq<Id> := [];
      WaitingAreWired(read, r, unanchored);
      ProgressStarts(read, unanchored);
      hide *;
      for i := 0 to |waiting|
        invariant Progress(read, tables, unanchored, waiting[..i], ids)
      {
        var e := waiting[i];
        assert e in waiting;
        if Unanchored(read, e, unanchored) {
          ProgressSkips(read, tables, unanchored, waiting, i, ids);
          continue;
        }
        if Rejected(read, e) {
          RejectionIsAnError(read, r, unanchored, e);
          return Err(LineageChanged);
        }
        ProgressApplies(read, tables, unanchored, waiting, i, ids);
        ApplyEvent(e);
        ids := ids + [e];
      }
      assert waiting[..|waiting|] == waiting;
      ProgressEnds(read, tables, r, unanchored, ids);
      ok := Ok(());
    }

    method MarkPublicationPublished(p: Id, unanchored: set<Fingerprint>) returns (ok: Result<(), Failure>)
      requires Invariant(tables)
      modifies this
      ensures match PublicationPublished(old(tables), p, unanchored)
              case Err(failure) => ok == Err(failure)
              case Ok(later) => ok == Ok(()) && tables == later
    {
      hide Keeps, Activated;
      if p !in tables.publications { return Err(UnknownPublication); }
      var r := tables.publications[p].run;
      PublicationMarkKeeps(tables, p, true);
      hide Wired, Keyed, Issued, Journaled, Folded, Settled;
      tables := tables.(publications := tables.publications[p := tables.publications[p].(published := true)]);
      ok := ActivateFindingLineageEvents(r, unanchored);
      if ok.Err? { return; }
      if r in tables.runs {
        tables := tables.(runs := tables.runs[r := tables.runs[r].(status := RunStatus.Published)]);
      }
    }

    /** Threads, events and the run in one transaction, rolled back as a whole. */
    method MarkNativePublicationPublished(p: Id, r: Id, provider: string, comments: seq<Comment>, unanchored: set<Fingerprint>)
      returns (ok: Result<(), Failure>)
      requires Invariant(tables)
      modifies this
      ensures tables == After(old(tables), Publish(p, r, provider, comments, unanchored))
      ensures Invariant(tables) && Keeps(old(tables), tables)
      ensures ok.Ok? <==> FullyPublished(old(tables), p, r, provider, comments, unanchored).Ok?
    {
      var saved := tables;
      StepKeeps(tables, Publish(p, r, provider, comments, unanchored));
      if ThreadsRecorded(tables, r, provider, comments).Ok? { ThreadsRecordedKeep(tables, r, provider, comments); }
      hide Invariant, Keeps, ThreadsRecorded, PublicationPublished;
      ok := RecordFindingThreads(r, provider, comments);
      if ok.Ok? { ok := MarkPublicationPublished(p, unanchored); }
      if ok.Err? { tables := saved; }
    }

    method MarkPublicationFailed(p: Id)
      requires Invariant(tables)
      modifies this
      ensures tables == After(old(tables), FailPublication(p)) && Invariant(tables) && Keeps(old(tables), tables)
    {
      PublicationFailedKeeps(tables, p);
      hide Invariant, Keeps;
      if p !in tables.publications { return; }
      var r := tables.publications[p].run;
      tables := tables.(publications := tables.publications[p := tables.publications[p].(published := false)]);
      if r in tables.runs && tables.runs[r].status == Publishing {
        tables := tables.(runs := tables.runs[r := tables.runs[r].(status := Ready)]);
      }
    }

    /** The open findings shown with a review that is about to be published. */
    method LoadOpenFindings(r: Id) returns (open: map<Id, Id>)
      requires r in tables.runs
      ensures open == Predicted(tables, r)
    {
      var rows := EventRows(tables, r);
      open := Continuity.Active(tables, tables.runs[r].pullRequest);
      NothingAdjusted(tables, open);
      hide FindingsOf, Continuity.Active, AdjustedAll;
      for i := 0 to |rows|
        invariant forall e <- rows :: e in tables.events && FindingsOf(tables, tables.events[e].lineage) != {}
        invariant open == AdjustedAll(tables, Continuity.Active(tables, tables.runs[r].pullRequest), rows[..i])
      {
        var e := rows[i];
        assert e in rows;
        NextAdjusted(tables, Continuity.Active(tables, tables.runs[r].pullRequest), rows, i);
        var l := tables.events[e].lineage;
        if tables.events[e].transition == Closed {
          open := open - {l};
        } else {
          open := open[l := Greatest(FindingsOf(tables, l))];
        }
      }
      assert rows[..|rows|] == rows;
    }
  }

  lemma NothingAdjusted(db: Tables, open: map<Id, Id>)
    ensures AdjustedAll(db, open, []) == open
  {
  }

  lemma NextAdjusted(db: Tables, open: map<Id, Id>, ids: seq<Id>, i: nat)
    requires i < |ids| && forall e <- ids :: e in db.events && FindingsOf(db, db.events[e].lineage) != {}
    ensures AdjustedAll(db, open, ids[..i + 1]) == Adjusted(db, AdjustedAll(db, open, ids[..i]), ids[i])
  {
    assert ids[..i + 1][..i] == ids[..i];
  }

  function Anchored(db: Tables, ids: seq<Id>, unanchored: set<Fingerprint>): seq<Id>
    requires forall e <- ids :: e in db.events
  {
    if ids == [] then [] else
      var e := ids[|ids| - 1];
      Anchored(db, ids[..|ids| - 1], unanchored) + (if Unanchored(db, e, unanchored) then [] else [e])
  }

  lemma NextAnchored(db: Tables, ids: seq<Id>, i: nat, unanchored: set<Fingerprint>)
    requires i < |ids| && forall e <- ids :: e in db.events
    ensures Anchored(db, ids[..i + 1], unanchored)
         == Anchored(db, ids[..i], unanchored) + (if Unanchored(db, ids[i], unanchored) then [] else [ids[i]])
  {
    assert ids[..i + 1][..i] == ids[..i];
  }

  lemma NextApplied(db: Tables, ids: seq<Id>, e: Id)
    requires forall d <- ids + [e] :: d in db.events && db.events[d].lineage in db.lineages
    ensures ApplyAll(db, ids + [e]) == ApplyOne(ApplyAll(db, ids), e)
  {
    assert (ids + [e])[..|ids|] == ids;
  }

  function Waiting(db: Tables, r: Id): set<Id> {
    set e <- db.events | db.events[e].run == r && e !in db.applied
  }

  function AnchoredSet(db: Tables, ids: set<Id>, unanchored: set<Fingerprint>): set<Id>
    requires forall e <- ids :: e in db.events
  {
    set e <- ids | !Unanchored(db, e, unanchored)
  }

  /** Skipping rows of an ordered result leaves the ordered result of the others. */
  lemma {:induction false} AnchoredInOrder(db: Tables, ids: set<Id>, unanchored: set<Fingerprint>)
    requires forall e <- ids :: e in db.events
    ensures Anchored(db, InOrder(ids), unanchored) == InOrder(AnchoredSet(db, ids, unanchored))
  {
    hide Unanchored;
    var kept := AnchoredSet(db, ids, unanchored);
    if ids != {} {
      var m := Greatest(ids);
      var rest := ids - {m};
      AnchoredInOrder(db, rest, unanchored);
      assert InOrder(ids) == InOrder(rest) + [m];
      assert InOrder(ids)[..|InOrder(rest)|] == InOrder(rest);
      if Unanchored(db, m, unanchored) {
        assert AnchoredSet(db, rest, unanchored) == kept;
      } else {
        assert m in kept && Greatest(kept) == m;
        assert AnchoredSet(db, rest, unanchored) == kept - {m};
      }
    } else {
      assert kept == {};
    }
  }

  lemma RejectionIsAnError(db: Tables, r: Id, unanchored: set<Fingerprint>, e: Id)
    requires e in Waiting(db, r) && !Unanchored(db, e, unanchored) && Rejected(db, e)
    ensures Activated(db, r, unanchored) == Err(LineageChanged)
  {
    assert e in Applicable(db, r, unanchored);
  }

  /** The loop has passed `done` of the waiting events and applied `ids` among them. */
  ghost predicate Progress(read: Tables, now: Tables, unanchored: set<Fingerprint>, done: seq<Id>, ids: seq<Id>) {
    && (forall e <- done :: e in read.events)
    && ids == Anchored(read, done, unanchored)
    && (forall e <- ids :: e in read.events && !Rejected(read, e))
    && (forall e <- ids :: read.events[e].lineage in read.lineages)
    && now == ApplyAll(read, ids)
  }

  lemma ProgressStarts(read: Tables, unanchored: set<Fingerprint>)
    ensures Progress(read, read, unanchored, [], [])
  {
  }

  lemma ProgressSkips(read: Tables, now: Tables, unanchored: set<Fingerprint>, waiting: seq<Id>, i: nat, ids: seq<Id>)
    requires i < |waiting| && Progress(read, now, unanchored, waiting[..i], ids)
    requires forall e <- waiting :: e in read.events
    requires Unanchored(read, waiting[i], unanchored)
    ensures Progress(read, now, unanchored, waiting[..i + 1], ids)
  {
    NextAnchored(read, waiting, i, unanchored);
    hide Unanchored, ApplyAll, Rejected, Anchored;
    assert forall e <- waiting[..i + 1] :: e in waiting;
  }

  lemma ProgressApplies(read: Tables, now: Tables, unanchored: set<Fingerprint>, waiting: seq<Id>, i: nat, ids: seq<Id>)
    requires i < |waiting| && Progress(read, now, unanchored, waiting[..i], ids)
    requires forall e <- waiting :: e in read.events
    requires !Unanchored(read, waiting[i], unanchored) && !Rejected(read, waiting[i])
    ensures waiting[i] in now.events && now.events[waiting[i]].lineage in now.lineages
    ensures Progress(read, ApplyOne(now, waiting[i]), unanchored, waiting[..i + 1], ids + [waiting[i]])
  {
    NextAnchored(read, waiting, i, unanchored);
    assert read.events[waiting[i]].lineage in read.lineages;
    NextApplied(read, ids, waiting[i]);
    hide Unanchored, ApplyAll, ApplyOne, Rejected, Anchored;
    assert forall e <- waiting[..i + 1] :: e in waiting;
  }

  lemma ProgressEnds(read: Tables, now: Tables, r: Id, unanchored: set<Fingerprint>, ids: seq<Id>)
    requires Wired(read) && Progress(read, now, unanchored, InOrder(Waiting(read, r)), ids)
    ensures Activated(read, r, unanchored) == Ok(now)
  {
    AnchoredInOrder(read, Waiting(read, r), unanchored);
    WaitingAreWired(read, r, unanchored);
    hide Wired, Anchored, ApplyAll, Unanchored, Rejected, Applicable;
    assert ids == InOrder(Applicable(read, r, unanchored));
  }

  lemma WaitingAreWired(db: Tables, r: Id, unanchored: set<Fingerprint>)
    requires Wired(db)
    ensures forall e <- Waiting(db, r) :: e in db.events && db.events[e].lineage in db.lineages
    ensures Applicable(db, r, unanchored) == AnchoredSet(db, Waiting(db, r), unanchored)
  {
    hide Unanchored;
    assert forall e <- db.events :: EventIsWired(db, db.events[e]);
  }

  lemma {:induction false} ErrorsStay(db: Tables, r: Id, findings: seq<Finding>, changes: seq<Change>, i: nat)
    requires r in db.runs && i <= |changes| && WithChanges(db, r, findings, changes[..i]).Err?
    ensures WithChanges(db, r, findings, changes) == Err(WithChanges(db, r, findings, changes[..i]).error)
  {
    if i == |changes| {
      assert changes[..i] == changes;
    } else {
      assert changes[..|changes| - 1][..i] == changes[..i];
      ErrorsStay(db, r, findings, changes[..|changes| - 1], i);
    }
  }

  lemma {:induction false} ThreadErrorsStay(db: Tables, r: Id, comments: seq<Comment>, i: nat)
    requires i <= |comments| && AllThreaded(db, r, comments[..i]).Err?
    ensures AllThreaded(db, r, comments) == Err(AllThreaded(db, r, comments[..i]).error)
  {
    if i == |comments| {
      assert comments[..i] == comments;
    } else {
      assert comments[..|comments| - 1][..i] == comments[..i];
      ThreadErrorsStay(db, r, comments[..|comments| - 1], i);
    }
  }

  lemma ThreadsRecordedKeep(db: Tables, r: Id, provider: string, comments: seq<Comment>)
    requires Invariant(db) && ThreadsRecorded(db, r, provider, comments).Ok?
    ensures Invariant(ThreadsRecorded(db, r, provider, comments).value)
  {
    var later := ThreadsRecorded(db, r, provider, comments).value;
    assert later == db.(threads := later.threads);
    hide Invariant, ThreadsRecorded;
    ThreadsKeep(db, later.threads);
  }

  lemma NoAppliedEvent(db: Tables, r: Id)
    requires Invariant(db) && r in db.runs && db.runs[r].status != RunStatus.Published
    ensures forall e <- db.events | e in db.applied || db.events[e].run != r :: db.events[e].run != r
    ensures forall e <- db.events | db.events[e].finding.Some? ::
              db.events[e].finding.value in db.findings
              && db.findings[db.events[e].finding.value].run == db.events[e].run
  {
    assert forall e <- db.events :: EventIsWired(db, db.events[e]);
    hide Keyed, Folded, Issued;
  }
}
