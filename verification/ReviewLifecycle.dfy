/** Which transaction moves which review run to which status, and what it takes away or applies. */
module ReviewLifecycle {
  import opened Wrappers
  import opened Rows
  import opened Lineage
  import opened LineageSteps
  import opened LineageIntake
  import opened ReviewStore

  // ---------------------------------------------------------------- unique keys

  predicate SameKey(a: Run, b: Run) {
    a.pullRequest == b.pullRequest && a.revision == b.revision && a.configuration == b.configuration
  }

  /** A job has one run, and so has a review of one revision under one configuration. */
  predicate UniqueRuns(runs: map<Id, Run>) {
    forall q, r | q in runs && r in runs && q != r :: runs[q].job != runs[r].job && !SameKey(runs[q], runs[r])
  }

  /** A run has one publication per provider. */
  predicate UniquePublications(publications: map<Id, Publication>) {
    forall p, q | p in publications && q in publications && p != q ::
      publications[p].run != publications[q].run || publications[p].provider != publications[q].provider
  }

  predicate Unique(db: Tables) { UniqueRuns(db.runs) && UniquePublications(db.publications) }

  lemma JobsRun(db: Tables, job: Id)
    ensures match RunOfJob(db, job)
            case Some(r) => r in db.runs && db.runs[r].job == job
            case None => forall r <- db.runs :: db.runs[r].job != job
  {
    var runs := set r <- db.runs | db.runs[r].job == job;
    assert RunOfJob(db, job) == Newest(runs);
    forall r <- db.runs ensures db.runs[r].job == job ==> r in runs {}
  }

  lemma ReviewsRun(db: Tables, pullRequest: Id, revision: string, configuration: string)
    ensures match RunOfReview(db, pullRequest, revision, configuration)
            case Some(r) => r in db.runs && SameReview(db.runs[r], pullRequest, revision, configuration)
            case None => forall r <- db.runs :: !SameReview(db.runs[r], pullRequest, revision, configuration)
  {
    hide SameReview;
    var runs := set r <- db.runs | SameReview(db.runs[r], pullRequest, revision, configuration);
    assert RunOfReview(db, pullRequest, revision, configuration) == Newest(runs);
    forall r <- db.runs ensures SameReview(db.runs[r], pullRequest, revision, configuration) ==> r in runs {}
  }

  lemma ProvidersPublication(db: Tables, r: Id, provider: string)
    ensures match PublicationOf(db, r, provider)
            case Some(p) => p in db.publications && db.publications[p].run == r && db.publications[p].provider == provider
            case None => forall p <- db.publications :: db.publications[p].run != r || db.publications[p].provider != provider
  {
    var known := set p <- db.publications | db.publications[p].run == r && db.publications[p].provider == provider;
    assert PublicationOf(db, r, provider) == Newest(known);
    forall p <- db.publications
      ensures db.publications[p].run == r && db.publications[p].provider == provider ==> p in known {}
  }

  lemma OneRunChanges(runs: map<Id, Run>, r: Id, run: Run)
    requires UniqueRuns(runs) && forall q <- runs | q != r :: runs[q].job != run.job && !SameKey(runs[q], run)
    ensures UniqueRuns(runs[r := run])
  {
  }

  lemma StatusesLeaveKeys(db: Tables, r: Id, from: set<RunStatus>, to: RunStatus)
    requires UniqueRuns(db.runs)
    ensures UniqueRuns(StatusIf(db, r, from, to).runs) && StatusIf(db, r, from, to).publications == db.publications
  {
  }

  lemma BeginningIsUnique(db: Tables, job: Id, pullRequest: Id, revision: string, configuration: string)
    requires Unique(db)
    ensures var b := Begun(db, job, pullRequest, revision, configuration); b.Ok? ==> Unique(b.value.0)
  {
    JobsRun(db, job);
    ReviewsRun(db, pullRequest, revision, configuration);
    hide UniquePublications, RunOfJob, RunOfReview;
    match RunOfJob(db, job)
    case Some(r) =>
    case None =>
      match RunOfReview(db, pullRequest, revision, configuration)
      case Some(r) => OneRunChanges(db.runs, r, db.runs[r].(job := job, status := Generating));
      case None => OneRunChanges(db.runs, db.serial, Run(job, pullRequest, revision, configuration, Generating, true));
  }

  lemma PublishingBeginsUnique(db: Tables, r: Id, provider: string)
    requires Unique(db)
    ensures var b := PublicationBegun(db, r, provider); b.Ok? ==> Unique(b.value.0)
  {
    ProvidersPublication(db, r, provider);
    StatusesLeaveKeys(db, r, {Ready, Publishing}, Publishing);
    hide PublicationOf, UniqueRuns, StatusIf;
    if PublicationBegun(db, r, provider).Ok? && PublicationOf(db, r, provider).None? {
      var begun := db.(publications := db.publications[db.serial := Publication(r, provider, false)], serial := db.serial + 1);
      StatusesLeaveKeys(begun, r, {Ready, Publishing}, Publishing);
    }
  }

  // ---------------------------------------------------------------- the row of a run after a transaction

  ghost predicate HasPublished(db: Tables, r: Id, provider: string) {
    exists p <- db.publications :: db.publications[p] == Publication(r, provider, true)
  }

  /** Another run has the review this one would have under a configuration. */
  ghost predicate Taken(db: Tables, r: Id, configuration: string)
    requires r in db.runs
  {
    exists q <- db.runs :: q != r && SameKey(db.runs[q], db.runs[r].(configuration := configuration))
  }

  /** What one transaction makes of a run's row: who may move it, from which status, to which, and nothing else. */
  ghost predicate RunBecomes(db: Tables, step: Step, r: Id, row: Run)
    requires r in db.runs
  {
    var run := db.runs[r];
    match step
    case Begin(job, pullRequest, revision, configuration) =>
      if run.status !in {Generating, RunStatus.Failed} then row == run
      else if run.job == job then
        row == if Taken(db, r, configuration) then run else run.(configuration := configuration, status := Generating)
      else if (forall q <- db.runs :: db.runs[q].job != job)
              && run.pullRequest == pullRequest && run.revision == revision && run.configuration == configuration
      then row == run.(job := job, status := Generating)
      else row == run
    case Persist(q, enabled, findings, changes) =>
      if q == r && Persisted(db, q, enabled, findings, changes).Ok?
      then run.status == Generating && row == run.(status := if enabled then Ready else RunStatus.Skipped, publishable := enabled)
      else row == run
    case Fail(q) => row == if q == r && run.status == Generating then run.(status := RunStatus.Failed) else run
    case Supersede(q, leaseHeld) =>
      row == if q == r && leaseHeld && run.status in {Generating, Ready, Publishing} then run.(status := Superseded) else run
    case Exhaust(job) =>
      row == if run.job == job && run.status in {Generating, Ready, Publishing} then run.(status := RunStatus.Failed) else run
    case BeginPublication(q, provider) =>
      row == if q == r && run.publishable && run.status in {Ready, Publishing} && !HasPublished(db, r, provider)
             then run.(status := Publishing) else run
    case Publish(p, q, provider, comments, unanchored) =>
      row == if p in db.publications && db.publications[p].run == r && FullyPublished(db, p, q, provider, comments, unanchored).Ok?
             then run.(status := RunStatus.Published) else run
    case FailPublication(p) =>
      row == if p in db.publications && db.publications[p].run == r && run.status == Publishing then run.(status := Ready) else run
  }

  lemma BeginningMoves(db: Tables, job: Id, pullRequest: Id, revision: string, configuration: string, r: Id)
    requires Unique(db) && Issued(db) && r in db.runs
    ensures var step := Begin(job, pullRequest, revision, configuration);
            r in After(db, step).runs && RunBecomes(db, step, r, After(db, step).runs[r])
  {
    JobsRun(db, job);
    ReviewsRun(db, pullRequest, revision, configuration);
    hide UniquePublications, RunOfJob, RunOfReview;
  }

  lemma PersistingMoves(db: Tables, q: Id, enabled: bool, findings: seq<Finding>, changes: seq<Change>, r: Id)
    requires Invariant(db) && r in db.runs
    ensures var step := Persist(q, enabled, findings, changes);
            r in After(db, step).runs && RunBecomes(db, step, r, After(db, step).runs[r])
  {
    PersistedIsGenerating(db, q, enabled, findings, changes);
    if Persisted(db, q, enabled, findings, changes).Ok? { ChangesLeaveRuns(Reported(db, q, enabled), q, findings, changes); }
    hide Invariant, WithChanges;
  }

  lemma {:induction false} ChangesLeaveRuns(db: Tables, r: Id, findings: seq<Finding>, changes: seq<Change>)
    requires r in db.runs && WithChanges(db, r, findings, changes).Ok?
    ensures WithChanges(db, r, findings, changes).value.runs == db.runs
    ensures WithChanges(db, r, findings, changes).value.publications == db.publications
  {
    if changes != [] {
      ChangesLeaveRuns(db, r, findings, changes[..|changes| - 1]);
      ChangeLeavesRuns(WithChanges(db, r, findings, changes[..|changes| - 1]).value, r,
                       OrdinalOf(findings, changes[|changes| - 1]), changes[|changes| - 1]);
      hide WithChange;
    }
  }

  lemma ChangeLeavesRuns(db: Tables, r: Id, ordinal: nat, change: Change)
    requires r in db.runs && WithChange(db, r, ordinal, change).Ok?
    ensures WithChange(db, r, ordinal, change).value.runs == db.runs
    ensures WithChange(db, r, ordinal, change).value.publications == db.publications
  {
  }

  lemma DiscardLeavesRuns(db: Tables, r: Id)
    ensures Discarded(db, r).runs == db.runs && Discarded(db, r).publications == db.publications
  {
  }

  lemma RetiringMoves(db: Tables, q: Id, leaseHeld: bool, r: Id)
    requires r in db.runs
    ensures r in Retired(db, q, leaseHeld).runs && RunBecomes(db, Supersede(q, leaseHeld), r, Retired(db, q, leaseHeld).runs[r])
  {
    DiscardLeavesRuns(db, q);
    hide Discarded;
  }

  lemma ExhaustingMoves(db: Tables, job: Id, r: Id)
    requires Unique(db) && r in db.runs
    ensures r in Exhausted(db, job).runs && RunBecomes(db, Exhaust(job), r, Exhausted(db, job).runs[r])
  {
    JobsRun(db, job);
    if RunOfJob(db, job).Some? { DiscardLeavesRuns(db, RunOfJob(db, job).value); }
    hide RunOfJob, UniquePublications, Discarded, SameKey;
  }

  lemma FailingMoves(db: Tables, q: Id, r: Id)
    requires r in db.runs
    ensures var later := StatusIf(db, q, {Generating}, RunStatus.Failed);
            r in later.runs && RunBecomes(db, Fail(q), r, later.runs[r])
  {
  }

  lemma PublishedIs(db: Tables, r: Id, provider: string)
    requires UniquePublications(db.publications)
    ensures HasPublished(db, r, provider)
            <==> PublicationOf(db, r, provider).Some? && PublicationOf(db, r, provider).value in db.publications
                 && db.publications[PublicationOf(db, r, provider).value].published
  {
    ProvidersPublication(db, r, provider);
    hide PublicationOf;
    if p :| p in db.publications && db.publications[p] == Publication(r, provider, true) {
      assert PublicationOf(db, r, provider) == Some(p);
    }
    match PublicationOf(db, r, provider)
    case Some(p) =>
      if db.publications[p].published { assert db.publications[p] == Publication(r, provider, true); }
    case None =>
  }

  lemma BeginningPublicationMoves(db: Tables, q: Id, provider: string, r: Id)
    requires Unique(db) && r in db.runs
    ensures var step := Step.BeginPublication(q, provider);
            r in After(db, step).runs && RunBecomes(db, step, r, After(db, step).runs[r])
  {
    ProvidersPublication(db, q, provider);
    PublishedIs(db, q, provider);
    hide PublicationOf, UniqueRuns, UniquePublications, HasPublished;
    if q != r { OthersStay(db, q, provider, r); }
  }

  lemma OthersStay(db: Tables, q: Id, provider: string, r: Id)
    requires r in db.runs && q != r
    ensures var begun := PublicationBegun(db, q, provider);
            begun.Ok? ==> r in begun.value.0.runs && begun.value.0.runs[r] == db.runs[r]
  {
    hide PublicationOf;
  }

  lemma FailingPublicationMoves(db: Tables, p: Id, r: Id)
    requires r in db.runs
    ensures r in After(db, FailPublication(p)).runs && RunBecomes(db, FailPublication(p), r, After(db, FailPublication(p)).runs[r])
  {
  }

  lemma PublishingMoves(db: Tables, p: Id, q: Id, provider: string, comments: seq<Comment>, unanchored: set<Fingerprint>, r: Id)
    requires r in db.runs
    ensures var step := Publish(p, q, provider, comments, unanchored);
            r in After(db, step).runs && RunBecomes(db, step, r, After(db, step).runs[r])
  {
    if FullyPublished(db, p, q, provider, comments, unanchored).Ok? {
      PublishedRuns(db, p, q, provider, comments, unanchored);
    }
    hide FullyPublished;
  }

  /** A publication that goes through marks itself and its run, and touches no other run or publication. */
  lemma PublishedRuns(db: Tables, p: Id, q: Id, provider: string, comments: seq<Comment>, unanchored: set<Fingerprint>)
    requires FullyPublished(db, p, q, provider, comments, unanchored).Ok?
    ensures var later := FullyPublished(db, p, q, provider, comments, unanchored).value;
            && p in db.publications && later.publications == db.publications[p := db.publications[p].(published := true)]
            && var r := db.publications[p].run;
            later.runs == if r in db.runs then db.runs[r := db.runs[r].(status := RunStatus.Published)] else db.runs
  {
    hide AllThreaded, Applicable, Rejected;
  }

  /** Every transaction moves the runs as the table says, loses none, and begins none but a new one for a new job and review. */
  lemma RunsMoveExactly(db: Tables, step: Step, r: Id)
    requires Invariant(db) && Unique(db) && r in db.runs
    ensures r in After(db, step).runs && RunBecomes(db, step, r, After(db, step).runs[r])
  {
    IssuedIn(db);
    hide Invariant, Unique, RunBecomes, FullyPublished, Persisted, Begun, PublicationBegun, PublicationFailed, Retired, Exhausted, StatusIf;
    match step
    case Begin(job, pullRequest, revision, configuration) => BeginningMoves(db, job, pullRequest, revision, configuration, r);
    case Persist(q, enabled, findings, changes) => PersistingMoves(db, q, enabled, findings, changes, r);
    case Fail(q) => FailingMoves(db, q, r);
    case Supersede(q, leaseHeld) => RetiringMoves(db, q, leaseHeld, r);
    case Exhaust(job) => ExhaustingMoves(db, job, r);
    case BeginPublication(q, provider) => BeginningPublicationMoves(db, q, provider, r);
    case Publish(p, q, provider, comments, unanchored) => PublishingMoves(db, p, q, provider, comments, unanchored, r);
    case FailPublication(p) => FailingPublicationMoves(db, p, r);
  }

  lemma IssuedIn(db: Tables)
    requires Invariant(db)
    ensures Issued(db) && Wired(db)
  {
  }

  /** Only `Begin` makes a run, for a job that has none and a review that has none. */
  lemma RunsAreBegun(db: Tables, step: Step, r: Id)
    requires Invariant(db) && r !in db.runs && r in After(db, step).runs
    ensures step.Begin? && r == db.serial && (forall q <- db.runs :: db.runs[q].job != step.job)
    ensures After(db, step).runs[r] == Run(step.job, step.pullRequest, step.revision, step.configuration, Generating, true)
    ensures forall q <- db.runs :: !SameKey(db.runs[q], After(db, step).runs[r])
  {
    hide Invariant, After;
    if step.Begin? {
      NewRunIsBegun(db, step.job, step.pullRequest, step.revision, step.configuration, r);
    } else {
      OtherStepsLeaveRunKeys(db, step);
    }
  }

  lemma NewRunIsBegun(db: Tables, job: Id, pullRequest: Id, revision: string, configuration: string, r: Id)
    requires r !in db.runs && r in After(db, Begin(job, pullRequest, revision, configuration)).runs
    ensures var run := Run(job, pullRequest, revision, configuration, Generating, true);
            && r == db.serial && After(db, Begin(job, pullRequest, revision, configuration)).runs[r] == run
            && forall q <- db.runs :: db.runs[q].job != job && !SameKey(db.runs[q], run)
  {
    JobsRun(db, job);
    ReviewsRun(db, pullRequest, revision, configuration);
    hide RunOfJob, RunOfReview;
  }

  lemma OtherStepsLeaveRunKeys(db: Tables, step: Step)
    requires !step.Begin?
    ensures After(db, step).runs.Keys == db.runs.Keys
  {
    hide FullyPublished, Persisted, Retired, Exhausted, PublicationBegun, PublicationFailed;
    match step
    case Persist(q, enabled, findings, changes) =>
      if Persisted(db, q, enabled, findings, changes).Ok? { PersistedRuns(db, q, enabled, findings, changes); }
    case Fail(q) =>
    case Supersede(q, leaseHeld) => GivingUpLeavesRunKeys(db, q, leaseHeld, 0);
    case Exhaust(job) => GivingUpLeavesRunKeys(db, 0, true, job);
    case BeginPublication(q, provider) => PublishingLeavesRunKeys(db, q, provider, 0);
    case FailPublication(p) => PublishingLeavesRunKeys(db, 0, "", p);
    case Publish(p, q, provider, comments, unanchored) =>
      if FullyPublished(db, p, q, provider, comments, unanchored).Ok? {
        PublishedRuns(db, p, q, provider, comments, unanchored);
      }
  }

  lemma GivingUpLeavesRunKeys(db: Tables, q: Id, leaseHeld: bool, job: Id)
    ensures Retired(db, q, leaseHeld).runs.Keys == db.runs.Keys && Exhausted(db, job).runs.Keys == db.runs.Keys
  {
    JobsRun(db, job);
    DiscardLeavesRuns(db, q);
    if RunOfJob(db, job).Some? { DiscardLeavesRuns(db, RunOfJob(db, job).value); }
    hide Discarded, RunOfJob;
  }

  lemma PublishingLeavesRunKeys(db: Tables, q: Id, provider: string, p: Id)
    ensures PublicationBegun(db, q, provider).Ok? ==> PublicationBegun(db, q, provider).value.0.runs.Keys == db.runs.Keys
    ensures PublicationFailed(db, p).runs.Keys == db.runs.Keys
  {
    hide PublicationOf;
  }

  lemma PersistedRuns(db: Tables, q: Id, enabled: bool, findings: seq<Finding>, changes: seq<Change>)
    requires Persisted(db, q, enabled, findings, changes).Ok?
    ensures q in db.runs && db.runs[q].status == Generating
    ensures var later := Persisted(db, q, enabled, findings, changes).value;
            && later.publications == db.publications
            && later.runs == db.runs[q := db.runs[q].(status := if enabled then Ready else RunStatus.Skipped, publishable := enabled)]
  {
    ChangesLeaveRuns(Reported(db, q, enabled), q, findings, changes);
    hide WithChanges;
  }

  /** A publication begins exactly for a publishable run that is ready, publishing or published; it is the run's only one for the provider. */
  lemma PublicationsBeginExactly(db: Tables, r: Id, provider: string)
    ensures var b := PublicationBegun(db, r, provider);
            && (b.Ok? <==> r in db.runs && db.runs[r].publishable && db.runs[r].status in {Ready, Publishing, RunStatus.Published})
            && (b.Ok? ==>
                  var (later, p) := b.value;
                  if exists q <- db.publications :: db.publications[q].run == r && db.publications[q].provider == provider
                  then later.publications == db.publications && p in db.publications
                       && db.publications[p].run == r && db.publications[p].provider == provider
                  else later.publications == db.publications[db.serial := Publication(r, provider, false)] && p == db.serial)
  {
    ProvidersPublication(db, r, provider);
    hide PublicationOf;
  }

  lemma SameKeysStayUnique(runs: map<Id, Run>, later: map<Id, Run>)
    requires UniqueRuns(runs) && later.Keys == runs.Keys
    requires forall r <- runs :: later[r].job == runs[r].job && SameKey(later[r], runs[r])
    ensures UniqueRuns(later)
  {
  }

  lemma StepIsUnique(db: Tables, step: Step)
    requires Unique(db)
    ensures Unique(After(db, step))
  {
    hide UniqueRuns, UniquePublications, FullyPublished, Persisted, Begun, PublicationBegun, Discarded, RunOfJob;
    match step
    case Begin(job, pullRequest, revision, configuration) => BeginningIsUnique(db, job, pullRequest, revision, configuration);
    case Persist(q, enabled, findings, changes) =>
      if Persisted(db, q, enabled, findings, changes).Ok? {
        PersistedRuns(db, q, enabled, findings, changes);
        SameKeysStayUnique(db.runs, Persisted(db, q, enabled, findings, changes).value.runs);
      }
    case Fail(q) => StatusesLeaveKeys(db, q, {Generating}, RunStatus.Failed);
    case Supersede(q, leaseHeld) =>
      DiscardLeavesRuns(db, q);
      StatusesLeaveKeys(Discarded(db, q), q, UNFINISHED, Superseded);
    case Exhaust(job) =>
      match RunOfJob(db, job) {
        case Some(q) =>
          DiscardLeavesRuns(db, q);
          StatusesLeaveKeys(Discarded(db, q), q, UNFINISHED, RunStatus.Failed);
        case None =>
      }
    case BeginPublication(q, provider) => PublishingBeginsUnique(db, q, provider);
    case Publish(p, q, provider, comments, unanchored) =>
      if FullyPublished(db, p, q, provider, comments, unanchored).Ok? {
        PublishedRuns(db, p, q, provider, comments, unanchored);
        MarkingLeavesUnique(db.publications, p, true);
        SameKeysStayUnique(db.runs, FullyPublished(db, p, q, provider, comments, unanchored).value.runs);
      }
    case FailPublication(p) =>
      if p in db.publications {
        MarkingLeavesUnique(db.publications, p, false);
        StatusesLeaveKeys(db, db.publications[p].run, {Publishing}, Ready);
      }
  }

  lemma MarkingLeavesUnique(publications: map<Id, Publication>, p: Id, published: bool)
    requires UniquePublications(publications) && p in publications
    ensures UniquePublications(publications[p := publications[p].(published := published)])
  {
  }

  /** In every run of the store, jobs, reviews and publications stay unique, and each transaction moves the runs as the table says. */
  lemma {:induction false} RunsMoveInEveryExecution(states: seq<Tables>, steps: seq<Step>, i: nat, r: Id)
    requires Execution(states, steps) && i < |states|
    ensures Unique(states[i])
    ensures i + 1 < |states| && r in states[i].runs ==>
              i < |steps| && r in states[i + 1].runs && RunBecomes(states[i], steps[i], r, states[i + 1].runs[r])
  {
    hide *;
    if i == 0 {
      NothingIsUnique(states, steps);
    } else {
      RunsMoveInEveryExecution(states, steps, i - 1, r);
      StepAt(states, steps, i - 1);
      StepIsUnique(states[i - 1], steps[i - 1]);
    }
    if i + 1 < |states| && r in states[i].runs {
      EveryRunKeepsTheInvariant(states, steps, i);
      StepAt(states, steps, i);
      RunsMoveExactly(states[i], steps[i], r);
    }
  }

  lemma NothingIsUnique(states: seq<Tables>, steps: seq<Step>)
    requires Execution(states, steps)
    ensures Unique(states[0])
  {
  }

  // ---------------------------------------------------------------- what is taken away, and what is applied

  /** A discard takes a run's unapplied events, its findings, and the pending lineages it was the first to see, with what hangs on them. */
  lemma DiscardRemovesExactly(db: Tables, r: Id)
    requires r in db.runs
    ensures db.runs[r].status in {RunStatus.Published, RunStatus.Skipped} ==> Discarded(db, r) == db
    ensures db.runs[r].status !in {RunStatus.Published, RunStatus.Skipped} ==>
              var later := Discarded(db, r);
              && (forall l :: l in later.lineages
                    <==> l in db.lineages && !(db.lineages[l].status == Status.Pending && db.lineages[l].firstSeen == r))
              && (forall f <- db.findings | db.findings[f].lineage in db.lineages ::
                    f in later.findings <==> db.findings[f].run != r && db.findings[f].lineage in later.lineages)
              && (forall e <- db.events | db.events[e].lineage in db.lineages ::
                    e in later.events <==> (db.events[e].run == r ==> e in db.applied) && db.events[e].lineage in later.lineages)
              && (forall l <- db.threads | l in db.lineages :: l in later.threads <==> l in later.lineages)
              && later.applied == db.applied && later.runs == db.runs
  {
  }

  /** Giving a run up discards its projection, unless it is already superseded when its job is exhausted. */
  lemma GivingUpDiscards(db: Tables, r: Id, leaseHeld: bool, job: Id)
    requires Unique(db) && r in db.runs && db.runs[r].job == job
    ensures Retired(db, r, leaseHeld).(runs := db.runs) == if leaseHeld then Discarded(db, r) else db
    ensures Exhausted(db, job).(runs := db.runs) == if db.runs[r].status == Superseded then db else Discarded(db, r)
  {
    hide RunOfJob, Discarded, UniquePublications;
    JobsRun(db, job);
    DiscardLeavesRuns(db, r);
    if db.runs[r].status in {RunStatus.Published, RunStatus.Skipped} { SettledKeepProjection(db, r); }
  }

  lemma SettledKeepProjection(db: Tables, r: Id)
    requires r in db.runs && db.runs[r].status in {RunStatus.Published, RunStatus.Skipped}
    ensures Discarded(db, r) == db
  {
  }

  /** Publishing applies exactly the run's unapplied events but those of new findings that got no thread and were not anchored. */
  lemma PublishingAppliesExactly(db: Tables, p: Id, q: Id, provider: string, comments: seq<Comment>, unanchored: set<Fingerprint>,
                                 e: Id)
    requires FullyPublished(db, p, q, provider, comments, unanchored).Ok? && p in db.publications && e in db.events
    ensures var later := FullyPublished(db, p, q, provider, comments, unanchored).value;
            e in later.applied
            <==> e in db.applied
                 || (db.events[e].run == db.publications[p].run
                     && !(&& db.events[e].transition == New && db.events[e].lineage !in later.threads
                          && db.events[e].finding.Some? && db.events[e].finding.value in db.findings
                          && db.findings[db.events[e].finding.value].finding.fingerprint in unanchored))
  {
    hide AllThreaded, Rejected, ApplyAll;
  }

  /** The lineage of the run's new finding with the comment's fingerprint has the comment's thread. */
  ghost predicate Hangs(db: Tables, r: Id, comment: Comment) {
    exists e :: && IsNewFor(db, r, comment.fingerprint, e) && db.events[e].lineage in db.threads
                && db.threads[db.events[e].lineage] == comment.root
  }

  /** Recording threads succeeds only if every comment finds its lineage; then each has its thread, and no thread moves. */
  lemma {:induction false} ThreadsAreRecorded(db: Tables, r: Id, comments: seq<Comment>)
    requires AllThreaded(db, r, comments).Ok?
    ensures var later := AllThreaded(db, r, comments).value;
            && (forall c <- comments :: Hangs(later, r, c))
            && (forall l <- db.threads :: l in later.threads && later.threads[l] == db.threads[l])
            && later == db.(threads := later.threads)
  {
    if comments != [] {
      var init, last := comments[..|comments| - 1], comments[|comments| - 1];
      ThreadsAreRecorded(db, r, init);
      var before := AllThreaded(db, r, init).value;
      OneThreadIsRecorded(before, r, last);
      var later := Threaded(before, r, last).value;
      assert AllThreaded(db, r, comments) == Ok(later) && comments == init + [last];
      hide AllThreaded, Threaded, Hangs;
      forall c <- comments ensures Hangs(later, r, c) {
        if c in init { ThreadsStay(before, later, r, c); }
      }
    }
  }

  lemma OneThreadIsRecorded(db: Tables, r: Id, comment: Comment)
    requires Threaded(db, r, comment).Ok?
    ensures var later := Threaded(db, r, comment).value;
            && Hangs(later, r, comment) && later == db.(threads := later.threads)
            && forall l <- db.threads :: l in later.threads && later.threads[l] == db.threads[l]
  {
    NewEventsAre(db, r, comment.fingerprint);
    var later := Threaded(db, r, comment).value;
    var e := NewEventFor(db, r, comment.fingerprint).value;
    hide NewEventFor;
    assert IsNewFor(later, r, comment.fingerprint, e);
  }

  lemma ThreadsStay(db: Tables, later: Tables, r: Id, comment: Comment)
    requires Hangs(db, r, comment) && later == db.(threads := later.threads)
    requires forall l <- db.threads :: l in later.threads && later.threads[l] == db.threads[l]
    ensures Hangs(later, r, comment)
  {
    var e :| && IsNewFor(db, r, comment.fingerprint, e) && db.events[e].lineage in db.threads
             && db.threads[db.events[e].lineage] == comment.root;
    assert IsNewFor(later, r, comment.fingerprint, e);
  }

  /** An event that publishing applies moves its lineage: closed ones are addressed by the run, any other is active and last seen in it. */
  lemma PublishingMovesLineages(db: Tables, p: Id, q: Id, provider: string, comments: seq<Comment>, unanchored: set<Fingerprint>,
                                e: Id)
    requires Invariant(db) && FullyPublished(db, p, q, provider, comments, unanchored).Ok? && p in db.publications
    requires e in db.events && e !in db.applied
    requires e in FullyPublished(db, p, q, provider, comments, unanchored).value.applied
    ensures var later, l, r := FullyPublished(db, p, q, provider, comments, unanchored).value, db.events[e].lineage, db.events[e].run;
            && l in db.lineages && l in later.lineages && r == db.publications[p].run
            && later.lineages[l] == if db.events[e].transition == Closed
                                    then db.lineages[l].(status := Status.Addressed, addressedBy := Some(r))
                                    else db.lineages[l].(status := Status.Active, lastSeen := Some(r), addressedBy := None)
  {
    var threaded := ThreadsRecorded(db, q, provider, comments).value;
    assert threaded == db.(threads := threaded.threads);
    hide Invariant, ThreadsRecorded, Unanchored, ApplyAll, Rejected;
    ThreadsKeep(db, threaded.threads);
    var marked := threaded.(publications := db.publications[p := db.publications[p].(published := true)]);
    PublicationMarkKeeps(threaded, p, true);
    ConsistentParts(marked);
    var r := db.publications[p].run;
    ApplicableApplies(marked, r, unanchored);
    ApplyAllByLineage(marked, InOrder(Applicable(marked, r, unanchored)));
  }

  lemma ConsistentParts(db: Tables)
    requires Invariant(db)
    ensures Wired(db) && Keyed(db)
  {
  }
}
