/** What each transaction of the review store leaves in the tables. */
module LineageSteps {
  import opened Wrappers
  import opened Rows
  import opened Lineage

  datatype Failure =
    | UniqueViolation | ForeignKeyViolation | NotNullViolation | CheckViolation
    | InvalidPath | NotGeneratable | FingerprintCollision | LineageChanged
    | NotPublishable | UnknownPublication | UnmappedComment | ThreadConflict | UnsupportedProvider

  // ---------------------------------------------------------------- run status

  function WithStatus(db: Tables, r: Id, status: RunStatus): Tables
    requires r in db.runs
  {
    db.(runs := db.runs[r := db.runs[r].(status := status)])
  }

  function StatusIf(db: Tables, r: Id, from: set<RunStatus>, to: RunStatus): Tables {
    if r in db.runs && db.runs[r].status in from then WithStatus(db, r, to) else db
  }

  const UNFINISHED := {Generating, Ready, Publishing}

  function RunOfJob(db: Tables, job: Id): Option<Id> { Newest(set r <- db.runs | db.runs[r].job == job) }

  predicate SameReview(run: Run, pullRequest: Id, revision: string, configuration: string) {
    run.pullRequest == pullRequest && run.revision == revision && run.configuration == configuration
  }

  function RunOfReview(db: Tables, pullRequest: Id, revision: string, configuration: string): Option<Id> {
    Newest(set r <- db.runs | SameReview(db.runs[r], pullRequest, revision, configuration))
  }

  /** A job's own run is regenerated, then a run of the same review, and otherwise one is inserted. */
  function Begun(db: Tables, job: Id, pullRequest: Id, revision: string, configuration: string)
    : Result<(Tables, Id), Failure>
  {
    match RunOfJob(db, job)
    case Some(r) =>
      var run := db.runs[r];
      if run.status != Failed && run.status != Generating then Ok((db, r))
      else if exists q <- db.runs :: q != r && SameReview(db.runs[q], run.pullRequest, run.revision, configuration)
      then Err(UniqueViolation)
      else Ok((db.(runs := db.runs[r := run.(configuration := configuration, status := Generating)]), r))
    case None =>
      match RunOfReview(db, pullRequest, revision, configuration)
      case Some(r) =>
        var run := db.runs[r];
        if run.status != Failed && run.status != Generating then Ok((db, r))
        else Ok((db.(runs := db.runs[r := run.(job := job, status := Generating)]), r))
      case None =>
        var run := Run(job, pullRequest, revision, configuration, Generating, true);
        Ok((db.(runs := db.runs[db.serial := run], serial := db.serial + 1), db.serial))
  }

  // ---------------------------------------------------------------- discarding a run's projection

  function Dead(db: Tables, r: Id): set<Id> {
    set l <- db.lineages | db.lineages[l].status == Pending && db.lineages[l].firstSeen == r
  }

  /** The run's provisional events, its findings and the lineages only it has seen, with what hangs on them. */
  function Cleared(db: Tables, r: Id): Tables {
    var dead := Dead(db, r);
    db.(
      lineages := map l <- db.lineages | l !in dead :: db.lineages[l],
      findings := map f <- db.findings | db.findings[f].run != r && db.findings[f].lineage !in dead :: db.findings[f],
      events := map e <- db.events | db.events[e].lineage !in dead && (db.events[e].run == r ==> e in db.applied)
                :: db.events[e],
      threads := map l <- db.threads | l !in dead :: db.threads[l])
  }

  function Discarded(db: Tables, r: Id): Tables {
    if r in db.runs && db.runs[r].status != Published && db.runs[r].status != RunStatus.Skipped
    then Cleared(db, r) else db
  }

  function Retired(db: Tables, r: Id, leaseHeld: bool): Tables {
    if r in db.runs && leaseHeld then StatusIf(Discarded(db, r), r, UNFINISHED, Superseded) else db
  }

  function Exhausted(db: Tables, job: Id): Tables {
    match RunOfJob(db, job)
    case None => db
    case Some(r) =>
      if db.runs[r].status in {Published, RunStatus.Skipped, Superseded} then db
      else StatusIf(Discarded(db, r), r, UNFINISHED, Failed)
  }

  lemma ClearedKeepsApplied(db: Tables, r: Id)
    requires Invariant(db) && r in db.runs && db.runs[r].status != Published
    ensures forall e <- db.applied :: e in Cleared(db, r).events && Cleared(db, r).events[e] == db.events[e]
    ensures forall e <- db.applied | db.events[e].finding.Some? :: db.events[e].finding.value in Cleared(db, r).findings
  {
    forall e <- db.applied ensures db.events[e].lineage !in Dead(db, r) {
      PendingHasNoApplied(db, db.events[e].lineage);
    }
  }

  lemma ClearedWiresEvents(db: Tables, r: Id, e: Id)
    requires Wired(db) && e in Cleared(db, r).events && (e in db.applied ==> db.events[e].run != r)
    ensures EventIsWired(Cleared(db, r), db.events[e])
  {
    assert EventIsWired(db, db.events[e]);
  }

  lemma ClearedIsWired(db: Tables, r: Id)
    requires Invariant(db) && r in db.runs && db.runs[r].status != Published
    ensures Wired(Cleared(db, r))
  {
    hide Fold, History, Folded, Keyed, Issued, EventIsWired;
    forall e <- Cleared(db, r).events ensures EventIsWired(Cleared(db, r), Cleared(db, r).events[e]) {
      ClearedWiresEvents(db, r, e);
    }
  }

  lemma ClearedIsKeyed(db: Tables, r: Id)
    requires Invariant(db) && r in db.runs && db.runs[r].status != Published
    ensures Keyed(Cleared(db, r)) && Issued(Cleared(db, r)) && Journaled(Cleared(db, r))
  {
    ClearedKeepsApplied(db, r);
    hide Fold, History, Folded, Wired, EventIsWired;
  }

  lemma ClearedIsFolded(db: Tables, r: Id)
    requires Invariant(db) && r in db.runs && db.runs[r].status != Published
    ensures Invariant(Cleared(db, r))
  {
    ClearedKeepsApplied(db, r);
    ClearedIsWired(db, r);
    ClearedIsKeyed(db, r);
    var later := Cleared(db, r);
    hide Wired, EventIsWired, Keyed, Issued, Fold;
    forall l <- later.lineages
      ensures Fold(History(later.events, later.applied, l)) == Some(later.lineages[l].status)
    {
      HistoryReadsAppliedEvents(db.events, later.events, db.applied, l);
    }
  }

  lemma ClearedKeeps(db: Tables, r: Id)
    requires Invariant(db) && r in db.runs && db.runs[r].status != Published
    ensures Keeps(db, Cleared(db, r))
  {
    ClearedKeepsApplied(db, r);
    hide Wired, EventIsWired, Keyed, Issued, Folded, Fold, History, Settled;
  }

  // ---------------------------------------------------------------- steps that only touch runs

  predicate OnlyRuns(db: Tables, later: Tables) {
    later == db.(runs := later.runs, publications := later.publications, serial := later.serial)
    && db.serial <= later.serial
    && (forall p <- later.publications :: p < later.serial && later.publications[p].run in later.runs)
    && (forall r <- later.runs :: r < later.serial)
    && (forall r <- db.runs :: r in later.runs && later.runs[r].pullRequest == db.runs[r].pullRequest)
  }

  lemma OnlyRunsIsWired(db: Tables, later: Tables)
    requires Wired(db) && OnlyRuns(db, later)
    ensures Wired(later)
  {
    forall e <- later.events ensures EventIsWired(later, later.events[e]) {
      assert EventIsWired(db, db.events[e]);
    }
  }

  lemma OnlyRunsIsSettled(db: Tables, later: Tables)
    requires Invariant(db) && OnlyRuns(db, later) && KeepsPublished(db, later) && Wired(later)
    ensures Settled(later)
  {
    assert later.events == db.events && later.applied == db.applied;
    hide Keyed, Issued, Folded, OnlyRuns;
    forall e <- later.applied ensures later.runs[later.events[e].run].status == Published {
      assert EventIsWired(db, db.events[e]);
    }
  }

  lemma OnlyRunsKeeps(db: Tables, later: Tables)
    requires Invariant(db) && OnlyRuns(db, later) && KeepsPublished(db, later)
    ensures Invariant(later) && Keeps(db, later)
  {
    OnlyRunsIsWired(db, later);
    OnlyRunsIsSettled(db, later);
    hide Fold, History, Wired, Settled;
  }

  lemma RunChangeKeeps(db: Tables, r: Id, run: Run)
    requires Invariant(db) && r in db.runs && run.pullRequest == db.runs[r].pullRequest
    requires db.runs[r].status == Published ==> run.status == Published
    ensures Invariant(db.(runs := db.runs[r := run])) && Keeps(db, db.(runs := db.runs[r := run]))
  {
    var later := db.(runs := db.runs[r := run]);
    assert OnlyRuns(db, later) && KeepsPublished(db, later) by {
      hide Folded, Settled, Keyed, Journaled, EventIsWired;
    }
    OnlyRunsKeeps(db, later);
  }

  lemma StatusKeeps(db: Tables, r: Id, status: RunStatus)
    requires Invariant(db) && r in db.runs && (db.runs[r].status == Published ==> status == Published)
    ensures Invariant(WithStatus(db, r, status)) && Keeps(db, WithStatus(db, r, status))
  {
    RunChangeKeeps(db, r, db.runs[r].(status := status));
  }

  lemma NewRunKeeps(db: Tables, run: Run)
    requires Invariant(db)
    ensures var later := db.(runs := db.runs[db.serial := run], serial := db.serial + 1);
            Invariant(later) && Keeps(db, later)
  {
    var later := db.(runs := db.runs[db.serial := run], serial := db.serial + 1);
    assert OnlyRuns(db, later) && KeepsPublished(db, later) by {
      hide Folded, Settled, Keyed, Journaled, EventIsWired;
    }
    OnlyRunsKeeps(db, later);
  }

  lemma BegunKeeps(db: Tables, job: Id, pullRequest: Id, revision: string, configuration: string)
    requires Invariant(db)
    ensures var b := Begun(db, job, pullRequest, revision, configuration);
            b.Ok? ==> Invariant(b.value.0) && Keeps(db, b.value.0) && b.value.1 in b.value.0.runs
  {
    hide Invariant, Keeps, SameReview;
    NothingLost(db);
    match RunOfJob(db, job)
    case Some(r) =>
      if db.runs[r].status != Published {
        RunChangeKeeps(db, r, db.runs[r].(configuration := configuration, status := Generating));
      }
    case None =>
      match RunOfReview(db, pullRequest, revision, configuration)
      case Some(r) =>
        if db.runs[r].status != Published {
          RunChangeKeeps(db, r, db.runs[r].(job := job, status := Generating));
        }
      case None => NewRunKeeps(db, Run(job, pullRequest, revision, configuration, Generating, true));
  }

  lemma DiscardedKeeps(db: Tables, r: Id)
    requires Invariant(db)
    ensures Invariant(Discarded(db, r)) && Keeps(db, Discarded(db, r))
  {
    hide Invariant, Cleared, Keeps;
    if Discarded(db, r) == db {
      NothingLost(db);
    } else {
      ClearedIsFolded(db, r);
      ClearedKeeps(db, r);
    }
  }

  lemma NothingLost(db: Tables)
    ensures Keeps(db, db)
  {
  }

  lemma StatusIfKeeps(db: Tables, r: Id, from: set<RunStatus>, to: RunStatus)
    requires Invariant(db) && Published !in from
    ensures Invariant(StatusIf(db, r, from, to)) && Keeps(db, StatusIf(db, r, from, to))
  {
    hide Invariant, Keeps, WithStatus;
    NothingLost(db);
    if r in db.runs && db.runs[r].status in from { StatusKeeps(db, r, to); }
  }

  /** Giving a run up, for a newer event or for good, loses nothing that was applied. */
  lemma GivingUpKeeps(db: Tables, r: Id, to: RunStatus)
    requires Invariant(db)
    ensures var later := StatusIf(Discarded(db, r), r, UNFINISHED, to); Invariant(later) && Keeps(db, later)
  {
    DiscardedKeeps(db, r);
    StatusIfKeeps(Discarded(db, r), r, UNFINISHED, to);
    KeepingIsTransitive(db, Discarded(db, r), StatusIf(Discarded(db, r), r, UNFINISHED, to)) by {
      hide Wired, Keyed, Issued, Folded, Settled, Keeps, Discarded, StatusIf;
    }
  }

  // ---------------------------------------------------------------- applying a published run's events

  /** The lineage row after one of its events. */
  function Moved(row: LineageRow, event: Event): LineageRow {
    if event.transition == Closed then row.(status := Addressed, addressedBy := Some(event.run))
    else row.(status := Active, lastSeen := Some(event.run), addressedBy := None)
  }

  function ApplyOne(db: Tables, e: Id): Tables
    requires e in db.events && db.events[e].lineage in db.lineages
  {
    var event := db.events[e];
    db.(lineages := db.lineages[event.lineage := Moved(db.lineages[event.lineage], event)], applied := db.applied + [e])
  }

  function ApplyAll(db: Tables, ids: seq<Id>): (later: Tables)
    requires forall e <- ids :: e in db.events && db.events[e].lineage in db.lineages
    ensures later == db.(lineages := later.lineages, applied := db.applied + ids)
    ensures later.lineages.Keys == db.lineages.Keys
  {
    if ids == [] then db else
      assert ids == ids[..|ids| - 1] + [ids[|ids| - 1]];
      ApplyOne(ApplyAll(db, ids[..|ids| - 1]), ids[|ids| - 1])
  }

  function FingerprintOf(db: Tables, e: Id): Option<Fingerprint>
    requires e in db.events
  {
    match db.events[e].finding
    case Some(f) => if f in db.findings then Some(db.findings[f].finding.fingerprint) else None
    case None => None
  }

  /** A new finding that publication could not anchor to a thread stays provisional. */
  predicate Unanchored(db: Tables, e: Id, unanchored: set<Fingerprint>)
    requires e in db.events
  {
    && db.events[e].transition == New && db.events[e].lineage !in db.threads
    && FingerprintOf(db, e).Some? && FingerprintOf(db, e).value in unanchored
  }

  function Applicable(db: Tables, r: Id, unanchored: set<Fingerprint>): set<Id> {
    set e <- db.events | db.events[e].run == r && e !in db.applied && !Unanchored(db, e, unanchored)
  }

  /** The lineage has moved on since the event was derived (a stored event's lineage always exists). */
  predicate Rejected(db: Tables, e: Id)
    requires e in db.events
  {
    || db.events[e].lineage !in db.lineages
    || db.lineages[db.events[e].lineage].status != Expected(db.events[e].transition)
  }

  function Activated(db: Tables, r: Id, unanchored: set<Fingerprint>): Result<Tables, Failure> {
    var ids := Applicable(db, r, unanchored);
    if exists e <- ids :: Rejected(db, e) then Err(LineageChanged) else Ok(ApplyAll(db, InOrder(ids)))
  }

  /** Events of one run that can all be applied: stored, waiting, and on lineages of their own. */
  predicate Applies(db: Tables, ids: seq<Id>) {
    && Distinct(ids)
    && (forall e <- ids :: e in db.events && e !in db.applied && !Rejected(db, e))
    && (forall d, e | d in ids && e in ids && d != e :: db.events[d].lineage != db.events[e].lineage)
  }

  lemma ApplicableApplies(db: Tables, r: Id, unanchored: set<Fingerprint>)
    requires Wired(db) && Keyed(db) && Activated(db, r, unanchored).Ok?
    ensures Applies(db, InOrder(Applicable(db, r, unanchored)))
  {
    hide EventIsWired, Unanchored;
  }

  lemma AppliesToPrefix(db: Tables, ids: seq<Id>)
    requires Wired(db) && Applies(db, ids) && ids != []
    ensures Applies(db, ids[..|ids| - 1])
    ensures forall d <- ids[..|ids| - 1] :: db.events[d].lineage != db.events[ids[|ids| - 1]].lineage
  {
    assert ids == ids[..|ids| - 1] + [ids[|ids| - 1]];
    assert forall d <- ids[..|ids| - 1] :: d in ids;
  }

  /** Every lineage moves by its own event, and the others stay. */
  lemma {:induction false} ApplyAllByLineage(db: Tables, ids: seq<Id>)
    requires Wired(db) && Applies(db, ids)
    ensures var later := ApplyAll(db, ids);
            && (forall e <- ids :: later.lineages[db.events[e].lineage]
                                == Moved(db.lineages[db.events[e].lineage], db.events[e]))
            && (forall l <- db.lineages | (forall e <- ids :: db.events[e].lineage != l) ::
                  later.lineages[l] == db.lineages[l])
  {
    if ids != [] {
      var init, e := ids[..|ids| - 1], ids[|ids| - 1];
      AppliesToPrefix(db, ids);
      ApplyAllByLineage(db, init);
      assert ids == init + [e];
      var before, later := ApplyAll(db, init), ApplyAll(db, ids);
      assert later == ApplyOne(before, e) && before.events == db.events && db.events[e].lineage in db.lineages;
      assert before.lineages[db.events[e].lineage] == db.lineages[db.events[e].lineage];
      hide Applies, Wired, Moved, ApplyAll;
    }
  }

  /** The history grows by the transition just applied, so the status stays the fold of the history. */
  lemma ApplyOneFolds(db: Tables, e: Id)
    requires Journaled(db) && Folded(db)
    requires e in db.events && e !in db.applied && db.events[e].lineage in db.lineages
    requires db.lineages[db.events[e].lineage].status == Expected(db.events[e].transition)
    ensures Journaled(ApplyOne(db, e)) && Folded(ApplyOne(db, e))
  {
    var later, event := ApplyOne(db, e), db.events[e];
    forall l <- later.lineages
      ensures Fold(History(later.events, later.applied, l)) == Some(later.lineages[l].status)
    {
      HistoryGrows(db.events, db.applied, e, l);
      var word := History(db.events, db.applied, l);
      assert (word + [event.transition])[..|word|] == word;
      assert Fold(word) == Some(db.lineages[l].status);
      assert word + [] == word;
    }
  }

  lemma {:induction false} ApplyAllFolds(db: Tables, ids: seq<Id>)
    requires Wired(db) && Journaled(db) && Folded(db) && Applies(db, ids)
    ensures Journaled(ApplyAll(db, ids)) && Folded(ApplyAll(db, ids))
  {
    if ids != [] {
      var init, e := ids[..|ids| - 1], ids[|ids| - 1];
      var before := ApplyAll(db, init);
      AppliesToPrefix(db, ids);
      ApplyAllFolds(db, init);
      ApplyAllByLineage(db, init);
      assert e !in init && e !in db.applied && !Rejected(db, e) && db.events[e].lineage in db.lineages;
      hide Wired, Applies, Journaled, Folded, Fold, History;
      assert before.applied == db.applied + init && before.events == db.events;
      ApplyOneFolds(before, e);
    }
  }

  predicate SameIdentity(row: LineageRow, later: LineageRow) {
    && later.pullRequest == row.pullRequest && later.initial == row.initial
    && (row.status != Pending ==> later.status != Pending)
    && ((row.status == Addressed <==> row.addressedBy.Some?) ==> (later.status == Addressed <==> later.addressedBy.Some?))
  }

  predicate OnlyMoves(db: Tables, later: Tables) {
    && later == db.(lineages := later.lineages, applied := later.applied) && db.applied <= later.applied
    && later.lineages.Keys == db.lineages.Keys
    && forall l <- db.lineages :: SameIdentity(db.lineages[l], later.lineages[l])
  }

  lemma MoveKeepsIdentity(db: Tables, ids: seq<Id>, l: Id)
    requires Wired(db) && Applies(db, ids) && l in db.lineages
    ensures SameIdentity(db.lineages[l], ApplyAll(db, ids).lineages[l])
  {
    ApplyAllByLineage(db, ids);
    hide Wired, Applies, ApplyAll;
    if e :| e in ids && db.events[e].lineage == l {
      assert ApplyAll(db, ids).lineages[l] == Moved(db.lineages[l], db.events[e]);
    }
  }

  lemma ApplyAllOnlyMoves(db: Tables, ids: seq<Id>)
    requires Wired(db) && Applies(db, ids)
    ensures OnlyMoves(db, ApplyAll(db, ids))
  {
    assert forall e <- ids :: e in db.events && EventIsWired(db, db.events[e]);
    hide Wired, Applies, SameIdentity, Moved;
    forall l <- db.lineages ensures SameIdentity(db.lineages[l], ApplyAll(db, ids).lineages[l]) {
      MoveKeepsIdentity(db, ids, l);
    }
  }

  lemma OnlyMovesWiresEvent(db: Tables, later: Tables, event: Event)
    requires OnlyMoves(db, later) && EventIsWired(db, event)
    ensures EventIsWired(later, event)
  {
    assert SameIdentity(db.lineages[event.lineage], later.lineages[event.lineage]);
  }

  lemma OnlyMovesIsWired(db: Tables, later: Tables)
    requires Wired(db) && OnlyMoves(db, later)
    ensures Wired(later)
  {
    assert later.events == db.events && later.findings == db.findings && later.publications == db.publications
           && later.runs == db.runs;
    forall e <- later.events ensures EventIsWired(later, later.events[e]) {
      OnlyMovesWiresEvent(db, later, db.events[e]);
    }
    hide EventIsWired;
    assert forall l <- db.lineages :: SameIdentity(db.lineages[l], later.lineages[l]);
  }

  lemma OnlyMovesIsKeyed(db: Tables, later: Tables)
    requires Keyed(db) && Issued(db) && OnlyMoves(db, later)
    ensures Keyed(later) && Issued(later)
  {
    assert forall l <- db.lineages :: SameIdentity(db.lineages[l], later.lineages[l]);
  }

  lemma OnlyMovesKeeps(db: Tables, later: Tables)
    requires OnlyMoves(db, later)
    ensures Keeps(db, later)
  {
    assert forall l <- db.lineages :: SameIdentity(db.lineages[l], later.lineages[l]);
  }

  lemma ActivatedIsConsistent(db: Tables, r: Id, unanchored: set<Fingerprint>)
    requires Consistent(db) && Activated(db, r, unanchored).Ok?
    ensures var later := Activated(db, r, unanchored).value;
            Consistent(later) && OnlyMoves(db, later) && later.applied == db.applied + InOrder(Applicable(db, r, unanchored))
  {
    var ids := InOrder(Applicable(db, r, unanchored));
    ApplicableApplies(db, r, unanchored);
    hide Wired, Keyed, Issued, Journaled, Folded, Applies, OnlyMoves, Rejected, Applicable;
    ApplyAllFolds(db, ids);
    ApplyAllOnlyMoves(db, ids);
    OnlyMovesIsWired(db, ApplyAll(db, ids));
    OnlyMovesIsKeyed(db, ApplyAll(db, ids));
  }

  // ---------------------------------------------------------------- publication

  function PublicationOf(db: Tables, r: Id, provider: string): Option<Id> {
    Newest(set p <- db.publications | db.publications[p].run == r && db.publications[p].provider == provider)
  }

  function PublicationBegun(db: Tables, r: Id, provider: string): Result<(Tables, Id), Failure> {
    if r !in db.runs || !db.runs[r].publishable || db.runs[r].status !in {Ready, Publishing, Published}
    then Err(NotPublishable) else
      match PublicationOf(db, r, provider)
      case Some(p) =>
        if db.publications[p].published then Ok((db, p))
        else Ok((StatusIf(db, r, {Ready, Publishing}, Publishing), p))
      case None =>
        var later := db.(publications := db.publications[db.serial := Publication(r, provider, false)],
                         serial := db.serial + 1);
        Ok((StatusIf(later, r, {Ready, Publishing}, Publishing), db.serial))
  }

  function PublicationFailed(db: Tables, p: Id): Tables {
    if p !in db.publications then db else
      StatusIf(db.(publications := db.publications[p := db.publications[p].(published := false)]),
               db.publications[p].run, {Publishing}, Ready)
  }

  datatype Comment = Comment(fingerprint: Fingerprint, root: string)

  /** The lineage a published root comment belongs to. */
  function NewEventFor(db: Tables, r: Id, fingerprint: Fingerprint): Option<Id> {
    Newest(set e <- db.events | && db.events[e].transition == New && FingerprintOf(db, e) == Some(fingerprint)
                                && db.findings[db.events[e].finding.value].run == r)
  }

  function Threaded(db: Tables, r: Id, comment: Comment): Result<Tables, Failure> {
    match NewEventFor(db, r, comment.fingerprint)
    case None => Err(UnmappedComment)
    case Some(e) =>
      var l := db.events[e].lineage;
      if l in db.threads && db.threads[l] != comment.root then Err(ThreadConflict)
      else Ok(db.(threads := db.threads[l := comment.root]))
  }

  function AllThreaded(db: Tables, r: Id, comments: seq<Comment>): (later: Result<Tables, Failure>)
    ensures later.Ok? ==> later.value == db.(threads := later.value.threads)
  {
    if comments == [] then Ok(db) else
      match AllThreaded(db, r, comments[..|comments| - 1])
      case Err(failure) => Err(failure)
      case Ok(before) => Threaded(before, r, comments[|comments| - 1])
  }

  function ThreadsRecorded(db: Tables, r: Id, provider: string, comments: seq<Comment>): Result<Tables, Failure> {
    if comments == [] then Ok(db)
    else if provider != "github" then Err(UnsupportedProvider)
    else AllThreaded(db, r, comments)
  }

  function PublicationPublished(db: Tables, p: Id, unanchored: set<Fingerprint>): Result<Tables, Failure> {
    if p !in db.publications then Err(UnknownPublication) else
      var r := db.publications[p].run;
      match Activated(db.(publications := db.publications[p := db.publications[p].(published := true)]), r, unanchored)
      case Err(failure) => Err(failure)
      case Ok(later) => Ok(if r in later.runs then WithStatus(later, r, Published) else later)
  }

  lemma ThreadsAreApart(db: Tables, threads: map<Id, string>)
    ensures Wired(db) ==> Wired(db.(threads := threads))
  {
    var later := db.(threads := threads);
    assert forall e <- db.events :: EventIsWired(db, db.events[e]) ==> EventIsWired(later, db.events[e]);
    hide EventIsWired;
  }

  lemma ThreadsKeep(db: Tables, threads: map<Id, string>)
    ensures Invariant(db) ==> Invariant(db.(threads := threads))
    ensures Keeps(db, db.(threads := threads))
  {
    ThreadsAreApart(db, threads);
    hide History, Fold, EventIsWired, Wired;
  }

  lemma NewPublicationKeeps(db: Tables, publication: Publication)
    requires Invariant(db) && publication.run in db.runs
    ensures var later := db.(publications := db.publications[db.serial := publication], serial := db.serial + 1);
            Invariant(later) && Keeps(db, later)
  {
    var later := db.(publications := db.publications[db.serial := publication], serial := db.serial + 1);
    assert OnlyRuns(db, later) && KeepsPublished(db, later) by {
      hide Folded, Settled, Keyed, Journaled, EventIsWired;
    }
    OnlyRunsKeeps(db, later);
  }

  lemma PublicationMarkKeeps(db: Tables, p: Id, published: bool)
    requires Invariant(db) && p in db.publications
    ensures var later := db.(publications := db.publications[p := db.publications[p].(published := published)]);
            Invariant(later) && Keeps(db, later) && db.publications[p].run in later.runs
  {
    var later := db.(publications := db.publications[p := db.publications[p].(published := published)]);
    hide Folded, Settled, Keyed, Journaled, EventIsWired;
    assert OnlyRuns(db, later) && KeepsPublished(db, later);
    OnlyRunsKeeps(db, later);
  }

  lemma PublicationBegunKeeps(db: Tables, r: Id, provider: string)
    requires Invariant(db)
    ensures var b := PublicationBegun(db, r, provider); b.Ok? ==> Invariant(b.value.0) && Keeps(db, b.value.0)
  {
    hide Invariant, Keeps, StatusIf;
    NothingLost(db);
    if PublicationBegun(db, r, provider).Ok? {
      match PublicationOf(db, r, provider)
      case Some(p) => StatusIfKeeps(db, r, {Ready, Publishing}, Publishing);
      case None =>
        var later := db.(publications := db.publications[db.serial := Publication(r, provider, false)],
                         serial := db.serial + 1);
        NewPublicationKeeps(db, Publication(r, provider, false));
        StatusIfKeeps(later, r, {Ready, Publishing}, Publishing);
        KeepingIsTransitiveFor(db, later, StatusIf(later, r, {Ready, Publishing}, Publishing));
    }
  }

  lemma PublicationFailedKeeps(db: Tables, p: Id)
    requires Invariant(db)
    ensures Invariant(PublicationFailed(db, p)) && Keeps(db, PublicationFailed(db, p))
  {
    hide Invariant, Keeps, StatusIf;
    NothingLost(db);
    if p in db.publications {
      PublicationMarkKeeps(db, p, false);
      var later := db.(publications := db.publications[p := db.publications[p].(published := false)]);
      StatusIfKeeps(later, db.publications[p].run, {Publishing}, Ready);
      KeepingIsTransitiveFor(db, later, PublicationFailed(db, p));
    }
  }

  lemma KeepingIsTransitiveFor(a: Tables, b: Tables, c: Tables)
    requires Invariant(a) && Invariant(b) && Keeps(a, b) && Keeps(b, c)
    ensures Keeps(a, c)
  {
    hide Wired, Keyed, Issued, Folded, Settled, Keeps;
    KeepingIsTransitive(a, b, c);
  }

  lemma AppliedByThisRun(db: Tables, active: Tables, r: Id, unanchored: set<Fingerprint>)
    requires Invariant(db) && OnlyMoves(db, active) && Wired(active) && Journaled(active) && r in db.runs
    requires active.applied == db.applied + InOrder(Applicable(db, r, unanchored))
    ensures Wired(WithStatus(active, r, Published)) && Settled(WithStatus(active, r, Published))
  {
    var later := WithStatus(active, r, Published);
    assert OnlyRuns(active, later) by { hide Keyed, Folded, Settled, EventIsWired; }
    OnlyRunsIsWired(active, later);
    assert later.events == db.events;
    hide Keyed, Folded, Issued, Applicable, OnlyMoves;
    forall e <- later.applied ensures later.runs[later.events[e].run].status == Published {
      if e in db.applied { assert EventIsWired(db, db.events[e]); } else { assert e in Applicable(db, r, unanchored); }
    }
  }

  lemma PublishedStatusKeeps(db: Tables, active: Tables, r: Id)
    requires Keeps(db, active) && r in active.runs
    ensures Keeps(db, WithStatus(active, r, Published))
  {
    hide AppliedFinding;
  }

  lemma PublishedStatusIsConsistent(active: Tables, r: Id)
    requires Consistent(active) && r in active.runs && Wired(WithStatus(active, r, Published))
    ensures Consistent(WithStatus(active, r, Published))
  {
    hide Wired, Fold, History;
  }

  /** Publication settles the run in the same transaction as its events. */
  lemma ActivationSettles(db: Tables, r: Id, unanchored: set<Fingerprint>)
    requires Invariant(db) && r in db.runs && Activated(db, r, unanchored).Ok?
    ensures var active := Activated(db, r, unanchored).value;
            r in active.runs && Invariant(WithStatus(active, r, Published)) && Keeps(db, WithStatus(active, r, Published))
  {
    var active := Activated(db, r, unanchored).value;
    ActivatedIsConsistent(db, r, unanchored);
    assert r in active.runs;
    hide Activated, Applicable, Wired, Keyed, Issued, Journaled, Folded, Settled, OnlyMoves, Keeps, WithStatus;
    AppliedByThisRun(db, active, r, unanchored);
    OnlyMovesKeeps(db, active);
    PublishedStatusKeeps(db, active, r);
    PublishedStatusIsConsistent(active, r);
  }

  lemma PublicationPublishedKeeps(db: Tables, p: Id, unanchored: set<Fingerprint>)
    requires Invariant(db)
    ensures var later := PublicationPublished(db, p, unanchored);
            later.Ok? ==> Invariant(later.value) && Keeps(db, later.value)
  {
    if p in db.publications {
      var marked := db.(publications := db.publications[p := db.publications[p].(published := true)]);
      PublicationMarkKeeps(db, p, true);
      var r := db.publications[p].run;
      if Activated(marked, r, unanchored).Ok? {
        ActivationSettles(marked, r, unanchored);
        hide *;
        KeepingIsTransitiveFor(db, marked, WithStatus(Activated(marked, r, unanchored).value, r, Published));
      }
    }
  }
}
