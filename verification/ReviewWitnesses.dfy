/** Runs of the review store in which something surprising happens, and exactly when it does. */
module ReviewWitnesses {
  import opened Wrappers
  import opened Rows
  import opened Lineage
  import opened LineageSteps
  import opened LineageIntake
  import opened Continuity
  import opened ReviewStore

  // ---------------------------------------------------------------- a run, step by step

  /** A run that has come to some tables, and one more transaction. */
  lemma OneMoreStep(states: seq<Tables>, steps: seq<Step>, step: Step, next: Tables)
    requires Execution(states, steps) && (step.Persist? ==> Possible(states[|states| - 1], step))
    requires After(states[|states| - 1], step) == next
    ensures Execution(states + [next], steps + [step])
  {
    assert Possible(states[|states| - 1], step);
    hide Possible, After;
  }

  lemma Nothing()
    ensures Execution([EMPTY], [])
  {
  }

  function RunRow(job: Id, revision: string, status: RunStatus): Run { Run(job, 0, revision, "", status, true) }

  function Generates(): Tables { EMPTY.(runs := map[0 := RunRow(0, "a", Generating)], serial := 1) }

  lemma FirstBegins()
    ensures After(EMPTY, Begin(0, 0, "a", "")) == Generates()
  {
    assert RunOfJob(EMPTY, 0) == None && RunOfReview(EMPTY, 0, "a", "") == None;
  }

  // ---------------------------------------------------------------- a superseded run that is published

  /**
   * Publishing a superseded run: it becomes published exactly when the publication is its own, its comments
   * find their threads, and none of its anchored events is out of date.
   */
  lemma SupersededIsPublishedExactly(db: Tables, p: Id, s: Id, provider: string, comments: seq<Comment>,
                                     unanchored: set<Fingerprint>, r: Id)
    requires Invariant(db) && r in db.runs && db.runs[r].status == Superseded
    ensures var later := After(db, Publish(p, s, provider, comments, unanchored));
            && r in later.runs
            && (later.runs[r].status == RunStatus.Published
                <==> && p in db.publications && db.publications[p].run == r && ThreadsRecorded(db, s, provider, comments).Ok?
                     && forall e <- Applicable(ThreadsRecorded(db, s, provider, comments).value, r, unanchored) :: !Rejected(db, e))
  {
    hide ThreadsRecorded, Applicable, Rejected, PublicationPublished, Invariant;
    if ThreadsRecorded(db, s, provider, comments).Ok? && p in db.publications {
      ThreadsOnly(db, s, provider, comments);
      var threaded := ThreadsRecorded(db, s, provider, comments).value;
      if db.publications[p].run == r { OwnPublication(threaded, p, unanchored); }
      else { OtherPublication(threaded, p, unanchored, r); }
    }
    UnknownPublicationFails(db, p, s, provider, comments, unanchored);
  }

  lemma UnknownPublicationFails(db: Tables, p: Id, s: Id, provider: string, comments: seq<Comment>, unanchored: set<Fingerprint>)
    ensures FullyPublished(db, p, s, provider, comments, unanchored).Ok? ==>
              ThreadsRecorded(db, s, provider, comments).Ok? && p in db.publications
  {
    if ThreadsRecorded(db, s, provider, comments).Ok? { ThreadsOnly(db, s, provider, comments); }
    hide ThreadsRecorded, Activated;
  }

  lemma ThreadsOnly(db: Tables, s: Id, provider: string, comments: seq<Comment>)
    requires ThreadsRecorded(db, s, provider, comments).Ok?
    ensures var threaded := ThreadsRecorded(db, s, provider, comments).value;
            && threaded == db.(threads := threaded.threads)
            && forall r, unanchored, e <- Applicable(threaded, r, unanchored) :: e in db.events && (Rejected(threaded, e) <==> Rejected(db, e))
  {
  }

  lemma MarkChangesNothing(db: Tables, p: Id, q: Id, unanchored: set<Fingerprint>)
    requires p in db.publications
    ensures var marked := db.(publications := db.publications[p := db.publications[p].(published := true)]);
            Activated(marked, q, unanchored).Ok? <==> forall e <- Applicable(db, q, unanchored) :: !Rejected(db, e)
  {
    var marked := db.(publications := db.publications[p := db.publications[p].(published := true)]);
    assert forall e <- db.events :: Unanchored(marked, e, unanchored) <==> Unanchored(db, e, unanchored);
    hide Unanchored;
    assert Applicable(marked, q, unanchored) == Applicable(db, q, unanchored);
    assert forall e <- db.events :: Rejected(marked, e) <==> Rejected(db, e);
  }

  lemma OwnPublication(db: Tables, p: Id, unanchored: set<Fingerprint>)
    requires p in db.publications && db.publications[p].run in db.runs
    ensures var r, published := db.publications[p].run, PublicationPublished(db, p, unanchored);
            && (published.Ok? <==> forall e <- Applicable(db, r, unanchored) :: !Rejected(db, e))
            && (published.Ok? ==> r in published.value.runs && published.value.runs[r].status == RunStatus.Published)
  {
    var marked := db.(publications := db.publications[p := db.publications[p].(published := true)]);
    MarkChangesNothing(db, p, db.publications[p].run, unanchored);
    if Activated(marked, db.publications[p].run, unanchored).Ok? {
      assert Activated(marked, db.publications[p].run, unanchored).value.runs == db.runs;
    }
    hide Activated, Applicable, Rejected;
  }

  lemma OtherPublication(db: Tables, p: Id, unanchored: set<Fingerprint>, r: Id)
    requires p in db.publications && db.publications[p].run != r && r in db.runs
    ensures PublicationPublished(db, p, unanchored).Ok? ==>
              var later := PublicationPublished(db, p, unanchored).value; r in later.runs && later.runs[r] == db.runs[r]
  {
    var q := db.publications[p].run;
    var marked := db.(publications := db.publications[p := db.publications[p].(published := true)]);
    if Activated(marked, q, unanchored).Ok? {
      var active := Activated(marked, q, unanchored).value;
      assert active.runs == db.runs;
      assert PublicationPublished(db, p, unanchored).value
          == if q in active.runs then WithStatus(active, q, RunStatus.Published) else active;
      assert r in active.runs;
    }
  }

  function Readied(): Tables { Generates().(runs := map[0 := RunRow(0, "a", Ready)]) }

  function Begun1(): Tables {
    Generates().(runs := map[0 := RunRow(0, "a", Publishing)], publications := map[1 := Publication(0, "github", false)], serial := 2)
  }

  function Superseded1(): Tables { Begun1().(runs := map[0 := RunRow(0, "a", Superseded)]) }

  function Published1(): Tables {
    Begun1().(runs := map[0 := RunRow(0, "a", RunStatus.Published)], publications := map[1 := Publication(0, "github", true)])
  }

  lemma EmptyReport()
    ensures Possible(Generates(), Persist(0, true, [], [])) && After(Generates(), Persist(0, true, [], [])) == Readied()
  {
    assert Reported(Generates(), 0, true) == Readied();
  }

  lemma PublicationBegins()
    ensures After(Readied(), Step.BeginPublication(0, "github")) == Begun1()
  {
    assert PublicationOf(Readied(), 0, "github") == None;
  }

  lemma NewerEventSupersedes()
    ensures After(Begun1(), Supersede(0, true)) == Superseded1()
  {
    assert Cleared(Begun1(), 0) == Begun1();
  }

  lemma StalePublicationLands()
    ensures After(Superseded1(), Publish(1, 0, "github", [], {})) == Published1()
  {
    var marked := Superseded1().(publications := map[1 := Publication(0, "github", true)]);
    assert Applicable(marked, 0, {}) == {} && InOrder({}) == [];
    assert Activated(marked, 0, {}) == Ok(marked);
  }

  /** Superseding does not stop a publication that has begun: the superseded run becomes published. */
  lemma SupersededCanBePublished() returns (states: seq<Tables>, steps: seq<Step>)
    ensures Execution(states, steps) && |states| == 6
    ensures 0 in states[4].runs && states[4].runs[0].status == Superseded
    ensures 0 in states[5].runs && states[5].runs[0].status == RunStatus.Published
  {
    FirstBegins();
    EmptyReport();
    PublicationBegins();
    NewerEventSupersedes();
    StalePublicationLands();
    Nothing();
    hide Execution, After, Possible;
    OneMoreStep([EMPTY], [], Begin(0, 0, "a", ""), Generates());
    states, steps := [EMPTY] + [Generates()], [] + [Begin(0, 0, "a", "")];
    OneMoreStep(states, steps, Persist(0, true, [], []), Readied());
    states, steps := states + [Readied()], steps + [Persist(0, true, [], [])];
    OneMoreStep(states, steps, Step.BeginPublication(0, "github"), Begun1());
    states, steps := states + [Begun1()], steps + [Step.BeginPublication(0, "github")];
    OneMoreStep(states, steps, Supersede(0, true), Superseded1());
    states, steps := states + [Superseded1()], steps + [Supersede(0, true)];
    OneMoreStep(states, steps, Publish(1, 0, "github", [], {}), Published1());
    states, steps := states + [Published1()], steps + [Publish(1, 0, "github", [], {})];
  }

  // ---------------------------------------------------------------- reports the database refuses

  /** A report that names a fingerprint twice is refused, and leaves the tables as they were. */
  lemma RepeatedFingerprintIsRefused(x: Finding) returns (states: seq<Tables>, steps: seq<Step>)
    ensures Execution(states, steps) && |states| == 3
    ensures var twice := Change(New, None, Some(x));
            steps[1] == Persist(0, true, [x, x], [twice, twice]) && Persisted(states[1], 0, true, [x, x], [twice, twice]).Err?
    ensures states[2] == states[1]
  {
    var findings, changes := [x, x], [Change(New, None, Some(x)), Change(New, None, Some(x))];
    var report := Persist(0, true, findings, changes);
    RepeatIsRefused(x);
    FirstBegins();
    Nothing();
    hide Execution, After, Possible, Persisted;
    OneMoreStep([EMPTY], [], Begin(0, 0, "a", ""), Generates());
    states, steps := [EMPTY] + [Generates()], [] + [Begin(0, 0, "a", "")];
    OneMoreStep(states, steps, report, Generates());
    states, steps := states + [Generates()], steps + [report];
  }

  lemma RepeatIsRefused(x: Finding)
    ensures var findings, changes := [x, x], [Change(New, None, Some(x)), Change(New, None, Some(x))];
            && Persisted(Generates(), 0, true, findings, changes).Err?
            && Possible(Generates(), Persist(0, true, findings, changes))
            && After(Generates(), Persist(0, true, findings, changes)) == Generates()
  {
    var findings, changes := [x, x], [Change(New, None, Some(x)), Change(New, None, Some(x))];
    assert Classified(Reported(Generates(), 0, true), 0, findings, changes);
    hide Persisted, Classified, Reported, Invariant;
    BegunIsInvariant();
    assert findings[0].fingerprint == findings[1].fingerprint;
    ReportsAreRefusedExactly(Generates(), 0, true, findings, changes);
  }

  lemma BegunIsInvariant()
    ensures Invariant(Generates())
  {
    FirstBegins();
    assert Execution([EMPTY, Generates()], [Begin(0, 0, "a", "")]);
    EveryRunKeepsTheInvariant([EMPTY, Generates()], [Begin(0, 0, "a", "")], 1);
  }

  // ---------------------------------------------------------------- a prediction that publication contradicts

  function Opened(x: Finding, status: Status, lastSeen: Option<Id>): map<Id, LineageRow> {
    map[1 := LineageRow(0, x.fingerprint, status, 0, lastSeen, None)]
  }

  /** The first review reported `x` as new. */
  function ReportedFirst(x: Finding): Tables {
    Tables(map[0 := RunRow(0, "a", Ready)], Opened(x, Pending, None), map[2 := FindingRow(0, 1, 0, x)],
           map[3 := Event(1, 0, Some(2), New)], [], map[], map[], 4)
  }

  function PublishingFirst(x: Finding): Tables {
    ReportedFirst(x).(runs := map[0 := RunRow(0, "a", Publishing)], publications := map[4 := Publication(0, "github", false)], serial := 5)
  }

  function PublishedFirst(x: Finding): Tables {
    PublishingFirst(x).(runs := map[0 := RunRow(0, "a", RunStatus.Published)], publications := map[4 := Publication(0, "github", true)],
                        lineages := Opened(x, Status.Active, Some(0)), applied := [3])
  }

  function SecondBegun(x: Finding): Tables {
    var db := PublishedFirst(x); db.(runs := db.runs[5 := RunRow(1, "b", Generating)], serial := 6)
  }

  /** The second review reports the lineage as persistent, with finding 6. */
  function ReportedSecond(x: Finding): Tables {
    var db := SecondBegun(x);
    db.(runs := db.runs[5 := RunRow(1, "b", Ready)], findings := db.findings[6 := FindingRow(5, 1, 0, x)],
        events := db.events[7 := Event(1, 5, Some(6), Persistent)], serial := 8)
  }

  function ThirdBegun(x: Finding): Tables {
    var db := ReportedSecond(x); db.(runs := db.runs[8 := RunRow(2, "c", Generating)], serial := 9)
  }

  /** The third review reports it once more, with finding 9. */
  function ReportedThird(x: Finding): Tables {
    var db := ThirdBegun(x);
    db.(runs := db.runs[8 := RunRow(2, "c", Ready)], findings := db.findings[9 := FindingRow(8, 1, 0, x)],
        events := db.events[10 := Event(1, 8, Some(9), Persistent)], serial := 11)
  }

  lemma NewIsReported(x: Finding)
    ensures var step := Persist(0, true, [x], [Change(New, None, Some(x))]);
            Possible(Generates(), step) && After(Generates(), step) == ReportedFirst(x)
  {
    var change := Change(New, None, Some(x));
    assert Reported(Generates(), 0, true) == Readied();
    NewChangeOfReadied(x);
    assert [change][..0] == [] && OrdinalOf([x], change) == 0;
    hide WithChange, Reported;
    assert WithChanges(Readied(), 0, [x], []) == Ok(Readied());
    assert WithChanges(Readied(), 0, [x], [change]) == Ok(ReportedFirst(x));
  }

  lemma NewChangeOfReadied(x: Finding)
    ensures WithChange(Readied(), 0, 0, Change(New, None, Some(x))) == Ok(ReportedFirst(x))
  {
    assert LineageFor(Readied(), 0, x.fingerprint) == None;
  }

  lemma FirstIsPublishing(x: Finding)
    ensures After(ReportedFirst(x), Step.BeginPublication(0, "github")) == PublishingFirst(x)
  {
    assert PublicationOf(ReportedFirst(x), 0, "github") == None;
  }

  lemma OnlyOne(i: Id)
    ensures InOrder({i}) == [i] && Greatest({i}) == i
  {
    assert InOrder({i} - {i}) == [];
  }

  /** Activation of a single event that fits its lineage. */
  lemma OneEventActivates(db: Tables, r: Id, unanchored: set<Fingerprint>, e: Id)
    requires Applicable(db, r, unanchored) == {e} && e in db.events && !Rejected(db, e)
    ensures Activated(db, r, unanchored) == Ok(ApplyOne(db, e))
  {
    OnlyOne(e);
    hide Applicable, Rejected, ApplyOne, InOrder;
    assert [e][..0] == [];
    assert ApplyAll(db, []) == db;
  }

  lemma FirstIsApplicable(x: Finding, marked: Tables)
    requires marked == PublishingFirst(x).(publications := map[4 := Publication(0, "github", true)])
    ensures Applicable(marked, 0, {}) == {3} && 3 in marked.events && !Rejected(marked, 3)
    ensures ApplyOne(marked, 3) == marked.(lineages := Opened(x, Status.Active, Some(0)), applied := [3])
  {
    hide Applicable;
    var later := ApplyOne(marked, 3);
    assert later.lineages == Opened(x, Status.Active, Some(0)) && later.applied == [3];
    WaitingFirst(marked);
  }

  lemma WaitingFirst(marked: Tables)
    requires marked.events.Keys == {3} && marked.events[3].run == 0 && marked.applied == []
    ensures Applicable(marked, 0, {}) == {3}
  {
    assert !Unanchored(marked, 3, {});
    hide Unanchored;
  }

  lemma FirstActivates(x: Finding, marked: Tables)
    requires marked == PublishingFirst(x).(publications := map[4 := Publication(0, "github", true)])
    ensures Activated(marked, 0, {}) == Ok(marked.(lineages := Opened(x, Status.Active, Some(0)), applied := [3]))
  {
    hide *;
    FirstIsApplicable(x, marked);
    OneEventActivates(marked, 0, {}, 3);
  }

  lemma FirstIsPublished(x: Finding)
    ensures After(PublishingFirst(x), Publish(4, 0, "github", [], {})) == PublishedFirst(x)
  {
    hide PublishingFirst, PublishedFirst, Activated, Opened, WithStatus;
    var marked := PublishingFirst(x).(publications := map[4 := Publication(0, "github", true)]);
    FirstActivates(x, marked);
    MarkedFirst(x);
    PublishedIsActive(x);
    assert PublicationPublished(PublishingFirst(x), 4, {}) == Ok(PublishedFirst(x));
  }

  lemma PublishedIsActive(x: Finding)
    ensures var marked := PublishingFirst(x).(publications := map[4 := Publication(0, "github", true)]);
            var active := marked.(lineages := Opened(x, Status.Active, Some(0)), applied := [3]);
            0 in active.runs && WithStatus(active, 0, RunStatus.Published) == PublishedFirst(x)
  {
    MarkedFirst(x);
    hide Opened;
  }

  lemma MarkedFirst(x: Finding)
    ensures var db := PublishingFirst(x);
            && db.publications.Keys == {4} && db.publications[4] == Publication(0, "github", false)
            && db.publications[4 := Publication(0, "github", true)] == map[4 := Publication(0, "github", true)] && 0 in db.runs
  {
  }

  lemma NewReviewBegins(db: Tables, job: Id, revision: string)
    requires forall r <- db.runs :: db.runs[r].job != job && db.runs[r].revision != revision
    ensures After(db, Begin(job, 0, revision, "")) == db.(runs := db.runs[db.serial := RunRow(job, revision, Generating)],
                                                          serial := db.serial + 1)
  {
    assert RunOfJob(db, job) == None && RunOfReview(db, 0, revision, "") == None;
  }

  /** A generating run of request 0 that has reported nothing, beside the active lineage 1. */
  predicate Fresh(db: Tables, q: Id, job: Id, revision: string) {
    && q in db.runs && db.runs[q] == RunRow(job, revision, Generating)
    && db.lineages.Keys == {1} && db.lineages[1].status == Status.Active && db.lineages[1].pullRequest == 0
    && (forall f <- db.findings :: db.findings[f].run != q) && (forall e <- db.events :: db.events[e].run != q)
    && db.threads == map[]
  }

  function ReportsAgain(db: Tables, q: Id, job: Id, revision: string, x: Finding): Tables {
    db.(runs := db.runs[q := RunRow(job, revision, Ready)], findings := db.findings[db.serial := FindingRow(q, 1, 0, x)],
        events := db.events[db.serial + 1 := Event(1, q, Some(db.serial), Persistent)], serial := db.serial + 2)
  }

  lemma FreshIsCleared(db: Tables, q: Id, job: Id, revision: string)
    requires Fresh(db, q, job, revision)
    ensures Reported(db, q, true) == db.(runs := db.runs[q := RunRow(job, revision, Ready)])
  {
    var begun := db.(runs := db.runs[q := RunRow(job, revision, Ready)]);
    assert Dead(begun, q) == {};
  }

  lemma PersistentIsReported(db: Tables, q: Id, job: Id, revision: string, x: Finding)
    requires Fresh(db, q, job, revision)
    ensures var step := Persist(q, true, [x], [Change(Persistent, Some(1), Some(x))]);
            Possible(db, step) && After(db, step) == ReportsAgain(db, q, job, revision, x)
  {
    var change := Change(Persistent, Some(1), Some(x));
    var reported := db.(runs := db.runs[q := RunRow(job, revision, Ready)]);
    FreshIsCleared(db, q, job, revision);
    assert WithChange(reported, q, 0, change) == Ok(ReportsAgain(db, q, job, revision, x));
    assert [change][..0] == [] && OrdinalOf([x], change) == 0;
    hide WithChange, Reported;
    assert WithChanges(reported, q, [x], []) == Ok(reported);
    assert WithChanges(reported, q, [x], [change]) == Ok(ReportsAgain(db, q, job, revision, x));
  }

  /** The third review's finding is newer than the second's, and not published. */
  lemma ThirdIsNewer(x: Finding)
    ensures var db := ReportedThird(x);
            && FindingsOf(db, 1) == {2, 6, 9} && 7 in db.events && db.events[7].run == 5 && db.events[7].lineage == 1
            && !NoneNewer(db, 7) && Unapplied(db, 5)
  {
    var db := ReportedThird(x);
    assert FindingsOf(db, 1) == {2, 6, 9};
    assert Greatest({2, 6, 9}) == 9;
    assert !AppliedFinding(db, 9);
  }

  lemma SecondIsApplicable(x: Finding)
    ensures var db := ReportedThird(x);
            Applicable(db, 5, {}) == {7} && !Rejected(db, 7) && Unapplied(db, 5)
  {
  }

  lemma NothingIsSkipped(db: Tables, r: Id)
    ensures SkippedLineages(db, r, {}) == {}
  {
    assert forall e <- db.events :: !Unanchored(db, e, {});
    hide Unanchored;
  }

  lemma ContestedPrediction(x: Finding)
    requires Invariant(ReportedThird(x))
    ensures var db := ReportedThird(x);
            && 5 in db.runs && db.runs[5].pullRequest == 0 && Activated(db, 5, {}).Ok? && Unapplied(db, 5)
            && var predicted, committed := Predicted(db, 5), Continuity.Active(Activated(db, 5, {}).value, 0);
               1 in predicted && 1 in committed && predicted[1] != committed[1]
  {
    var db := ReportedThird(x);
    assert 5 in db.runs && db.runs[5].pullRequest == 0 && db.events[7].transition == Persistent;
    assert Consistent(db);
    ThirdIsNewer(x);
    SecondIsApplicable(x);
    OneEventActivates(db, 5, {}, 7);
    NothingIsSkipped(db, 5);
    hide Invariant, Consistent, ReportedThird, Activated, Predicted, Continuity.Active, Applicable, Rejected, NoneNewer, Unapplied;
    hide SkippedLineages, FindingsOf;
    TouchedPrediction(db, 5, {}, 7);
    PredictionAgreesWithPublication(db, 5, {}, 1);
    assert !NoneNewerOn(db, 5, 1);
  }

  /** A review predicts a finding that its own publication does not commit: another review reported a newer one. */
  lemma PredictionCanDiffer(x: Finding) returns (states: seq<Tables>, steps: seq<Step>)
    ensures Execution(states, steps) && |states| == 9
    ensures var db := states[8];
            && 5 in db.runs && db.runs[5].pullRequest == 0 && Activated(db, 5, {}).Ok? && Unapplied(db, 5)
            && var predicted, committed := Predicted(db, 5), Continuity.Active(Activated(db, 5, {}).value, 0);
               1 in predicted && 1 in committed && predicted[1] != committed[1]
  {
    states, steps := TwoReports(x);
    ThirdReview(x);
    hide *;
    OneMoreStep(states, steps, Begin(2, 0, "c", ""), ThirdBegun(x));
    states, steps := states + [ThirdBegun(x)], steps + [Begin(2, 0, "c", "")];
    var report := Persist(8, true, [x], [Change(Persistent, Some(1), Some(x))]);
    OneMoreStep(states, steps, report, ReportedThird(x));
    states, steps := states + [ReportedThird(x)], steps + [report];
    EveryRunKeepsTheInvariant(states, steps, 8);
    ContestedPrediction(x);
  }

  lemma ThirdBegins(x: Finding)
    ensures After(ReportedSecond(x), Begin(2, 0, "c", "")) == ThirdBegun(x)
  {
    hide After;
    NewReviewBegins(ReportedSecond(x), 2, "c");
  }

  lemma ThirdReview(x: Finding)
    ensures After(ReportedSecond(x), Begin(2, 0, "c", "")) == ThirdBegun(x)
    ensures var report := Persist(8, true, [x], [Change(Persistent, Some(1), Some(x))]);
            Possible(ThirdBegun(x), report) && After(ThirdBegun(x), report) == ReportedThird(x)
  {
    hide After, Possible;
    ThirdBegins(x);
    PersistentIsReported(ThirdBegun(x), 8, 2, "c", x);
  }

  lemma SecondReview(x: Finding)
    ensures After(PublishedFirst(x), Begin(1, 0, "b", "")) == SecondBegun(x)
    ensures var report := Persist(5, true, [x], [Change(Persistent, Some(1), Some(x))]);
            Possible(SecondBegun(x), report) && After(SecondBegun(x), report) == ReportedSecond(x)
  {
    hide After, Possible;
    NewReviewBegins(PublishedFirst(x), 1, "b");
    PersistentIsReported(SecondBegun(x), 5, 1, "b", x);
  }

  lemma FirstReview(x: Finding) returns (states: seq<Tables>, steps: seq<Step>)
    ensures Execution(states, steps) && |states| == 5 && states[4] == PublishedFirst(x)
  {
    FirstBegins();
    NewIsReported(x);
    FirstIsPublishing(x);
    FirstIsPublished(x);
    Nothing();
    var report := Persist(0, true, [x], [Change(New, None, Some(x))]);
    hide *;
    OneMoreStep([EMPTY], [], Begin(0, 0, "a", ""), Generates());
    states, steps := [EMPTY] + [Generates()], [] + [Begin(0, 0, "a", "")];
    OneMoreStep(states, steps, report, ReportedFirst(x));
    states, steps := states + [ReportedFirst(x)], steps + [report];
    OneMoreStep(states, steps, Step.BeginPublication(0, "github"), PublishingFirst(x));
    states, steps := states + [PublishingFirst(x)], steps + [Step.BeginPublication(0, "github")];
    OneMoreStep(states, steps, Publish(4, 0, "github", [], {}), PublishedFirst(x));
    states, steps := states + [PublishedFirst(x)], steps + [Publish(4, 0, "github", [], {})];
  }

  lemma TwoReports(x: Finding) returns (states: seq<Tables>, steps: seq<Step>)
    ensures Execution(states, steps) && |states| == 7 && states[6] == ReportedSecond(x)
  {
    states, steps := FirstReview(x);
    SecondReview(x);
    hide *;
    var report := Persist(5, true, [x], [Change(Persistent, Some(1), Some(x))]);
    OneMoreStep(states, steps, Begin(1, 0, "b", ""), SecondBegun(x));
    states, steps := states + [SecondBegun(x)], steps + [Begin(1, 0, "b", "")];
    OneMoreStep(states, steps, report, ReportedSecond(x));
    states, steps := states + [ReportedSecond(x)], steps + [report];
  }

  // ---------------------------------------------------------------- a new finding that collides

  lemma CollisionIsRefused(x: Finding)
    requires Invariant(SecondBegun(x))
    ensures var report := Persist(5, true, [x], [Change(New, None, Some(x))]);
            Possible(SecondBegun(x), report) && Persisted(SecondBegun(x), 5, true, [x], report.changes).Err?
  {
    var db, changes := SecondBegun(x), [Change(New, None, Some(x))];
    assert Classified(Reported(db, 5, true), 0, [x], changes);
    assert 1 in db.lineages && Collides(db, 0, x.fingerprint);
    assert 5 in db.runs && db.runs[5].status == Generating && db.runs[5].pullRequest == 0;
    hide Persisted, Classified, Reported, Invariant, Collides;
    ReportsAreRefusedExactly(db, 5, true, [x], changes);
    assert [x][0] == x;
  }

  /** A report that takes a published finding for a new one is refused. */
  lemma CollidingFingerprintIsRefused(x: Finding) returns (states: seq<Tables>, steps: seq<Step>)
    ensures Execution(states, steps) && |states| == 6
    ensures var report := Persist(5, true, [x], [Change(New, None, Some(x))]);
            Possible(states[5], report) && Persisted(states[5], 5, true, [x], report.changes).Err?
  {
    states, steps := FirstReview(x);
    SecondReview(x);
    hide *;
    OneMoreStep(states, steps, Begin(1, 0, "b", ""), SecondBegun(x));
    states, steps := states + [SecondBegun(x)], steps + [Begin(1, 0, "b", "")];
    EveryRunKeepsTheInvariant(states, steps, 5);
    CollisionIsRefused(x);
  }
}
