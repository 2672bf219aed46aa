/** The open findings a review predicts before it is published, and what publication then commits. */
module Continuity {
  import opened Wrappers
  import opened Rows
  import opened Lineage
  import opened LineageSteps

  function FindingsOf(db: Tables, l: Id): set<Id> { set f <- db.findings | db.findings[f].lineage == l }

  /** The newest published finding of every active lineage of the pull request. */
  function Active(db: Tables, pullRequest: Id): map<Id, Id> {
    map l <- db.lineages | && db.lineages[l].pullRequest == pullRequest && db.lineages[l].status == Status.Active
                           && AppliedFindings(db, l) != {}
      :: Greatest(AppliedFindings(db, l))
  }

  /** Shown as open are exactly the active lineages of the request, each with a published finding none is newer than. */
  lemma ActiveIsOfRequest(db: Tables, pullRequest: Id, l: Id)
    ensures l in Active(db, pullRequest)
            <==> && l in db.lineages && db.lineages[l].pullRequest == pullRequest && db.lineages[l].status == Status.Active
                 && exists f <- db.findings :: db.findings[f].lineage == l && AppliedFinding(db, f)
    ensures l in Active(db, pullRequest) ==>
              var newest := Active(db, pullRequest)[l];
              && newest in db.findings && db.findings[newest].lineage == l && AppliedFinding(db, newest)
              && forall f <- db.findings | db.findings[f].lineage == l && AppliedFinding(db, f) :: f <= newest
  {
    hide AppliedFinding;
    var applied := AppliedFindings(db, l);
    assert forall f :: f in applied <==> f in db.findings && db.findings[f].lineage == l && AppliedFinding(db, f);
  }

  function EventRows(db: Tables, r: Id): seq<Id> {
    InOrder(set e <- db.events | db.events[e].run == r && FindingsOf(db, db.events[e].lineage) != {})
  }

  /** One event of the run: an addressed lineage is closed, any other is opened with its newest finding. */
  function Adjusted(db: Tables, open: map<Id, Id>, e: Id): map<Id, Id>
    requires e in db.events && FindingsOf(db, db.events[e].lineage) != {}
  {
    var l := db.events[e].lineage;
    if db.events[e].transition == Closed then open - {l} else open[l := Greatest(FindingsOf(db, l))]
  }

  function AdjustedAll(db: Tables, open: map<Id, Id>, ids: seq<Id>): map<Id, Id>
    requires forall e <- ids :: e in db.events && FindingsOf(db, db.events[e].lineage) != {}
  {
    if ids == [] then open else
      Adjusted(db, AdjustedAll(db, open, ids[..|ids| - 1]), ids[|ids| - 1])
  }

  function Predicted(db: Tables, r: Id): map<Id, Id>
    requires r in db.runs
  {
    AdjustedAll(db, Active(db, db.runs[r].pullRequest), EventRows(db, r))
  }

  // ---------------------------------------------------------------- the prediction, lineage by lineage

  predicate OwnLineages(db: Tables, ids: seq<Id>) {
    && (forall e <- ids :: e in db.events && FindingsOf(db, db.events[e].lineage) != {})
    && (forall i, j | 0 <= i < j < |ids| :: db.events[ids[i]].lineage != db.events[ids[j]].lineage)
  }

  lemma {:induction false} UntouchedStays(db: Tables, open: map<Id, Id>, ids: seq<Id>, l: Id)
    requires OwnLineages(db, ids) && forall e <- ids :: db.events[e].lineage != l
    ensures var later := AdjustedAll(db, open, ids); (l in later <==> l in open) && (l in open ==> later[l] == open[l])
  {
    if ids != [] {
      assert ids == ids[..|ids| - 1] + [ids[|ids| - 1]];
      UntouchedStays(db, open, ids[..|ids| - 1], l);
      hide FindingsOf, Greatest;
    }
  }

  /** What the run's own event makes of its lineage. */
  predicate Shown(db: Tables, open: map<Id, Id>, e: Id)
    requires e in db.events && FindingsOf(db, db.events[e].lineage) != {}
  {
    var l := db.events[e].lineage;
    if db.events[e].transition == Closed then l !in open
    else l in open && open[l] == Greatest(FindingsOf(db, l))
  }

  lemma {:induction false} TouchedSettles(db: Tables, open: map<Id, Id>, ids: seq<Id>, e: Id)
    requires OwnLineages(db, ids) && e in ids
    ensures Shown(db, AdjustedAll(db, open, ids), e)
  {
    var init, last := ids[..|ids| - 1], ids[|ids| - 1];
    assert ids == init + [last];
    if e != last {
      TouchedSettles(db, open, init, e);
      hide FindingsOf, Greatest;
    }
  }

  lemma RowsAreOwn(db: Tables, r: Id)
    requires Keyed(db)
    ensures OwnLineages(db, EventRows(db, r))
  {
    hide FindingsOf;
    var ids := EventRows(db, r);
    assert forall e <- ids :: e in db.events && db.events[e].run == r;
    forall i, j | 0 <= i < j < |ids| ensures db.events[ids[i]].lineage != db.events[ids[j]].lineage {
      assert ids[i] in ids && ids[j] in ids && ids[i] != ids[j];
    }
  }

  // ---------------------------------------------------------------- active lineages have published findings

  lemma ActiveHasFinding(db: Tables, l: Id)
    requires Consistent(db) && l in db.lineages && db.lineages[l].status == Status.Active
    ensures AppliedFindings(db, l) != {}
  {
    var word := History(db.events, db.applied, l);
    AcceptedWords(word);
    hide Keyed, Issued, Folded;
    var e := LastApplied(db.events, db.applied, l);
    assert EventIsWired(db, db.events[e]);
    assert AppliedFinding(db, db.events[e].finding.value);
    assert db.events[e].finding.value in AppliedFindings(db, l);
  }

  /** A lineage on which the run has an event that stays in the prediction or leaves it has some finding. */
  lemma EventHasFinding(db: Tables, e: Id)
    requires Consistent(db) && e in db.events && (db.events[e].transition == Closed ==> !Rejected(db, e))
    ensures FindingsOf(db, db.events[e].lineage) != {}
  {
    var l := db.events[e].lineage;
    assert EventIsWired(db, db.events[e]);
    if db.events[e].transition == Closed {
      ActiveHasFinding(db, l);
      var f :| f in AppliedFindings(db, l);
      assert f in FindingsOf(db, l);
    } else {
      assert db.events[e].finding.value in FindingsOf(db, l);
    }
  }

  // ---------------------------------------------------------------- the agreement

  /** The run's events are still provisional. */
  predicate Unapplied(db: Tables, r: Id) { forall e <- db.applied | e in db.events :: db.events[e].run != r }

  function SkippedLineages(db: Tables, r: Id, unanchored: set<Fingerprint>): set<Id> {
    set e <- db.events | db.events[e].run == r && e !in db.applied && Unanchored(db, e, unanchored) :: db.events[e].lineage
  }

  /** The newest finding of the event's lineage is the event's own, or one already published. */
  predicate NoneNewer(db: Tables, e: Id)
    requires e in db.events && FindingsOf(db, db.events[e].lineage) != {}
  {
    var newest := Greatest(FindingsOf(db, db.events[e].lineage));
    db.events[e].finding == Some(newest) || AppliedFinding(db, newest)
  }

  lemma RowsAreTheEvents(db: Tables, r: Id, unanchored: set<Fingerprint>)
    requires Consistent(db) && Activated(db, r, unanchored).Ok? && Unapplied(db, r)
    ensures forall e :: e in EventRows(db, r) <==> e in db.events && db.events[e].run == r
  {
    forall e <- db.events | db.events[e].run == r ensures FindingsOf(db, db.events[e].lineage) != {} {
      if !Unanchored(db, e, unanchored) {
        assert e in Applicable(db, r, unanchored);
      }
      EventHasFinding(db, e);
    }
    hide FindingsOf, Consistent, Activated;
  }

  /** The findings published on a lineage after activation: those before, and those of its applied events. */
  lemma AppliedFindingsAfter(db: Tables, ids: seq<Id>, l: Id, f: Id)
    requires Wired(db) && forall e <- ids :: e in db.events && db.events[e].lineage in db.lineages
    requires f in db.findings && db.findings[f].lineage == l
    ensures AppliedFinding(ApplyAll(db, ids), f)
            <==> AppliedFinding(db, f) || exists e <- ids :: db.events[e].lineage == l && db.events[e].finding == Some(f)
  {
    var later := ApplyAll(db, ids);
    assert later.applied == db.applied + ids && later.events == db.events;
    hide ApplyAll, Wired;
    if AppliedFinding(later, f) {
      var e :| e in later.applied && e in later.events && later.events[e].finding == Some(f);
      if e in ids { FindingIsOnItsLineage(db, e); }
    }
    if AppliedFinding(db, f) {
      var e :| e in db.applied && e in db.events && db.events[e].finding == Some(f);
      assert e in later.applied;
    }
    if e :| e in ids && db.events[e].lineage == l && db.events[e].finding == Some(f) {
      assert e in later.applied;
    }
  }

  lemma FindingIsOnItsLineage(db: Tables, e: Id)
    requires Wired(db) && e in db.events && db.events[e].finding.Some?
    ensures db.events[e].finding.value in db.findings
    ensures db.findings[db.events[e].finding.value].lineage == db.events[e].lineage
  {
    assert EventIsWired(db, db.events[e]);
  }

  lemma ApplicableAreWired(db: Tables, r: Id, unanchored: set<Fingerprint>)
    requires Consistent(db) && Activated(db, r, unanchored).Ok?
    ensures var ids := InOrder(Applicable(db, r, unanchored));
            && Applies(db, ids) && Activated(db, r, unanchored).value == ApplyAll(db, ids)
            && forall e <- ids :: e in db.events && db.events[e].run == r && db.events[e].lineage in db.lineages
  {
    ApplicableApplies(db, r, unanchored);
    hide Consistent, Applies;
    assert forall e <- Applicable(db, r, unanchored) :: !Rejected(db, e);
  }

  lemma UntouchedFindings(db: Tables, ids: seq<Id>, l: Id)
    requires Wired(db)
    requires forall e <- ids :: e in db.events && db.events[e].lineage in db.lineages && db.events[e].lineage != l
    ensures AppliedFindings(ApplyAll(db, ids), l) == AppliedFindings(db, l)
  {
    var later := ApplyAll(db, ids);
    assert later.findings == db.findings;
    hide AppliedFinding, ApplyAll, Wired;
    forall f <- db.findings | db.findings[f].lineage == l ensures AppliedFinding(later, f) <==> AppliedFinding(db, f) {
      AppliedFindingsAfter(db, ids, l, f);
    }
  }

  lemma UntouchedPublication(db: Tables, r: Id, unanchored: set<Fingerprint>, l: Id)
    requires Consistent(db) && Activated(db, r, unanchored).Ok?
    requires forall e <- db.events :: db.events[e].run != r || db.events[e].lineage != l
    ensures var later := Activated(db, r, unanchored).value;
            && (l in later.lineages <==> l in db.lineages) && (l in db.lineages ==> later.lineages[l] == db.lineages[l])
            && AppliedFindings(later, l) == AppliedFindings(db, l)
  {
    var ids := InOrder(Applicable(db, r, unanchored));
    ApplicableAreWired(db, r, unanchored);
    hide Keyed, Issued, Folded, Journaled, Applies, AppliedFindings, Activated, Applicable, Moved;
    ApplyAllByLineage(db, ids);
    UntouchedFindings(db, ids, l);
    hide Wired;
  }

  lemma UntouchedPrediction(db: Tables, r: Id, unanchored: set<Fingerprint>, l: Id)
    requires Consistent(db) && r in db.runs && Activated(db, r, unanchored).Ok? && Unapplied(db, r)
    requires forall e <- db.events :: db.events[e].run != r || db.events[e].lineage != l
    ensures var predicted, active := Predicted(db, r), Active(db, db.runs[r].pullRequest);
            && (l in predicted <==> l in active) && (l in active ==> predicted[l] == active[l])
  {
    RowsAreOwn(db, r);
    RowsAreTheEvents(db, r, unanchored);
    hide Consistent, Active, OwnLineages, EventRows, Activated;
    UntouchedStays(db, Active(db, db.runs[r].pullRequest), EventRows(db, r), l);
  }

  /** The run has no event on this lineage: prediction and publication leave it alone. */
  lemma UntouchedAgrees(db: Tables, r: Id, unanchored: set<Fingerprint>, l: Id)
    requires Consistent(db) && r in db.runs && Activated(db, r, unanchored).Ok? && Unapplied(db, r)
    requires forall e <- db.events :: db.events[e].run != r || db.events[e].lineage != l
    ensures AgreesOn(db, r, unanchored, l)
  {
    UntouchedPublication(db, r, unanchored, l);
    UntouchedPrediction(db, r, unanchored, l);
    hide Consistent, AppliedFindings, FindingsOf, Predicted, Activated, Unapplied, Unanchored, NoneNewer, Greatest;
    assert l !in SkippedLineages(db, r, unanchored);
  }

  /**
   * On lineage `l`: it is predicted open exactly when publication leaves it active or skips the run's event
   * on it, and what is predicted for an active one is what is committed unless a newer finding intervened.
   */
  predicate AgreesOn(db: Tables, r: Id, unanchored: set<Fingerprint>, l: Id)
    requires r in db.runs && Activated(db, r, unanchored).Ok?
  {
    var predicted, skipped := Predicted(db, r), SkippedLineages(db, r, unanchored);
    var committed := Active(Activated(db, r, unanchored).value, db.runs[r].pullRequest);
    && (l in predicted <==> l in committed || l in skipped)
    && (l in committed && l !in skipped ==>
        (predicted[l] == committed[l] <==> NoneNewerOn(db, r, l)))
    && (l in skipped ==> FindingsOf(db, l) != {} && predicted[l] == Greatest(FindingsOf(db, l)))
  }

  /** No unpublished finding of another run is newer than this run's on the lineage. */
  predicate NoneNewerOn(db: Tables, r: Id, l: Id) {
    forall e <- db.events | db.events[e].run == r && db.events[e].lineage == l && FindingsOf(db, l) != {} :: NoneNewer(db, e)
  }

  // The run has an event on the lineage.

  lemma TouchedPrediction(db: Tables, r: Id, unanchored: set<Fingerprint>, e: Id)
    requires Consistent(db) && r in db.runs && Activated(db, r, unanchored).Ok? && Unapplied(db, r)
    requires e in db.events && db.events[e].run == r
    ensures FindingsOf(db, db.events[e].lineage) != {} && Shown(db, Predicted(db, r), e)
  {
    RowsAreOwn(db, r);
    RowsAreTheEvents(db, r, unanchored);
    assert e in EventRows(db, r);
    hide Consistent, Active, EventRows, Activated, Shown, FindingsOf;
    assert FindingsOf(db, db.events[e].lineage) != {};
    TouchedSettles(db, Active(db, db.runs[r].pullRequest), EventRows(db, r), e);
  }

  lemma OnlyEvent(db: Tables, r: Id, unanchored: set<Fingerprint>, e: Id)
    requires Keyed(db) && e in db.events && db.events[e].run == r && e !in db.applied
    ensures forall d <- db.events | db.events[d].run == r && db.events[d].lineage == db.events[e].lineage :: d == e
    ensures db.events[e].lineage in SkippedLineages(db, r, unanchored) <==> Unanchored(db, e, unanchored)
    ensures e in Applicable(db, r, unanchored) <==> !Unanchored(db, e, unanchored)
    ensures forall d <- Applicable(db, r, unanchored) | d != e :: db.events[d].lineage != db.events[e].lineage
  {
    hide Unanchored;
  }

  lemma SkippedAgrees(db: Tables, r: Id, unanchored: set<Fingerprint>, e: Id)
    requires Consistent(db) && r in db.runs && Activated(db, r, unanchored).Ok? && Unapplied(db, r)
    requires e in db.events && db.events[e].run == r && Unanchored(db, e, unanchored)
    ensures AgreesOn(db, r, unanchored, db.events[e].lineage)
  {
    assert e !in db.applied && db.events[e].transition == New;
    OnlyEvent(db, r, unanchored, e);
    TouchedPrediction(db, r, unanchored, e);
    assert db.events[e].lineage in SkippedLineages(db, r, unanchored);
    hide Consistent, Active, Activated, Predicted, SkippedLineages, FindingsOf, Unapplied, NoneNewerOn, Unanchored;
    assert AgreesOn(db, r, unanchored, db.events[e].lineage);
  }

  /** An applied event that does not close its lineage leaves it active, its finding among the published. */
  lemma OpenedPublication(db: Tables, ids: seq<Id>, e: Id)
    requires Wired(db) && Applies(db, ids) && e in ids && db.events[e].transition != Closed
    requires forall d <- ids :: d in db.events && db.events[d].lineage in db.lineages
    requires forall d <- ids | d != e :: db.events[d].lineage != db.events[e].lineage
    ensures var later, l := ApplyAll(db, ids), db.events[e].lineage;
            && later.lineages[l].status == Status.Active && later.lineages[l].pullRequest == db.lineages[l].pullRequest
            && db.events[e].finding.Some?
            && AppliedFindings(later, l) == AppliedFindings(db, l) + {db.events[e].finding.value}
  {
    var later, l := ApplyAll(db, ids), db.events[e].lineage;
    ApplyAllByLineage(db, ids);
    assert EventIsWired(db, db.events[e]);
    assert later.findings == db.findings;
    assert later.lineages[l] == Moved(db.lineages[l], db.events[e]);
    hide AppliedFinding, ApplyAll, Wired, Applies;
    forall f <- db.findings | db.findings[f].lineage == l
      ensures AppliedFinding(later, f) <==> AppliedFinding(db, f) || db.events[e].finding == Some(f)
    {
      AppliedFindingsAfter(db, ids, l, f);
    }
  }

  lemma ClosedPublication(db: Tables, ids: seq<Id>, e: Id)
    requires Wired(db) && Applies(db, ids) && e in ids && db.events[e].transition == Closed
    requires e in db.events && db.events[e].lineage in db.lineages
    ensures ApplyAll(db, ids).lineages[db.events[e].lineage].status == Addressed
  {
    ApplyAllByLineage(db, ids);
  }

  lemma GreatestOfSome(all: set<Id>, some: set<Id>)
    requires some != {} && some <= all
    ensures Greatest(all) == Greatest(some) <==> Greatest(all) in some
  {
  }

  lemma ClosedAgrees(db: Tables, r: Id, unanchored: set<Fingerprint>, e: Id)
    requires r in db.runs && Activated(db, r, unanchored).Ok? && e in db.events && db.events[e].transition == Closed
    requires FindingsOf(db, db.events[e].lineage) != {} && Shown(db, Predicted(db, r), e)
    requires db.events[e].lineage !in SkippedLineages(db, r, unanchored)
    requires var later, l := Activated(db, r, unanchored).value, db.events[e].lineage;
             l in later.lineages && later.lineages[l].status == Addressed
    ensures AgreesOn(db, r, unanchored, db.events[e].lineage)
  {
    hide Activated, Predicted, SkippedLineages, FindingsOf, AppliedFindings;
  }

  lemma AppliedAgrees(db: Tables, r: Id, unanchored: set<Fingerprint>, e: Id)
    requires Consistent(db) && r in db.runs && Activated(db, r, unanchored).Ok? && Unapplied(db, r)
    requires e in db.events && db.events[e].run == r && !Unanchored(db, e, unanchored)
    ensures AgreesOn(db, r, unanchored, db.events[e].lineage)
  {
    var l, ids := db.events[e].lineage, InOrder(Applicable(db, r, unanchored));
    assert e !in db.applied;
    assert EventIsWired(db, db.events[e]);
    hide Activated, Predicted, SkippedLineages, Applicable, Unanchored, Applies, Wired, Keyed, Issued, Journaled, Folded;
    hide Shown, AgreesOn, FindingsOf, AppliedFindings, ApplyAll;
    OnlyEvent(db, r, unanchored, e);
    TouchedPrediction(db, r, unanchored, e);
    ApplicableAreWired(db, r, unanchored);
    assert e in ids;
    if db.events[e].transition == Closed {
      ClosedPublication(db, ids, e);
      ClosedAgrees(db, r, unanchored, e);
    } else {
      OpenedPublication(db, ids, e);
      OpenedAgrees(db, r, unanchored, e);
    }
  }

  lemma OpenedAgrees(db: Tables, r: Id, unanchored: set<Fingerprint>, e: Id)
    requires Wired(db) && r in db.runs && Activated(db, r, unanchored).Ok?
    requires e in db.events && db.events[e].run == r && db.events[e].finding.Some?
    requires db.events[e].lineage in db.lineages && db.lineages[db.events[e].lineage].pullRequest == db.runs[r].pullRequest
    requires forall d <- db.events | db.events[d].run == r && db.events[d].lineage == db.events[e].lineage :: d == e
    requires FindingsOf(db, db.events[e].lineage) != {} && Shown(db, Predicted(db, r), e)
    requires db.events[e].transition != Closed && db.events[e].lineage !in SkippedLineages(db, r, unanchored)
    requires var later, l := Activated(db, r, unanchored).value, db.events[e].lineage;
             && l in later.lineages && later.lineages[l].status == Status.Active
             && later.lineages[l].pullRequest == db.lineages[l].pullRequest
             && AppliedFindings(later, l) == AppliedFindings(db, l) + {db.events[e].finding.value}
    ensures AgreesOn(db, r, unanchored, db.events[e].lineage)
  {
    hide Activated, Predicted, SkippedLineages, Wired, AppliedFinding;
    var l := db.events[e].lineage;
    var all, some := FindingsOf(db, l), AppliedFindings(db, l) + {db.events[e].finding.value};
    FindingIsOnItsLineage(db, e);
    assert some <= all && some != {};
    GreatestOfSome(all, some);
    assert NoneNewer(db, e) <==> Greatest(all) in some;
    hide Activated, Predicted, SkippedLineages, FindingsOf, AppliedFindings, Wired, NoneNewer;
  }

  /** Before publication and after it, lineage by lineage and finding by finding. */
  lemma PredictionAgreesWithPublication(db: Tables, r: Id, unanchored: set<Fingerprint>, l: Id)
    requires Invariant(db) && r in db.runs && Activated(db, r, unanchored).Ok? && Unapplied(db, r)
    ensures AgreesOn(db, r, unanchored, l)
  {
    assert Consistent(db);
    hide *;
    if e :| e in db.events && db.events[e].run == r && db.events[e].lineage == l {
      if Unanchored(db, e, unanchored) {
        SkippedAgrees(db, r, unanchored, e);
      } else {
        AppliedAgrees(db, r, unanchored, e);
      }
    } else {
      UntouchedAgrees(db, r, unanchored, l);
    }
  }

  // ---------------------------------------------------------------- the whole prediction, and the check it decides

  function NewestOn(db: Tables, ls: set<Id>): map<Id, Id>
    requires forall l <- ls :: FindingsOf(db, l) != {}
  {
    map l <- ls :: Greatest(FindingsOf(db, l))
  }

  lemma UnanchoredHasFinding(db: Tables, e: Id, unanchored: set<Fingerprint>)
    requires e in db.events && Unanchored(db, e, unanchored)
    ensures db.events[e].finding.Some?
  {
  }

  lemma SkippedHaveFindings(db: Tables, r: Id, unanchored: set<Fingerprint>)
    requires Wired(db)
    ensures forall l <- SkippedLineages(db, r, unanchored) :: FindingsOf(db, l) != {}
  {
    forall l <- SkippedLineages(db, r, unanchored) ensures FindingsOf(db, l) != {} {
      var e :| e in db.events && Unanchored(db, e, unanchored) && db.events[e].lineage == l;
      UnanchoredHasFinding(db, e, unanchored);
      FindingIsOnItsLineage(db, e);
      assert db.events[e].finding.value in FindingsOf(db, l);
    }
  }

  /** The run's findings are the newest on their lineages, but for findings already published. */
  predicate Uncontested(db: Tables, r: Id) {
    forall e <- db.events | db.events[e].run == r && FindingsOf(db, db.events[e].lineage) != {} :: NoneNewer(db, e)
  }

  /** The open findings of the request once the run is published, with those publication could not anchor. */
  function Committed(db: Tables, r: Id, unanchored: set<Fingerprint>): map<Id, Id>
    requires r in db.runs && Activated(db, r, unanchored).Ok?
    requires forall l <- SkippedLineages(db, r, unanchored) :: FindingsOf(db, l) != {}
  {
    Active(Activated(db, r, unanchored).value, db.runs[r].pullRequest) + NewestOn(db, SkippedLineages(db, r, unanchored))
  }

  lemma AgreementOnOne(db: Tables, r: Id, unanchored: set<Fingerprint>, l: Id)
    requires r in db.runs && Activated(db, r, unanchored).Ok? && AgreesOn(db, r, unanchored, l) && NoneNewerOn(db, r, l)
    requires forall k <- SkippedLineages(db, r, unanchored) :: FindingsOf(db, k) != {}
    ensures l in Predicted(db, r) <==> l in Committed(db, r, unanchored)
    ensures l in Predicted(db, r) ==> Predicted(db, r)[l] == Committed(db, r, unanchored)[l]
  {
    hide Activated, Predicted, Active, SkippedLineages, FindingsOf, NoneNewerOn;
  }

  lemma UncontestedOn(db: Tables, r: Id, l: Id)
    requires Uncontested(db, r)
    ensures NoneNewerOn(db, r, l)
  {
    hide NoneNewer, FindingsOf;
  }

  /** The open findings predicted are the published ones of the active lineages and those publication skips. */
  lemma PredictionIsWhatPublicationCommits(db: Tables, r: Id, unanchored: set<Fingerprint>)
    requires Invariant(db) && r in db.runs && Activated(db, r, unanchored).Ok? && Unapplied(db, r) && Uncontested(db, r)
    ensures forall l <- SkippedLineages(db, r, unanchored) :: FindingsOf(db, l) != {}
    ensures Predicted(db, r) == Committed(db, r, unanchored)
  {
    SkippedHaveFindings(db, r, unanchored);
    hide *;
    forall l
      ensures l in Predicted(db, r) <==> l in Committed(db, r, unanchored)
      ensures l in Predicted(db, r) ==> Predicted(db, r)[l] == Committed(db, r, unanchored)[l]
    {
      PredictionAgreesWithPublication(db, r, unanchored, l);
      UncontestedOn(db, r, l);
      AgreementOnOne(db, r, unanchored, l);
    }
  }

  datatype Conclusion = SkippedCheck | Failure | Success

  function OpenFindings(db: Tables, open: map<Id, Id>): set<Finding>
    requires forall l <- open :: open[l] in db.findings
  {
    set l <- open :: db.findings[open[l]].finding
  }

  function ReviewConclusion(publishable: bool, blocking: set<Severity>, unresolved: set<Finding>): Conclusion {
    if !publishable then SkippedCheck
    else if exists finding <- unresolved :: finding.severity in blocking then Failure
    else Success
  }

  /** A check without publication is skipped; with it, the check is red or green. */
  predicate Answers(conclusion: Conclusion, publishable: bool, red: bool) {
    && (conclusion == SkippedCheck <==> !publishable)
    && (conclusion == Failure <==> publishable && red)
    && (conclusion == Success <==> publishable && !red)
  }

  predicate Blocks(db: Tables, f: Id, blocking: set<Severity>) {
    f in db.findings && db.findings[f].finding.severity in blocking
  }

  lemma CommittedAreStored(db: Tables, r: Id, unanchored: set<Fingerprint>)
    requires r in db.runs && Activated(db, r, unanchored).Ok?
    requires forall l <- SkippedLineages(db, r, unanchored) :: FindingsOf(db, l) != {}
    ensures Activated(db, r, unanchored).value.findings == db.findings
    ensures forall l <- Committed(db, r, unanchored) :: Committed(db, r, unanchored)[l] in db.findings
  {
    assert Activated(db, r, unanchored).value.findings == db.findings;
    hide Activated, SkippedLineages;
  }

  /**
   * The check is skipped exactly when publication is off; otherwise it fails when publication leaves some blocking
   * finding open, active or skipped, and succeeds when it leaves none.
   */
  lemma ConclusionFollowsPublication(db: Tables, r: Id, unanchored: set<Fingerprint>, publishable: bool, blocking: set<Severity>)
    requires Invariant(db) && r in db.runs && Activated(db, r, unanchored).Ok? && Unapplied(db, r) && Uncontested(db, r)
    ensures forall l <- Predicted(db, r) :: Predicted(db, r)[l] in db.findings
    ensures forall l <- SkippedLineages(db, r, unanchored) :: FindingsOf(db, l) != {}
    ensures var later := Activated(db, r, unanchored).value;
            var active, skipped := Active(later, db.runs[r].pullRequest), SkippedLineages(db, r, unanchored);
            Answers(ReviewConclusion(publishable, blocking, OpenFindings(db, Predicted(db, r))), publishable,
                    (exists l <- active | l !in skipped :: Blocks(later, active[l], blocking))
                    || exists l <- skipped :: Blocks(db, Greatest(FindingsOf(db, l)), blocking))
  {
    hide Invariant, Predicted, Activated, SkippedLineages, Uncontested, Unapplied, Active, FindingsOf, OpenFindings;
    hide ReviewConclusion, Blocks, Answers;
    PredictionIsWhatPublicationCommits(db, r, unanchored);
    CommittedAreStored(db, r, unanchored);
    ConclusionOf(db, Predicted(db, r), publishable, blocking);
    var later, skipped := Activated(db, r, unanchored).value, SkippedLineages(db, r, unanchored);
    EitherBlocks(db, later, Active(later, db.runs[r].pullRequest), NewestOn(db, skipped), blocking);
    assert NewestOn(db, skipped).Keys == skipped;
    assert forall l <- skipped :: NewestOn(db, skipped)[l] == Greatest(FindingsOf(db, l));
    assert Predicted(db, r) == Active(later, db.runs[r].pullRequest) + NewestOn(db, skipped);
  }

  lemma EitherBlocks(db: Tables, later: Tables, active: map<Id, Id>, newest: map<Id, Id>, blocking: set<Severity>)
    requires later.findings == db.findings
    ensures (exists l <- active + newest :: Blocks(db, (active + newest)[l], blocking))
            <==> ((exists l <- active | l !in newest :: Blocks(later, active[l], blocking))
                  || exists l <- newest :: Blocks(db, newest[l], blocking))
  {
    assert forall f :: Blocks(later, f, blocking) <==> Blocks(db, f, blocking);
    hide Blocks;
    var both := active + newest;
    if l :| l in both && Blocks(db, both[l], blocking) {
      assert l in newest || (l in active && l !in newest);
    }
    if l :| l in newest && Blocks(db, newest[l], blocking) { assert both[l] == newest[l]; }
    if l :| l in active && l !in newest && Blocks(later, active[l], blocking) { assert both[l] == active[l]; }
  }

  lemma ConclusionOf(db: Tables, open: map<Id, Id>, publishable: bool, blocking: set<Severity>)
    requires forall l <- open :: open[l] in db.findings
    ensures Answers(ReviewConclusion(publishable, blocking, OpenFindings(db, open)), publishable,
                    exists l <- open :: Blocks(db, open[l], blocking))
  {
    if l :| l in open && Blocks(db, open[l], blocking) {
      assert db.findings[open[l]].finding in OpenFindings(db, open);
    }
  }
}
