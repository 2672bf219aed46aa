/**
 * The tables behind finding lineage, the constraints their schema declares, and what an applied
 * history of one lineage may spell.
 */
module Lineage {
  import opened Wrappers
  import Text
  import opened Rows

  type Fingerprint = Text.Text

  // ---------------------------------------------------------------- one lineage

  datatype Status = Pending | Active | Addressed
  datatype Transition = New | Persistent | Reopened | Closed

  /** The status a lineage must have for a transition to be applied to it. */
  function Expected(t: Transition): Status {
    match t
    case New => Pending
    case Persistent => Active
    case Reopened => Addressed
    case Closed => Active
  }

  function Reached(t: Transition): Status { if t == Closed then Addressed else Active }

  /** The status a lineage reaches by a word of transitions, unless one of them is rejected. */
  function Fold(word: seq<Transition>): Option<Status> {
    if word == [] then Some(Pending) else
      var t := word[|word| - 1];
      if Fold(word[..|word| - 1]) == Some(Expected(t)) then Some(Reached(t)) else None
  }

  /** `new (persistent | addressed reopened)* addressed?`, or nothing at all. */
  predicate Spelled(word: seq<Transition>) {
    word == [] || (word[0] == New && Continued(word[1..]))
  }

  predicate Continued(word: seq<Transition>) {
    || word == [] || word == [Closed]
    || (word[0] == Persistent && Continued(word[1..]))
    || (|word| >= 2 && word[0] == Closed && word[1] == Reopened && Continued(word[2..]))
  }

  lemma {:induction false} FoldSplits(word: seq<Transition>, i: nat)
    requires i <= |word| && Fold(word).Some?
    ensures Fold(word[..i]).Some?
  {
    if i == |word| {
      assert word[..i] == word;
    } else {
      FoldSplits(word[..|word| - 1], i);
      assert word[..|word| - 1][..i] == word[..i];
    }
  }

  /** From an active lineage, the rest of a word is accepted exactly when it is a continuation. */
  lemma {:induction false} ContinuationsAreAccepted(prefix: seq<Transition>, rest: seq<Transition>)
    requires Fold(prefix) == Some(Active)
    ensures Fold(prefix + rest).Some? <==> Continued(rest)
    ensures rest != [] && Continued(rest) ==> Fold(prefix + rest) == Some(Reached(rest[|rest| - 1]))
    decreases |rest|
  {
    if rest == [] {
      assert prefix + rest == prefix;
    } else {
      var one := prefix + [rest[0]];
      assert one[..|prefix|] == prefix;
      assert one + rest[1..] == prefix + rest;
      assert (prefix + rest)[..|one|] == one;
      if rest[0] == Persistent {
        ContinuationsAreAccepted(one, rest[1..]);
      } else if rest[0] == Closed && |rest| >= 2 && rest[1] == Reopened {
        var two := one + [rest[1]];
        assert two[..|one|] == one;
        assert two + rest[2..] == prefix + rest;
        ContinuationsAreAccepted(two, rest[2..]);
      } else if rest[0] == Closed && |rest| >= 2 {
        var two := one + [rest[1]];
        assert two[..|one|] == one && (prefix + rest)[..|two|] == two;
        if Fold(prefix + rest).Some? { FoldSplits(prefix + rest, |two|); }
      } else if Fold(prefix + rest).Some? {
        FoldSplits(prefix + rest, |one|);
      }
    }
  }

  /** The words the status table accepts are exactly the spelled ones, and they end as they read. */
  lemma {:induction false} AcceptedWords(word: seq<Transition>)
    ensures Fold(word).Some? <==> Spelled(word)
    ensures Fold(word) == Some(Pending) <==> word == []
    ensures Fold(word).Some? && word != [] ==> Fold(word) == Some(Reached(word[|word| - 1]))
  {
    if word != [] {
      var one := [word[0]];
      assert one[..0] == [] && word[..1] == one && one + word[1..] == word;
      if word[0] == New {
        ContinuationsAreAccepted(one, word[1..]);
      } else if Fold(word).Some? {
        FoldSplits(word, 1);
      }
    }
  }

  // ---------------------------------------------------------------- the tables

  datatype Severity = Critical | High | Medium | Low

  /** A reported finding; `text` stands for the fields that only travel along. */
  datatype Finding = Finding(fingerprint: Fingerprint, severity: Severity, filePath: string, text: string)

  datatype RunStatus = Generating | Ready | Skipped | Publishing | Published | Failed | Superseded

  datatype Run = Run(job: Id, pullRequest: Id, revision: string, configuration: string,
                     status: RunStatus, publishable: bool)

  datatype LineageRow = LineageRow(pullRequest: Id, initial: Fingerprint, status: Status, firstSeen: Id,
                                   lastSeen: Option<Id>, addressedBy: Option<Id>)

  datatype FindingRow = FindingRow(run: Id, lineage: Id, ordinal: nat, finding: Finding)

  datatype Event = Event(lineage: Id, run: Id, finding: Option<Id>, transition: Transition)

  datatype Publication = Publication(run: Id, provider: string, published: bool)

  /**
   * `applied` lists the events whose `applied_at` is set, in the order it was set; `threads` maps a
   * lineage to the root comment of its review thread; `serial` is above every id handed out.
   */
  datatype Tables = Tables(runs: map<Id, Run>, lineages: map<Id, LineageRow>, findings: map<Id, FindingRow>,
                           events: map<Id, Event>, applied: seq<Id>, threads: map<Id, string>,
                           publications: map<Id, Publication>, serial: Id)

  const EMPTY := Tables(map[], map[], map[], map[], [], map[], map[], 0)

  /** The applied transitions of one lineage, oldest first. */
  function History(events: map<Id, Event>, applied: seq<Id>, l: Id): seq<Transition>
    requires forall id <- applied :: id in events
  {
    if applied == [] then [] else
      var event := events[applied[|applied| - 1]];
      History(events, applied[..|applied| - 1], l) + (if event.lineage == l then [event.transition] else [])
  }

  // ---------------------------------------------------------------- what the schema enforces

  predicate EventIsWired(db: Tables, event: Event) {
    && event.lineage in db.lineages && event.run in db.runs
    && db.lineages[event.lineage].pullRequest == db.runs[event.run].pullRequest
    && (event.transition == Closed <==> event.finding == None)
    && (event.finding.Some? ==>
        event.finding.value in db.findings
        && db.findings[event.finding.value].lineage == event.lineage
        && db.findings[event.finding.value].run == event.run)
  }

  /** Foreign keys and row checks. */
  predicate Wired(db: Tables) {
    && (forall e <- db.events :: EventIsWired(db, db.events[e]))
    && (forall f <- db.findings :: db.findings[f].lineage in db.lineages && db.findings[f].run in db.runs)
    && (forall l <- db.lineages :: db.lineages[l].status == Addressed <==> db.lineages[l].addressedBy.Some?)
    && (forall p <- db.publications :: db.publications[p].run in db.runs)
  }

  /** Unique keys. */
  predicate Keyed(db: Tables) {
    && (forall d, e | d in db.events && e in db.events && d != e ::
          (db.events[d].lineage, db.events[d].run) != (db.events[e].lineage, db.events[e].run))
    && (forall k, l | k in db.lineages && l in db.lineages && k != l ::
          (db.lineages[k].pullRequest, db.lineages[k].initial) != (db.lineages[l].pullRequest, db.lineages[l].initial))
  }

  predicate Issued(db: Tables) {
    && (forall r <- db.runs :: r < db.serial)
    && (forall l <- db.lineages :: l < db.serial)
    && (forall f <- db.findings :: f < db.serial)
    && (forall e <- db.events :: e < db.serial)
    && (forall p <- db.publications :: p < db.serial)
  }

  /** Each applied event is a stored event, applied once. */
  predicate Journaled(db: Tables) {
    Distinct(db.applied) && forall e <- db.applied :: e in db.events
  }

  /** A lineage's status is the fold of its applied events. */
  predicate Folded(db: Tables)
    requires Journaled(db)
  {
    forall l <- db.lineages :: Fold(History(db.events, db.applied, l)) == Some(db.lineages[l].status)
  }

  /** Only events of published runs are applied. */
  predicate Settled(db: Tables)
    requires Wired(db) && Journaled(db)
  {
    forall e <- db.applied :: db.runs[db.events[e].run].status == Published
  }

  predicate Consistent(db: Tables) {
    Wired(db) && Keyed(db) && Issued(db) && Journaled(db) && Folded(db)
  }

  predicate Invariant(db: Tables) { Consistent(db) && Settled(db) }

  // ---------------------------------------------------------------- what no step may lose

  predicate KeepsEvents(db: Tables, later: Tables) {
    && db.applied <= later.applied
    && forall e <- db.applied | e in db.events :: e in later.events && later.events[e] == db.events[e]
  }

  predicate KeepsLineages(db: Tables, later: Tables) {
    forall l <- db.lineages | db.lineages[l].status != Pending ::
      l in later.lineages && later.lineages[l].status != Pending
      && later.lineages[l].pullRequest == db.lineages[l].pullRequest
      && later.lineages[l].initial == db.lineages[l].initial
  }

  predicate AppliedFinding(db: Tables, f: Id) {
    exists e <- db.applied :: e in db.events && db.events[e].finding == Some(f)
  }

  function AppliedFindings(db: Tables, l: Id): set<Id> {
    set f <- db.findings | db.findings[f].lineage == l && AppliedFinding(db, f)
  }

  predicate KeepsFindings(db: Tables, later: Tables) {
    forall f <- db.findings | AppliedFinding(db, f) :: f in later.findings && later.findings[f] == db.findings[f]
  }

  predicate KeepsPublished(db: Tables, later: Tables) {
    forall r <- db.runs :: r in later.runs && (db.runs[r].status == Published ==> later.runs[r].status == Published)
  }

  /** Applied events, their findings, lineages past pending and published runs all stay. */
  predicate Keeps(db: Tables, later: Tables) {
    && KeepsEvents(db, later) && KeepsLineages(db, later)
    && KeepsFindings(db, later) && KeepsPublished(db, later)
  }

  lemma KeepingIsTransitive(a: Tables, b: Tables, c: Tables)
    requires Journaled(a) && Journaled(b)
    requires Keeps(a, b) && Keeps(b, c)
    ensures Keeps(a, c)
  {
    assert forall e <- a.applied :: e in b.applied;
    forall f <- a.findings | AppliedFinding(a, f) ensures f in c.findings && c.findings[f] == a.findings[f] {
      var e :| e in a.applied && e in a.events && a.events[e].finding == Some(f);
      assert e in b.applied && b.events[e].finding == Some(f);
      assert AppliedFinding(b, f);
    }
  }

  lemma {:induction false} HistoryReadsAppliedEvents(events: map<Id, Event>, later: map<Id, Event>, applied: seq<Id>, l: Id)
    requires forall e <- applied :: e in events && e in later && later[e] == events[e]
    ensures History(later, applied, l) == History(events, applied, l)
  {
    if applied != [] {
      HistoryReadsAppliedEvents(events, later, applied[..|applied| - 1], l);
    }
  }

  lemma HistoryGrows(events: map<Id, Event>, applied: seq<Id>, e: Id, l: Id)
    requires e in events && forall d <- applied :: d in events
    ensures History(events, applied + [e], l)
         == History(events, applied, l) + (if events[e].lineage == l then [events[e].transition] else [])
  {
    assert (applied + [e])[..|applied|] == applied;
  }

  /** The last word of a history is the transition of some applied event on that lineage. */
  lemma {:induction false} LastApplied(events: map<Id, Event>, applied: seq<Id>, l: Id) returns (e: Id)
    requires forall d <- applied :: d in events
    requires History(events, applied, l) != []
    ensures e in applied && events[e].lineage == l
    ensures var word := History(events, applied, l); events[e].transition == word[|word| - 1]
  {
    e := applied[|applied| - 1];
    if events[e].lineage != l {
      e := LastApplied(events, applied[..|applied| - 1], l);
    }
  }

  lemma {:induction false} NothingApplied(events: map<Id, Event>, applied: seq<Id>, l: Id)
    requires forall d <- applied :: d in events
    ensures History(events, applied, l) == [] <==> forall e <- applied :: events[e].lineage != l
  {
    if applied != [] {
      var rest, last := applied[..|applied| - 1], applied[|applied| - 1];
      NothingApplied(events, rest, l);
      assert applied == rest + [last];
      assert forall e <- applied :: e in rest || e == last;
      assert forall e <- rest :: e in applied;
    }
  }

  /** A pending lineage has no applied event: its deletion cannot take one along. */
  lemma PendingHasNoApplied(db: Tables, l: Id)
    requires Consistent(db) && l in db.lineages
    ensures db.lineages[l].status == Pending <==> forall e <- db.applied :: db.events[e].lineage != l
  {
    AcceptedWords(History(db.events, db.applied, l));
    NothingApplied(db.events, db.applied, l);
  }
}
