/** Matching a report's findings with the lineages a pull request already has. */
module Classifier {
  import opened Wrappers
  import opened Rows
  import opened Lineage
  import opened LineageIntake
  import Text

  const MATCH_THRESHOLD := 0.68

  datatype Historical = Historical(lineage: Id, status: Status, finding: Finding)

  /** A pair of positions, current and historical, that are similar enough. */
  datatype Candidate = Candidate(score: real, current: nat, history: nat)

  /** Highest score first, then the older lineage, then the smaller fingerprint. */
  predicate NoLaterThan(a: Candidate, b: Candidate, current: seq<Finding>, history: seq<Historical>)
    requires a.current < |current| && b.current < |current| && a.history < |history| && b.history < |history|
  {
    || a.score > b.score
    || (a.score == b.score
        && (history[a.history].lineage < history[b.history].lineage
            || (history[a.history].lineage == history[b.history].lineage
                && !Text.Before(current[b.current].fingerprint, current[a.current].fingerprint))))
  }

  lemma NoLaterIsTotal(a: Candidate, b: Candidate, current: seq<Finding>, history: seq<Historical>)
    requires a.current < |current| && b.current < |current| && a.history < |history| && b.history < |history|
    ensures NoLaterThan(a, b, current, history) || NoLaterThan(b, a, current, history)
  {
    Text.BeforeTotal(current[a.current].fingerprint, current[b.current].fingerprint);
  }

  lemma NoLaterIsTransitive(a: Candidate, b: Candidate, c: Candidate, current: seq<Finding>, history: seq<Historical>)
    requires a.current < |current| && b.current < |current| && c.current < |current|
    requires a.history < |history| && b.history < |history| && c.history < |history|
    requires NoLaterThan(a, b, current, history) && NoLaterThan(b, c, current, history)
    ensures NoLaterThan(a, c, current, history)
  {
    var f, g, h := current[a.current].fingerprint, current[b.current].fingerprint, current[c.current].fingerprint;
    Text.BeforeTotal(f, g);
    Text.BeforeTotal(g, h);
    if Text.Before(h, f) && Text.Before(f, g) { Text.BeforeTransitive(h, f, g); }
  }

  predicate InRange(cs: seq<Candidate>, current: seq<Finding>, history: seq<Historical>) {
    forall c <- cs :: c.current < |current| && c.history < |history|
  }

  function Insert(cs: seq<Candidate>, c: Candidate, current: seq<Finding>, history: seq<Historical>): seq<Candidate>
    requires InRange(cs, current, history) && InRange([c], current, history)
    ensures forall d :: d in Insert(cs, c, current, history) <==> d in cs || d == c
  {
    assert c in [c];
    if cs == [] then [c]
    else if NoLaterThan(cs[|cs| - 1], c, current, history) then cs + [c]
    else Insert(cs[..|cs| - 1], c, current, history) + [cs[|cs| - 1]]
  }

  // ---------------------------------------------------------------- the greedy matching

  type Matching = map<nat, nat>

  predicate Takes(m: Matching, c: Candidate) { c.current in m && m[c.current] == c.history }

  predicate Overlap(c: Candidate, d: Candidate) { c.current == d.current || c.history == d.history }

  /** Pairs of candidates, one to one, and each candidate left out overlaps an earlier one that was taken. */
  ghost predicate GreedyMatching(cs: seq<Candidate>, m: Matching) {
    && (forall i <- m :: exists c <- cs :: c.current == i && Takes(m, c))
    && (forall i, j | i in m && j in m && m[i] == m[j] :: i == j)
    && (forall k | 0 <= k < |cs| && !Takes(m, cs[k]) :: exists i :: 0 <= i < k && Takes(m, cs[i]) && Overlap(cs[i], cs[k]))
  }

  lemma TakenTogether(cs: seq<Candidate>, m: Matching, n: Matching, k: nat)
    requires GreedyMatching(cs, m) && GreedyMatching(cs, n) && k < |cs| && Takes(m, cs[k])
    requires forall i | 0 <= i < k :: Takes(m, cs[i]) <==> Takes(n, cs[i])
    ensures Takes(n, cs[k])
  {
    forall i | 0 <= i < k && Takes(n, cs[i]) && Overlap(cs[i], cs[k]) ensures Takes(n, cs[k]) {
      assert Takes(m, cs[i]);
    }
  }

  /** The order of the candidates leaves only one such matching. */
  lemma {:induction false} GreedyMatchingIsUnique(cs: seq<Candidate>, m: Matching, n: Matching, k: nat)
    requires GreedyMatching(cs, m) && GreedyMatching(cs, n) && k <= |cs|
    ensures forall i | 0 <= i < k :: Takes(m, cs[i]) <==> Takes(n, cs[i])
  {
    if k > 0 {
      GreedyMatchingIsUnique(cs, m, n, k - 1);
      hide GreedyMatching, Takes;
      if Takes(m, cs[k - 1]) { TakenTogether(cs, m, n, k - 1); }
      if Takes(n, cs[k - 1]) { TakenTogether(cs, n, m, k - 1); }
    }
  }

  method Match(cs: seq<Candidate>) returns (m: Matching)
    ensures GreedyMatching(cs, m)
  {
    m := map[];
    var taken: set<nat> := {};
    for k := 0 to |cs|
      invariant forall i <- m :: m[i] in taken && exists c <- cs[..k] :: c.current == i && Takes(m, c)
      invariant forall h <- taken :: exists i <- m :: m[i] == h
      invariant forall i, j | i in m && j in m && m[i] == m[j] :: i == j
      invariant forall j | 0 <= j < k && !Takes(m, cs[j]) :: exists i :: 0 <= i < j && Takes(m, cs[i]) && Overlap(cs[i], cs[j])
    {
      var c := cs[k];
      assert cs[..k + 1] == cs[..k] + [c];
      if c.current in m || c.history in taken {
        ghost var i :| i in m && (i == c.current || m[i] == c.history);
        ghost var d :| d in cs[..k] && d.current == i && Takes(m, d);
        continue;
      }
      ghost var before := m;
      m := m[c.current := c.history];
      taken := taken + {c.history};
      assert forall d: Candidate :: Takes(before, d) ==> Takes(m, d);
      assert Takes(m, c) && c in cs[..k + 1];
    }
    assert cs[..|cs|] == cs;
  }

  // ---------------------------------------------------------------- the transitions

  function EffectivePath(path: string, aliases: map<string, string>): string {
    if path in aliases then aliases[path] else path
  }

  function CurrentChange(finding: Finding, i: nat, history: seq<Historical>, m: Matching): Change
    requires forall j <- m :: m[j] < |history|
  {
    if i in m then
      var h := history[m[i]];
      Change(if h.status == Addressed then Reopened else Persistent, Some(h.lineage), Some(finding))
    else Change(New, None, Some(finding))
  }

  predicate IsAddressed(h: Historical, i: nat, m: Matching, touched: set<string>, aliases: map<string, string>) {
    && i !in m.Values && h.status == Active
    && (h.finding.filePath in touched || EffectivePath(h.finding.filePath, aliases) in touched)
  }

  function CurrentChanges(current: seq<Finding>, history: seq<Historical>, m: Matching, n: nat): seq<Change>
    requires n <= |current| && forall j <- m :: m[j] < |history|
  {
    if n == 0 then [] else
      CurrentChanges(current, history, m, n - 1) + [CurrentChange(current[n - 1], n - 1, history, m)]
  }

  function AddressedChanges(history: seq<Historical>, m: Matching, touched: set<string>, aliases: map<string, string>, n: nat)
    : seq<Change>
    requires n <= |history|
  {
    if n == 0 then [] else
      AddressedChanges(history, m, touched, aliases, n - 1)
      + (if IsAddressed(history[n - 1], n - 1, m, touched, aliases)
         then [Change(Closed, Some(history[n - 1].lineage), None)] else [])
  }

  type Similarity = (Finding, Finding) -> real

  function Candidates(current: seq<Finding>, history: seq<Historical>, similarity: Similarity): set<Candidate> {
    set i, h | 0 <= i < |current| && 0 <= h < |history|
               && similarity(current[i], history[h].finding) >= MATCH_THRESHOLD
            :: Candidate(similarity(current[i], history[h].finding), i, h)
  }

  predicate Ordered(cs: seq<Candidate>, current: seq<Finding>, history: seq<Historical>)
    requires InRange(cs, current, history)
  {
    forall i, j | 0 <= i < j < |cs| :: NoLaterThan(cs[i], cs[j], current, history)
  }

  lemma {:induction false} InsertKeepsOrder(cs: seq<Candidate>, c: Candidate, current: seq<Finding>, history: seq<Historical>)
    requires InRange(cs, current, history) && InRange([c], current, history) && Ordered(cs, current, history)
    ensures InRange(Insert(cs, c, current, history), current, history)
    ensures Ordered(Insert(cs, c, current, history), current, history)
  {
    assert c in [c];
    if cs != [] {
      var init, last := cs[..|cs| - 1], cs[|cs| - 1];
      if NoLaterThan(last, c, current, history) {
        forall d <- cs ensures NoLaterThan(d, c, current, history) {
          if d != last {
            assert d in init;
            NoLaterIsTransitive(d, last, c, current, history);
          }
        }
      } else {
        NoLaterIsTotal(last, c, current, history);
        InsertKeepsOrder(init, c, current, history);
        var moved := Insert(init, c, current, history);
        forall d <- moved ensures NoLaterThan(d, last, current, history) {
        }
      }
    }
  }

  /** The candidates of the first `i` findings, and of the next with the first `h` lineages. */
  function CandidatesBelow(current: seq<Finding>, history: seq<Historical>, similarity: Similarity, i: nat, h: nat)
    : set<Candidate>
  {
    set c <- Candidates(current, history, similarity) | c.current < i || (c.current == i && c.history < h)
  }

  lemma NextCandidate(current: seq<Finding>, history: seq<Historical>, similarity: Similarity, i: nat, h: nat, c: Candidate)
    requires i < |current| && h < |history|
    ensures var score := similarity(current[i], history[h].finding);
            c in CandidatesBelow(current, history, similarity, i, h + 1)
            <==> (c in CandidatesBelow(current, history, similarity, i, h)
                  || (score >= MATCH_THRESHOLD && c == Candidate(score, i, h)))
  {
  }

  lemma NextRow(current: seq<Finding>, history: seq<Historical>, similarity: Similarity, i: nat, c: Candidate)
    requires i < |current|
    ensures c in CandidatesBelow(current, history, similarity, i, |history|)
            <==> c in CandidatesBelow(current, history, similarity, i + 1, 0)
  {
  }

  lemma AllCandidates(current: seq<Finding>, history: seq<Historical>, similarity: Similarity, c: Candidate)
    ensures c !in CandidatesBelow(current, history, similarity, 0, 0)
    ensures c in CandidatesBelow(current, history, similarity, |current|, 0) <==> c in Candidates(current, history, similarity)
  {
  }

  method RankOne(cs: seq<Candidate>, current: seq<Finding>, history: seq<Historical>, similarity: Similarity, i: nat)
    returns (ranked: seq<Candidate>)
    requires i < |current| && InRange(cs, current, history) && Ordered(cs, current, history)
    requires forall c :: c in cs <==> c in CandidatesBelow(current, history, similarity, i, 0)
    ensures InRange(ranked, current, history) && Ordered(ranked, current, history)
    ensures forall c :: c in ranked <==> c in CandidatesBelow(current, history, similarity, i, |history|)
  {
    ranked := cs;
    hide CandidatesBelow, Candidates, NoLaterThan;
    for h := 0 to |history|
      invariant InRange(ranked, current, history) && Ordered(ranked, current, history)
      invariant forall c :: c in ranked <==> c in CandidatesBelow(current, history, similarity, i, h)
    {
      forall c ensures c in CandidatesBelow(current, history, similarity, i, h + 1)
                       <==> (c in CandidatesBelow(current, history, similarity, i, h)
                             || (similarity(current[i], history[h].finding) >= MATCH_THRESHOLD
                                 && c == Candidate(similarity(current[i], history[h].finding), i, h)))
      {
        NextCandidate(current, history, similarity, i, h, c);
      }
      var score := similarity(current[i], history[h].finding);
      if score >= MATCH_THRESHOLD {
        var c := Candidate(score, i, h);
        InsertKeepsOrder(ranked, c, current, history);
        hide InRange, Ordered, Insert;
        ranked := Insert(ranked, c, current, history);
      }
    }
  }

  /** Every pair is scored, and those similar enough are kept in rank. */
  method Rank(current: seq<Finding>, history: seq<Historical>, similarity: Similarity) returns (cs: seq<Candidate>)
    ensures InRange(cs, current, history) && Ordered(cs, current, history)
    ensures forall c :: c in cs <==> c in Candidates(current, history, similarity)
  {
    cs := [];
    forall c { AllCandidates(current, history, similarity, c); }
    hide CandidatesBelow, Candidates, NoLaterThan;
    for i := 0 to |current|
      invariant InRange(cs, current, history) && Ordered(cs, current, history)
      invariant forall c :: c in cs <==> c in CandidatesBelow(current, history, similarity, i, 0)
    {
      cs := RankOne(cs, current, history, similarity, i);
      forall c { NextRow(current, history, similarity, i, c); }
    }
  }

  predicate NormalizedPath(path: string) { path != "" && path[0] != '/' }

  predicate NormalizedAliases(aliases: map<string, string>) {
    forall path <- aliases :: NormalizedPath(path) && NormalizedPath(aliases[path])
  }

  /** The transitions follow from the one greedy matching of the ranked candidates. */
  ghost predicate ClassifiedBy(current: seq<Finding>, history: seq<Historical>, touched: set<string>,
                               aliases: map<string, string>, similarity: Similarity, cs: seq<Candidate>, m: Matching,
                               changes: seq<Change>)
  {
    && InRange(cs, current, history) && Ordered(cs, current, history)
    && (forall c :: c in cs <==> c in Candidates(current, history, similarity))
    && GreedyMatching(cs, m) && (forall i <- m :: i < |current| && m[i] < |history|)
    && changes == CurrentChanges(current, history, m, |current|)
                  + AddressedChanges(history, m, touched, aliases, |history|)
  }

  method Classify(current: seq<Finding>, history: seq<Historical>, touched: set<string>, aliases: map<string, string>,
                  similarity: Similarity)
    returns (r: Option<seq<Change>>, ghost cs: seq<Candidate>, ghost m: Matching)
    ensures r.Some? <==> NormalizedAliases(aliases)
    ensures r.Some? ==> ClassifiedBy(current, history, touched, aliases, similarity, cs, m, r.value)
  {
    cs, m := [], map[];
    if exists path <- aliases :: !NormalizedPath(path) || !NormalizedPath(aliases[path]) { return None, cs, m; }
    var ranked := Rank(current, history, similarity);
    var matching := Match(ranked);
    cs, m := ranked, matching;
    MatchedPositions(ranked, matching, current, history);
    hide GreedyMatching;
    var changes: seq<Change> := [];
    for i := 0 to |current|
      invariant changes == CurrentChanges(current, history, matching, i)
    {
      changes := changes + [CurrentChange(current[i], i, history, matching)];
    }
    for h := 0 to |history|
      invariant changes == CurrentChanges(current, history, matching, |current|)
                           + AddressedChanges(history, matching, touched, aliases, h)
    {
      if IsAddressed(history[h], h, matching, touched, aliases) {
        changes := changes + [Change(Closed, Some(history[h].lineage), None)];
      }
    }
    return Some(changes), cs, m;
  }

  lemma MatchedPositions(cs: seq<Candidate>, m: Matching, current: seq<Finding>, history: seq<Historical>)
    requires GreedyMatching(cs, m) && InRange(cs, current, history)
    ensures forall i <- m :: i < |current| && m[i] < |history|
  {
  }

  // ---------------------------------------------------------------- the contract of the transitions

  lemma {:induction false} CurrentChangeAt(current: seq<Finding>, history: seq<Historical>, m: Matching, n: nat)
    requires n <= |current| && forall j <- m :: m[j] < |history|
    ensures |CurrentChanges(current, history, m, n)| == n
    ensures forall i | 0 <= i < n :: CurrentChanges(current, history, m, n)[i] == CurrentChange(current[i], i, history, m)
  {
    if n > 0 { CurrentChangeAt(current, history, m, n - 1); }
  }

  predicate Addresses(change: Change, history: seq<Historical>, h: nat, m: Matching, touched: set<string>,
                      aliases: map<string, string>)
    requires h < |history|
  {
    IsAddressed(history[h], h, m, touched, aliases) && change == Change(Closed, Some(history[h].lineage), None)
  }

  ghost predicate AddressesOne(change: Change, history: seq<Historical>, m: Matching, touched: set<string>,
                               aliases: map<string, string>, n: nat)
    requires n <= |history|
  {
    exists h :: 0 <= h < n && Addresses(change, history, h, m, touched, aliases)
  }

  lemma NextAddressed(change: Change, history: seq<Historical>, m: Matching, touched: set<string>,
                      aliases: map<string, string>, n: nat)
    requires n < |history|
    ensures AddressesOne(change, history, m, touched, aliases, n + 1)
            <==> AddressesOne(change, history, m, touched, aliases, n) || Addresses(change, history, n, m, touched, aliases)
    ensures change in AddressedChanges(history, m, touched, aliases, n + 1)
            <==> change in AddressedChanges(history, m, touched, aliases, n)
                 || Addresses(change, history, n, m, touched, aliases)
  {
    var before := AddressedChanges(history, m, touched, aliases, n);
    var one := Change(Closed, Some(history[n].lineage), None);
    assert change in before + [one] <==> change in before || change == one;
    assert before + [] == before;
  }

  /** The addressed changes are those of the unmatched active lineages on touched paths. */
  lemma {:induction false} AddressedChangeAt(history: seq<Historical>, m: Matching, touched: set<string>,
                                             aliases: map<string, string>, n: nat, change: Change)
    requires n <= |history|
    ensures change in AddressedChanges(history, m, touched, aliases, n)
            <==> AddressesOne(change, history, m, touched, aliases, n)
  {
    if n > 0 {
      AddressedChangeAt(history, m, touched, aliases, n - 1, change);
      NextAddressed(change, history, m, touched, aliases, n - 1);
    }
  }

  predicate DistinctLineages(history: seq<Historical>) {
    forall i, j | 0 <= i < j < |history| :: history[i].lineage != history[j].lineage
  }

  predicate DistinctChanges(changes: seq<Change>) {
    forall i, j | 0 <= i < j < |changes| :: changes[i].lineage != changes[j].lineage
  }

  lemma {:induction false} AddressedAreDistinct(history: seq<Historical>, m: Matching, touched: set<string>,
                                                aliases: map<string, string>, n: nat)
    requires n <= |history| && DistinctLineages(history)
    ensures DistinctChanges(AddressedChanges(history, m, touched, aliases, n))
  {
    if n > 0 {
      var before := AddressedChanges(history, m, touched, aliases, n - 1);
      AddressedAreDistinct(history, m, touched, aliases, n - 1);
      forall i | 0 <= i < |before| ensures before[i].lineage != Some(history[n - 1].lineage) {
        AddressedChangeAt(history, m, touched, aliases, n - 1, before[i]);
        var h :| 0 <= h < n - 1 && Addresses(before[i], history, h, m, touched, aliases);
      }
      assert before + [] == before;
    }
  }

  ghost predicate FromRequest(db: Tables, pullRequest: Id, history: seq<Historical>) {
    && DistinctLineages(history)
    && forall h <- history :: && h.lineage in db.lineages && db.lineages[h.lineage].pullRequest == pullRequest
                              && db.lineages[h.lineage].status == h.status && h.status != Pending
  }

  lemma CurrentAreDistinct(current: seq<Finding>, history: seq<Historical>, cs: seq<Candidate>, m: Matching, i: nat, j: nat)
    requires GreedyMatching(cs, m) && DistinctLineages(history) && i < j < |current| && forall k <- m :: m[k] < |history|
    ensures var a := CurrentChange(current[i], i, history, m);
            a.lineage == None || a.lineage != CurrentChange(current[j], j, history, m).lineage
  {
  }

  lemma AddressedAreUnmatched(current: seq<Finding>, history: seq<Historical>, m: Matching, i: nat, h: nat)
    requires i < |current| && h < |history| && DistinctLineages(history) && h !in m.Values
    requires forall k <- m :: m[k] < |history|
    ensures CurrentChange(current[i], i, history, m).lineage != Some(history[h].lineage)
  {
    if i in m { assert m[i] in m.Values; }
  }

  lemma CurrentFits(db: Tables, pullRequest: Id, current: seq<Finding>, history: seq<Historical>, m: Matching, i: nat)
    requires FromRequest(db, pullRequest, history) && i < |current| && forall k <- m :: m[k] < |history|
    ensures ChangeFits(db, pullRequest, CurrentChange(current[i], i, history, m))
  {
    if i in m { assert history[m[i]] in history; }
  }

  lemma AddressedFits(db: Tables, pullRequest: Id, change: Change, history: seq<Historical>, m: Matching,
                      touched: set<string>, aliases: map<string, string>)
    requires FromRequest(db, pullRequest, history) && change in AddressedChanges(history, m, touched, aliases, |history|)
    ensures ChangeFits(db, pullRequest, change) && change.finding == None && change.transition == Closed
  {
    AddressedChangeAt(history, m, touched, aliases, |history|, change);
    var h :| 0 <= h < |history| && Addresses(change, history, h, m, touched, aliases);
    assert history[h] in history;
  }

  lemma ChangesAreDistinct(current: seq<Finding>, history: seq<Historical>, touched: set<string>,
                           aliases: map<string, string>, cs: seq<Candidate>, m: Matching, i: nat, j: nat)
    requires DistinctLineages(history) && GreedyMatching(cs, m) && forall k <- m :: m[k] < |history|
    requires |CurrentChanges(current, history, m, |current|)| == |current|
    requires i < j < |current| + |AddressedChanges(history, m, touched, aliases, |history|)|
    ensures var changes := CurrentChanges(current, history, m, |current|)
                           + AddressedChanges(history, m, touched, aliases, |history|);
            changes[i].lineage == None || changes[i].lineage != changes[j].lineage
  {
    var rest := AddressedChanges(history, m, touched, aliases, |history|);
    CurrentChangeAt(current, history, m, |current|);
    if j < |current| {
      CurrentAreDistinct(current, history, cs, m, i, j);
    } else if i < |current| {
      AddressedChangeAt(history, m, touched, aliases, |history|, rest[j - |current|]);
      var h :| 0 <= h < |history| && Addresses(rest[j - |current|], history, h, m, touched, aliases);
      AddressedAreUnmatched(current, history, m, i, h);
    } else {
      AddressedAreDistinct(history, m, touched, aliases, |history|);
    }
  }

  /** A lineage's path as reported, or as the file is called now, was touched. */
  predicate Touched(path: string, touched: set<string>, aliases: map<string, string>) {
    path in touched || (path in aliases && aliases[path] in touched)
  }

  /** What becomes of the current finding at a position: continued on the lineage it is matched with, or new. */
  predicate Continues(change: Change, finding: Finding, i: nat, history: seq<Historical>, m: Matching)
    requires forall j <- m :: m[j] < |history|
  {
    && change.finding == Some(finding)
    && (i !in m ==> change.transition == New && change.lineage == None)
    && (i in m ==> && change.lineage == Some(history[m[i]].lineage)
                   && (change.transition == Reopened <==> history[m[i]].status == Addressed)
                   && (change.transition == Persistent <==> history[m[i]].status != Addressed))
  }

  /** Closes an active lineage no finding is matched with, whose path was touched. */
  predicate Closes(change: Change, history: seq<Historical>, h: nat, m: Matching, touched: set<string>, aliases: map<string, string>) {
    && h < |history| && change == Change(Closed, Some(history[h].lineage), None)
    && history[h].status == Active && (forall i <- m :: m[i] != h) && Touched(history[h].finding.filePath, touched, aliases)
  }

  /**
   * One transition for each current finding, in order; then closed ones, for exactly the active lineages that no
   * finding is matched with and whose path was touched, under its old or its new name.
   */
  lemma TransitionsSayWhatHappened(current: seq<Finding>, history: seq<Historical>, touched: set<string>,
                                   aliases: map<string, string>, similarity: Similarity, cs: seq<Candidate>, m: Matching,
                                   changes: seq<Change>)
    requires ClassifiedBy(current, history, touched, aliases, similarity, cs, m, changes)
    ensures |current| <= |changes|
    ensures forall i | 0 <= i < |current| :: Continues(changes[i], current[i], i, history, m)
    ensures forall change :: change in changes[|current|..] <==> exists h: nat :: Closes(change, history, h, m, touched, aliases)
  {
    var rest := AddressedChanges(history, m, touched, aliases, |history|);
    CurrentChangeAt(current, history, m, |current|);
    assert changes[|current|..] == rest;
    hide GreedyMatching, Ordered, Candidates, CurrentChanges, AddressedChanges, InRange;
    forall change ensures change in rest <==> exists h: nat :: Closes(change, history, h, m, touched, aliases) {
      AddressedChangeAt(history, m, touched, aliases, |history|, change);
      AddressingIsClosing(change, history, m, touched, aliases);
    }
  }

  lemma AddressingIsClosing(change: Change, history: seq<Historical>, m: Matching, touched: set<string>, aliases: map<string, string>)
    ensures AddressesOne(change, history, m, touched, aliases, |history|)
            <==> exists h: nat :: Closes(change, history, h, m, touched, aliases)
  {
    if h: nat :| Closes(change, history, h, m, touched, aliases) { assert Addresses(change, history, h, m, touched, aliases); }
    if AddressesOne(change, history, m, touched, aliases, |history|) {
      var h :| 0 <= h < |history| && Addresses(change, history, h, m, touched, aliases);
      assert Closes(change, history, h, m, touched, aliases);
    }
  }

  /** Whatever the similarity, the transitions meet the contract that persisting a report relies on. */
  lemma TransitionsMeetTheContract(db: Tables, pullRequest: Id, current: seq<Finding>, history: seq<Historical>,
                                   touched: set<string>, aliases: map<string, string>, similarity: Similarity,
                                   cs: seq<Candidate>, m: Matching, changes: seq<Change>)
    requires FromRequest(db, pullRequest, history)
    requires ClassifiedBy(current, history, touched, aliases, similarity, cs, m, changes)
    ensures Classified(db, pullRequest, current, changes)
  {
    var rest := AddressedChanges(history, m, touched, aliases, |history|);
    CurrentChangeAt(current, history, m, |current|);
    hide GreedyMatching, Ordered, Candidates, CurrentChanges, AddressedChanges, ChangeFits, FromRequest, InRange;
    forall i | 0 <= i < |changes|
      ensures ChangeFits(db, pullRequest, changes[i])
      ensures i >= |current| ==> changes[i].finding == None && changes[i].transition == Closed
    {
      if i >= |current| {
        assert changes[i] == rest[i - |current|] && rest[i - |current|] in rest;
        AddressedFits(db, pullRequest, changes[i], history, m, touched, aliases);
      } else {
        CurrentFits(db, pullRequest, current, history, m, i);
      }
    }
    forall i, j | 0 <= i < j < |changes| ensures changes[i].lineage == None || changes[i].lineage != changes[j].lineage {
      RequestIsDistinct(db, pullRequest, history);
      ChangesAreDistinct(current, history, touched, aliases, cs, m, i, j);
    }
  }

  lemma RequestIsDistinct(db: Tables, pullRequest: Id, history: seq<Historical>)
    requires FromRequest(db, pullRequest, history)
    ensures DistinctLineages(history)
  {
  }
}
