/** Which findings a completed check run shows as annotations. */
module Annotations {
  import opened Rows
  import opened Lineage
  import Continuity

  const MAX_CHECK_ANNOTATIONS := 50

  datatype Remark = Remark(fingerprint: Fingerprint, severity: Severity, right: bool)

  predicate Blocking(r: Remark, blocking: set<Severity>) { r.severity in blocking }

  // ---------------------------------------------------------------- the candidates

  predicate Seen(candidates: seq<Remark>, fingerprint: Fingerprint) {
    exists c <- candidates :: c.fingerprint == fingerprint
  }

  /** Right-side findings, the first of each fingerprint. */
  function Candidates(findings: seq<Remark>): seq<Remark> {
    if findings == [] then [] else
      var before, last := Candidates(findings[..|findings| - 1]), findings[|findings| - 1];
      if !last.right || Seen(before, last.fingerprint) then before else before + [last]
  }

  /** The first right-side finding of its fingerprint. */
  predicate IsFirst(findings: seq<Remark>, k: nat) {
    k < |findings| && findings[k].right
    && forall j | 0 <= j < k :: !(findings[j].right && findings[j].fingerprint == findings[k].fingerprint)
  }

  /** The candidates are the findings at some ascending positions, and those are all the first ones. */
  ghost predicate AreFirsts(findings: seq<Remark>, candidates: seq<Remark>, p: seq<nat>) {
    && Ascending(p) && (forall k :: k in p <==> IsFirst(findings, k))
    && |candidates| == |p| && (forall i | 0 <= i < |p| :: p[i] < |findings| && candidates[i] == findings[p[i]])
  }

  lemma FirstsStay(init: seq<Remark>, last: Remark, k: nat)
    ensures IsFirst(init + [last], k) <==> IsFirst(init, k) || (k == |init| && IsFirst(init + [last], |init|))
  {
    var all := init + [last];
    assert forall j | 0 <= j < |init| :: all[j] == init[j];
  }

  /** A fingerprint is seen among the candidates exactly when a right-side finding has it. */
  lemma {:induction false} SeenAreRight(findings: seq<Remark>, fingerprint: Fingerprint)
    ensures Seen(Candidates(findings), fingerprint)
            <==> exists j :: 0 <= j < |findings| && findings[j].right && findings[j].fingerprint == fingerprint
  {
    if findings != [] {
      var init, last := findings[..|findings| - 1], findings[|findings| - 1];
      SeenAreRight(init, fingerprint);
      var before := Candidates(init);
      assert findings == init + [last];
      assert Seen(before + [last], fingerprint) <==> Seen(before, fingerprint) || last.fingerprint == fingerprint by {
        assert forall c <- before :: c in before + [last];
        assert last in before + [last];
      }
      if j :| 0 <= j < |findings| && findings[j].right && findings[j].fingerprint == fingerprint && j < |init| {
        assert init[j] == findings[j];
      }
    }
  }

  lemma LastIsFirst(findings: seq<Remark>)
    requires findings != []
    ensures var n := |findings| - 1;
            IsFirst(findings, n) <==> findings[n].right && !Seen(Candidates(findings[..n]), findings[n].fingerprint)
  {
    var n := |findings| - 1;
    SeenAreRight(findings[..n], findings[n].fingerprint);
    assert forall j | 0 <= j < n :: findings[..n][j] == findings[j];
    hide Seen, Candidates;
  }

  lemma OneMoreFirst(init: seq<Remark>, last: Remark, candidates: seq<Remark>, p: seq<nat>)
    requires AreFirsts(init, candidates, p)
    ensures if IsFirst(init + [last], |init|) then AreFirsts(init + [last], candidates + [last], p + [|init|])
            else AreFirsts(init + [last], candidates, p)
  {
    var all := init + [last];
    forall k: nat ensures IsFirst(all, k) <==> IsFirst(init, k) || (k == |init| && IsFirst(all, |init|)) {
      FirstsStay(init, last, k);
    }
    assert forall i | 0 <= i < |p| :: p[i] in p;
    assert forall k <- p :: IsFirst(init, k) && k < |init|;
    hide IsFirst;
  }

  lemma {:induction false} CandidatesAreFirsts(findings: seq<Remark>) returns (p: seq<nat>)
    ensures AreFirsts(findings, Candidates(findings), p)
  {
    if findings == [] { return []; }
    var n := |findings| - 1;
    var init, last := findings[..n], findings[n];
    assert findings == init + [last];
    p := CandidatesAreFirsts(init);
    LastIsFirst(findings);
    hide AreFirsts, IsFirst;
    OneMoreFirst(init, last, Candidates(init), p);
    if IsFirst(findings, n) { p := p + [n]; }
  }

  /** The first finding of each fingerprint on the right side, in the order of the findings. */
  method CollectCandidates(findings: seq<Remark>) returns (candidates: seq<Remark>, ghost p: seq<nat>)
    ensures candidates == Candidates(findings) && AreFirsts(findings, candidates, p)
  {
    candidates := [];
    var seen: set<Fingerprint> := {};
    for i := 0 to |findings|
      invariant candidates == Candidates(findings[..i])
      invariant forall fp :: fp in seen <==> Seen(candidates, fp)
    {
      assert findings[..i + 1][..i] == findings[..i];
      var finding := findings[i];
      if !finding.right || finding.fingerprint in seen { continue; }
      seen := seen + {finding.fingerprint};
      ghost var before := candidates;
      candidates := candidates + [finding];
      assert forall c <- before :: c in candidates;
      assert finding in candidates;
    }
    assert findings[..|findings|] == findings;
    p := CandidatesAreFirsts(findings);
  }

  // ---------------------------------------------------------------- the cap

  /** Blocking findings rank first; within a kind the order is that of the candidates. */
  predicate RanksBefore(flags: seq<bool>, i: nat, j: nat)
    requires i < |flags| && j < |flags|
  {
    (flags[i] && !flags[j]) || (flags[i] == flags[j] && i < j)
  }

  predicate Within(ranked: seq<nat>, n: nat) { forall i | 0 <= i < |ranked| :: ranked[i] < n }

  function Insert(flags: seq<bool>, ranked: seq<nat>, i: nat): (r: seq<nat>)
    requires i < |flags| && Within(ranked, |flags|)
    ensures Within(r, |flags|)
  {
    if ranked == [] then [i]
    else if RanksBefore(flags, ranked[|ranked| - 1], i) then ranked + [i]
    else Insert(flags, ranked[..|ranked| - 1], i) + [ranked[|ranked| - 1]]
  }

  /** The positions below `n`, sorted by rank. */
  function Ranked(flags: seq<bool>, n: nat): (r: seq<nat>)
    requires n <= |flags|
    ensures Within(r, |flags|)
  {
    if n == 0 then [] else Insert(flags, Ranked(flags, n - 1), n - 1)
  }

  /** The positions below `n` with a given flag, in order. */
  function Where(flags: seq<bool>, n: nat, flag: bool): (r: seq<nat>)
    requires n <= |flags|
    ensures Within(r, n) && forall i | 0 <= i < |r| :: flags[r[i]] == flag
  {
    if n == 0 then [] else
      var before := Where(flags, n - 1, flag);
      if flags[n - 1] == flag then before + [n - 1] else before
  }

  lemma {:induction false} WhereIsAll(flags: seq<bool>, n: nat, flag: bool, k: nat)
    requires n <= |flags|
    ensures k in Where(flags, n, flag) <==> k < n && flags[k] == flag
  {
    if n > 0 {
      WhereIsAll(flags, n - 1, flag, k);
      var before := Where(flags, n - 1, flag);
      assert k in before + [n - 1] <==> k in before || k == n - 1;
    }
  }

  predicate Ascending(s: seq<nat>) { forall i, j | 0 <= i < j < |s| :: s[i] < s[j] }

  lemma {:induction false} WhereAscends(flags: seq<bool>, n: nat, flag: bool)
    requires n <= |flags|
    ensures Ascending(Where(flags, n, flag))
  {
    if n > 0 {
      WhereAscends(flags, n - 1, flag);
      var before := Where(flags, n - 1, flag);
      assert Within(before, n - 1);
      assert forall i | 0 <= i < |before| :: before[i] < n - 1;
    }
  }

  predicate AllFlagged(flags: seq<bool>, s: seq<nat>, n: nat, flag: bool)
    requires n <= |flags|
  {
    forall i | 0 <= i < |s| :: s[i] < n && flags[s[i]] == flag
  }

  lemma {:induction false} InsertBlocking(flags: seq<bool>, first: seq<nat>, rest: seq<nat>, i: nat)
    requires i < |flags| && flags[i] && AllFlagged(flags, first, i, true) && AllFlagged(flags, rest, |flags|, false)
    ensures Within(first + rest, |flags|)
    ensures Insert(flags, first + rest, i) == first + [i] + rest
  {
    if rest == [] {
      assert first + rest == first;
    } else {
      var init, last := rest[..|rest| - 1], rest[|rest| - 1];
      assert (first + rest)[..|first + rest| - 1] == first + init;
      InsertBlocking(flags, first, init, i);
      assert first + [i] + rest == first + [i] + init + [last];
    }
  }

  lemma InsertOther(flags: seq<bool>, first: seq<nat>, rest: seq<nat>, i: nat)
    requires i < |flags| && !flags[i] && AllFlagged(flags, first, i, true) && AllFlagged(flags, rest, i, false)
    ensures Within(first + rest, |flags|)
    ensures Insert(flags, first + rest, i) == first + (rest + [i])
  {
    assert first + rest + [i] == first + (rest + [i]);
  }

  lemma NextPositions(flags: seq<bool>, n: nat)
    requires 0 < n <= |flags|
    ensures AllFlagged(flags, Where(flags, n - 1, true), n - 1, true) && AllFlagged(flags, Where(flags, n - 1, false), n - 1, false)
    ensures Where(flags, n, flags[n - 1]) == Where(flags, n - 1, flags[n - 1]) + [n - 1]
    ensures Where(flags, n, !flags[n - 1]) == Where(flags, n - 1, !flags[n - 1])
  {
  }

  lemma NextRanked(flags: seq<bool>, n: nat)
    requires 0 < n <= |flags|
    ensures Within(Ranked(flags, n - 1), |flags|) && Ranked(flags, n) == Insert(flags, Ranked(flags, n - 1), n - 1)
  {
    hide Insert;
  }

  lemma NothingRanked(flags: seq<bool>)
    ensures Ranked(flags, 0) == Where(flags, 0, true) + Where(flags, 0, false)
  {
  }

  /** Sorting by rank puts the blocking positions before the others and keeps the order of each. */
  lemma {:induction false} RankedIsPartition(flags: seq<bool>, n: nat)
    requires n <= |flags|
    ensures Ranked(flags, n) == Where(flags, n, true) + Where(flags, n, false)
  {
    hide *;
    if n == 0 {
      NothingRanked(flags);
    } else {
      RankedIsPartition(flags, n - 1);
      NextPositions(flags, n);
      NextRanked(flags, n);
      var first, rest := Where(flags, n - 1, true), Where(flags, n - 1, false);
      MoreFlagged(flags, rest, n - 1);
      if flags[n - 1] { InsertBlocking(flags, first, rest, n - 1); } else { InsertOther(flags, first, rest, n - 1); }
    }
  }

  lemma MoreFlagged(flags: seq<bool>, s: seq<nat>, n: nat)
    requires n <= |flags| && AllFlagged(flags, s, n, false)
    ensures AllFlagged(flags, s, |flags|, false)
  {
  }

  function Flags(candidates: seq<Remark>, blocking: set<Severity>): seq<bool> {
    seq(|candidates|, i requires 0 <= i < |candidates| => Blocking(candidates[i], blocking))
  }

  function Positions(ranked: seq<nat>): set<nat> { set k <- ranked }

  /** The positions that win a slot, back in the candidates' order. */
  function Kept(candidates: seq<Remark>, blocking: set<Severity>): (kept: seq<nat>)
    requires |candidates| > MAX_CHECK_ANNOTATIONS
    ensures Within(kept, |candidates|)
  {
    var ranked := Ranked(Flags(candidates, blocking), |candidates|);
    RankedLength(Flags(candidates, blocking), |candidates|);
    var kept := InOrder(Positions(ranked[..MAX_CHECK_ANNOTATIONS]));
    assert forall i | 0 <= i < |kept| :: kept[i] in Positions(ranked[..MAX_CHECK_ANNOTATIONS]);
    kept
  }

  lemma {:induction false} WhereLength(flags: seq<bool>, n: nat)
    requires n <= |flags|
    ensures |Where(flags, n, true)| + |Where(flags, n, false)| == n
  {
    if n > 0 { WhereLength(flags, n - 1); }
  }

  lemma RankedLength(flags: seq<bool>, n: nat)
    requires n <= |flags|
    ensures |Ranked(flags, n)| == n
  {
    RankedIsPartition(flags, n);
    WhereLength(flags, n);
  }

  function At(candidates: seq<Remark>, kept: seq<nat>): seq<Remark>
    requires Within(kept, |candidates|)
  {
    seq(|kept|, i requires 0 <= i < |kept| => candidates[kept[i]])
  }

  function Annotated(candidates: seq<Remark>, blocking: set<Severity>): seq<Remark> {
    if |candidates| <= MAX_CHECK_ANNOTATIONS then candidates
    else At(candidates, Kept(candidates, blocking))
  }

  lemma {:induction false} SizeOfDistinct(s: seq<nat>)
    requires forall i, j | 0 <= i < j < |s| :: s[i] != s[j]
    ensures |Positions(s)| == |s|
  {
    if s != [] {
      var init, last := s[..|s| - 1], s[|s| - 1];
      SizeOfDistinct(init);
      assert s == init + [last];
      assert Positions(s) == Positions(init) + {last};
    }
  }

  lemma {:induction false} InOrderLength(ids: set<nat>)
    ensures |InOrder(ids)| == |ids|
  {
    if ids != {} { InOrderLength(ids - {Greatest(ids)}); }
  }

  /** The first `n` positions by rank: the first blocking ones, and with what is left the first others. */
  function Winners(candidates: seq<Remark>, blocking: set<Severity>, n: nat): set<nat> {
    var flags := Flags(candidates, blocking);
    var wanted, others := Where(flags, |flags|, true), Where(flags, |flags|, false);
    if n <= |wanted| then Positions(wanted[..n])
    else Positions(wanted) + Positions(others[..if n - |wanted| <= |others| then n - |wanted| else |others|])
  }

  /** With more candidates than slots, the kept positions ascend and are exactly the winners of as many slots. */
  lemma KeptPositions(candidates: seq<Remark>, blocking: set<Severity>)
    requires |candidates| > MAX_CHECK_ANNOTATIONS
    ensures var kept := Kept(candidates, blocking);
            && |kept| == MAX_CHECK_ANNOTATIONS && Ascending(kept)
            && Positions(kept) == Winners(candidates, blocking, MAX_CHECK_ANNOTATIONS)
  {
    var flags := Flags(candidates, blocking);
    RankedLength(flags, |flags|);
    TopOfPartition(flags, MAX_CHECK_ANNOTATIONS);
    TopAreWinners(candidates, blocking, MAX_CHECK_ANNOTATIONS);
    var top := Ranked(flags, |flags|)[..MAX_CHECK_ANNOTATIONS];
    SizeOfDistinct(top);
    InOrderLength(Positions(top));
    InOrderAscends(Positions(top));
    var kept := Kept(candidates, blocking);
    hide Where, Ranked, InOrder, Flags, Winners;
    assert forall k :: k in kept <==> k in Positions(top);
  }

  lemma TopOfPartition(flags: seq<bool>, n: nat)
    requires n <= |flags| && |Ranked(flags, |flags|)| == |flags|
    ensures var top := Ranked(flags, |flags|)[..n]; forall i, j | 0 <= i < j < |top| :: top[i] != top[j]
  {
    var wanted, others := Where(flags, |flags|, true), Where(flags, |flags|, false);
    RankedIsPartition(flags, |flags|);
    WhereAscends(flags, |flags|, true);
    WhereAscends(flags, |flags|, false);
    var top := (wanted + others)[..n];
    hide Where, Ranked;
    forall i, j | 0 <= i < j < |top| ensures top[i] != top[j] {
      if i < |wanted| <= j { assert flags[wanted[i]] && !flags[others[j - |wanted|]]; }
    }
  }

  lemma TopAreWinners(candidates: seq<Remark>, blocking: set<Severity>, n: nat)
    requires n <= |candidates|
    ensures var flags := Flags(candidates, blocking);
            n <= |Ranked(flags, |flags|)| && Positions(Ranked(flags, |flags|)[..n]) == Winners(candidates, blocking, n)
  {
    var flags := Flags(candidates, blocking);
    var wanted, others := Where(flags, |flags|, true), Where(flags, |flags|, false);
    RankedIsPartition(flags, |flags|);
    WhereLength(flags, |flags|);
    hide Where, Ranked;
    var top := (wanted + others)[..n];
    if n <= |wanted| { assert top == wanted[..n]; }
    else { assert top == wanted + others[..n - |wanted|]; }
  }

  lemma WhereIs(candidates: seq<Remark>, blocking: set<Severity>, flag: bool)
    ensures forall k :: k in Where(Flags(candidates, blocking), |candidates|, flag)
                        <==> 0 <= k < |candidates| && Blocking(candidates[k], blocking) == flag
  {
    var flags := Flags(candidates, blocking);
    forall k: nat ensures k in Where(flags, |flags|, flag) <==> k < |flags| && flags[k] == flag {
      WhereIsAll(flags, |flags|, flag, k);
    }
    hide Where;
  }

  /** Every blocking candidate wins when there are slots for all of them, and otherwise nothing else wins. */
  lemma WinnersPreferBlocking(candidates: seq<Remark>, blocking: set<Severity>, n: nat)
    ensures var wanted := Where(Flags(candidates, blocking), |candidates|, true);
            && (|wanted| <= n ==> forall k | 0 <= k < |candidates| && Blocking(candidates[k], blocking) ::
                  k in Winners(candidates, blocking, n))
            && (n <= |wanted| ==> forall k <- Winners(candidates, blocking, n) ::
                  k < |candidates| && Blocking(candidates[k], blocking))
  {
    var wanted := Where(Flags(candidates, blocking), |candidates|, true);
    WhereIs(candidates, blocking, true);
    hide Where, Flags, Blocking;
    if |wanted| == n { assert wanted[..n] == wanted; }
    if n <= |wanted| { assert forall k <- wanted[..n] :: k in wanted; }
  }

  /** With a slot for every candidate, every candidate wins. */
  lemma EverybodyWins(candidates: seq<Remark>, blocking: set<Severity>, n: nat)
    requires |candidates| <= n
    ensures forall k: nat :: k in Winners(candidates, blocking, n) <==> k < |candidates|
  {
    var flags := Flags(candidates, blocking);
    var wanted, others := Where(flags, |flags|, true), Where(flags, |flags|, false);
    WhereIs(candidates, blocking, true);
    WhereIs(candidates, blocking, false);
    WhereLength(flags, |flags|);
    var m := if n - |wanted| <= |others| then n - |wanted| else |others|;
    hide Where, Flags, Blocking;
    if n <= |wanted| { assert wanted[..n] == wanted && others == []; }
    else { assert others[..m] == others; }
    assert Winners(candidates, blocking, n) == Positions(wanted) + Positions(others);
  }

  /**
   * What is shown is an order-preserving selection of the candidates, of length min(n, 50): the first blocking
   * ones, and with the slots they leave the first of the others.
   */
  lemma AnnotatedIsASelection(candidates: seq<Remark>, blocking: set<Severity>) returns (kept: seq<nat>)
    ensures Within(kept, |candidates|) && Ascending(kept) && Annotated(candidates, blocking) == At(candidates, kept)
    ensures |kept| == if |candidates| < MAX_CHECK_ANNOTATIONS then |candidates| else MAX_CHECK_ANNOTATIONS
    ensures Positions(kept) == Winners(candidates, blocking, MAX_CHECK_ANNOTATIONS)
    ensures var wanted := Where(Flags(candidates, blocking), |candidates|, true);
            && (|wanted| <= MAX_CHECK_ANNOTATIONS ==> forall k | 0 <= k < |candidates| && Blocking(candidates[k], blocking) :: k in kept)
            && (|wanted| > MAX_CHECK_ANNOTATIONS ==> Positions(kept) == Positions(wanted[..MAX_CHECK_ANNOTATIONS]))
  {
    WinnersPreferBlocking(candidates, blocking, MAX_CHECK_ANNOTATIONS);
    if |candidates| <= MAX_CHECK_ANNOTATIONS {
      kept := seq(|candidates|, i => i);
      EverybodyWins(candidates, blocking, MAX_CHECK_ANNOTATIONS);
      assert At(candidates, kept) == candidates;
      forall k: nat ensures k in kept <==> k < |candidates| { if k < |candidates| { assert kept[k] == k; } }
      WhereLength(Flags(candidates, blocking), |candidates|);
      hide Winners, Where;
    } else {
      KeptPositions(candidates, blocking);
      kept := Kept(candidates, blocking);
      hide Kept, Where;
      assert forall k: nat :: k in Positions(kept) <==> k in kept;
    }
  }

  /** This run's findings, then the still-open ones. */
  method AnnotateCheck(reported: seq<Remark>, active: seq<Remark>, blocking: set<Severity>) returns (shown: seq<Remark>)
    ensures shown == Annotated(Candidates(reported + active), blocking)
    ensures |shown| <= MAX_CHECK_ANNOTATIONS
  {
    var candidates, p := CollectCandidates(reported + active);
    if |candidates| > MAX_CHECK_ANNOTATIONS {
      KeptPositions(candidates, blocking);
      hide Kept;
      return At(candidates, Kept(candidates, blocking));
    }
    return candidates;
  }

  // ---------------------------------------------------------------- a red check and its annotations

  predicate SomeBlock(remarks: seq<Remark>, blocking: set<Severity>) { exists r <- remarks :: Blocking(r, blocking) }

  lemma ShownAt(candidates: seq<Remark>, kept: seq<nat>, blocking: set<Severity>)
    requires Within(kept, |candidates|)
    ensures SomeBlock(At(candidates, kept), blocking) ==> SomeBlock(candidates, blocking)
    ensures forall k <- kept :: k < |candidates| && (Blocking(candidates[k], blocking) ==> SomeBlock(At(candidates, kept), blocking))
  {
    hide Blocking;
    if c :| c in At(candidates, kept) && Blocking(c, blocking) { assert c in candidates; }
    forall k <- kept ensures k < |candidates| && (Blocking(candidates[k], blocking) ==> SomeBlock(At(candidates, kept), blocking)) {
      var i :| 0 <= i < |kept| && kept[i] == k;
      assert At(candidates, kept)[i] in At(candidates, kept);
    }
  }

  /** The cap never takes the last blocking candidate away. */
  lemma CapLeavesABlockingOne(candidates: seq<Remark>, blocking: set<Severity>)
    ensures SomeBlock(Annotated(candidates, blocking), blocking) <==> SomeBlock(candidates, blocking)
  {
    hide Annotated, At, Where, Winners, Blocking, SomeBlock, Within;
    var kept := AnnotatedIsASelection(candidates, blocking);
    ShownAt(candidates, kept, blocking);
    if SomeBlock(candidates, blocking) {
      var k := SomeWanted(candidates, blocking);
      var wanted := Where(Flags(candidates, blocking), |candidates|, true);
      if |wanted| <= MAX_CHECK_ANNOTATIONS { assert k in kept; } else { FirstWanted(candidates, blocking, kept); }
    }
  }

  lemma SomeWanted(candidates: seq<Remark>, blocking: set<Severity>) returns (k: nat)
    requires SomeBlock(candidates, blocking)
    ensures k < |candidates| && Blocking(candidates[k], blocking)
  {
    hide Blocking;
    var c :| c in candidates && Blocking(c, blocking);
    k :| k < |candidates| && candidates[k] == c;
  }

  lemma FirstWanted(candidates: seq<Remark>, blocking: set<Severity>, kept: seq<nat>)
    requires Within(kept, |candidates|)
    requires var wanted := Where(Flags(candidates, blocking), |candidates|, true);
             |wanted| > MAX_CHECK_ANNOTATIONS && Positions(kept) == Positions(wanted[..MAX_CHECK_ANNOTATIONS])
    ensures exists k <- kept :: k < |candidates| && Blocking(candidates[k], blocking)
  {
    WhereIs(candidates, blocking, true);
    var wanted := Where(Flags(candidates, blocking), |candidates|, true);
    hide Where, Flags, Blocking, Within;
    assert wanted[0] in wanted;
    assert wanted[..MAX_CHECK_ANNOTATIONS][0] in Positions(kept);
  }

  /** A blocking finding is shown exactly when one is the first right-side finding of its fingerprint. */
  lemma BlockingIsShownExactly(findings: seq<Remark>, blocking: set<Severity>)
    ensures SomeBlock(Annotated(Candidates(findings), blocking), blocking)
            <==> exists k: nat :: IsFirst(findings, k) && Blocking(findings[k], blocking)
  {
    var candidates := Candidates(findings);
    var p := CandidatesAreFirsts(findings);
    CapLeavesABlockingOne(candidates, blocking);
    hide Candidates, Annotated, IsFirst, Blocking;
    if c :| c in candidates && Blocking(c, blocking) {
      var i :| 0 <= i < |candidates| && candidates[i] == c;
      assert p[i] in p;
    }
    if k: nat :| IsFirst(findings, k) && Blocking(findings[k], blocking) {
      var i :| 0 <= i < |p| && p[i] == k;
      assert candidates[i] in candidates;
    }
  }

  /** An earlier right-side finding, which does not block, has the fingerprint and is shown instead. */
  predicate Shadowed(findings: seq<Remark>, k: nat, blocking: set<Severity>)
    requires k < |findings|
  {
    exists j: nat :: j < k && IsFirst(findings, j) && findings[j].fingerprint == findings[k].fingerprint
                && !Blocking(findings[j], blocking)
  }

  /** Each blocking finding is off the right side or shadowed. */
  predicate NoneShows(findings: seq<Remark>, blocking: set<Severity>) {
    forall k: nat | k < |findings| && Blocking(findings[k], blocking) :: !findings[k].right || Shadowed(findings, k, blocking)
  }

  lemma {:induction false} EarlierIsFirst(findings: seq<Remark>, k: nat) returns (j: nat)
    requires k < |findings| && findings[k].right
    ensures j <= k && IsFirst(findings, j) && findings[j].fingerprint == findings[k].fingerprint
    decreases k
  {
    if i :| 0 <= i < k && findings[i].right && findings[i].fingerprint == findings[k].fingerprint {
      j := EarlierIsFirst(findings, i);
    } else {
      j := k;
    }
  }

  lemma NoFirstBlocks(findings: seq<Remark>, blocking: set<Severity>)
    ensures NoneShows(findings, blocking) <==> !exists k: nat :: IsFirst(findings, k) && Blocking(findings[k], blocking)
  {
    if !exists k: nat :: IsFirst(findings, k) && Blocking(findings[k], blocking) {
      forall k: nat | k < |findings| && Blocking(findings[k], blocking)
        ensures !findings[k].right || Shadowed(findings, k, blocking)
      {
        if findings[k].right { var j := EarlierIsFirst(findings, k); }
      }
    }
  }

  predicate Alike(a: Remark, f: Finding) { a.fingerprint == f.fingerprint && a.severity == f.severity }

  predicate AllHandedOver(active: seq<Remark>, unresolved: set<Finding>) {
    forall f <- unresolved :: exists a <- active :: Alike(a, f)
  }

  predicate NothingElse(active: seq<Remark>, unresolved: set<Finding>) {
    forall a <- active :: exists f <- unresolved :: Alike(a, f)
  }

  /** The remarks handed over with a check are its unresolved findings, with the side each is on. */
  predicate Describes(active: seq<Remark>, unresolved: set<Finding>) {
    AllHandedOver(active, unresolved) && NothingElse(active, unresolved)
  }

  predicate Red(unresolved: set<Finding>, blocking: set<Severity>) {
    Continuity.ReviewConclusion(true, blocking, unresolved) == Continuity.Failure
  }

  lemma BlockingIsHandedOver(active: seq<Remark>, unresolved: set<Finding>, blocking: set<Severity>)
    requires AllHandedOver(active, unresolved) && Red(unresolved, blocking)
    ensures SomeBlock(active, blocking)
  {
    var f :| f in unresolved && f.severity in blocking;
    var a :| a in active && Alike(a, f);
    assert Blocking(a, blocking);
  }

  lemma HandedOverIsBlocking(active: seq<Remark>, unresolved: set<Finding>, blocking: set<Severity>)
    requires NothingElse(active, unresolved) && SomeBlock(active, blocking)
    ensures Red(unresolved, blocking)
  {
    var a :| a in active && Blocking(a, blocking);
    var f :| f in unresolved && Alike(a, f);
  }

  /**
   * A check is red exactly when a finding handed over to it blocks, and it shows no blocking annotation exactly
   * when each blocking finding, reported or still open, is off the right side or shadowed.
   */
  lemma RedIsUnexplainedExactly(reported: seq<Remark>, active: seq<Remark>, blocking: set<Severity>, unresolved: set<Finding>)
    requires Describes(active, unresolved)
    ensures Red(unresolved, blocking) <==> SomeBlock(active, blocking)
    ensures SomeBlock(Annotated(Candidates(reported + active), blocking), blocking) <==> !NoneShows(reported + active, blocking)
  {
    hide Red, SomeBlock, AllHandedOver, NothingElse, NoneShows, Annotated, Candidates;
    if Red(unresolved, blocking) { BlockingIsHandedOver(active, unresolved, blocking); }
    if SomeBlock(active, blocking) { HandedOverIsBlocking(active, unresolved, blocking); }
    BlockingIsShownExactly(reported + active, blocking);
    NoFirstBlocks(reported + active, blocking);
  }

  lemma {:induction false} CandidatesAreFew(remarks: seq<Remark>)
    ensures |Candidates(remarks)| <= |remarks|
  {
    if remarks != [] { CandidatesAreFew(remarks[..|remarks| - 1]); }
  }

  lemma OneAlone(r: Remark, f: Finding)
    requires Alike(r, f)
    ensures Describes([r], {f}) && Red({f}, {f.severity})
  {
    assert r in [r] && f in {f};
  }

  lemma ShownOf(one: Remark, two: Remark, blocking: set<Severity>)
    ensures Annotated(Candidates([one]), blocking) == if one.right then [one] else []
    ensures one.right && one.fingerprint == two.fingerprint ==> Annotated(Candidates([one, two]), blocking) == [one]
  {
    CandidatesAreFew([one]);
    CandidatesAreFew([one, two]);
    hide Kept, At;
    assert [one][..0] == [] && [one, two][..1] == [one];
    assert one in [one] && (two.fingerprint == one.fingerprint ==> Seen([one], two.fingerprint));
  }

  /** A check can be red with nothing blocking to show: its one open finding is on the left side. */
  lemma LeftSideLeavesRedUnexplained(x: Finding, left: Remark)
    requires Alike(left, x) && !left.right
    ensures Red({x}, {x.severity}) && Describes([left], {x})
    ensures Annotated(Candidates([] + [left]), {x.severity}) == []
  {
    hide *;
    OneAlone(left, x);
    assert [] + [left] == [left];
    ShownOf(left, left, {x.severity});
  }

  /** Or this run reported the open finding once more, with a severity that does not block. */
  lemma ShadowLeavesRedUnexplained(x: Finding, open: Remark, again: Remark)
    requires Alike(open, x) && again.right && again.fingerprint == x.fingerprint && again.severity != x.severity
    ensures Red({x}, {x.severity}) && Describes([open], {x})
    ensures Annotated(Candidates([again] + [open]), {x.severity}) == [again] && !Blocking(again, {x.severity})
  {
    hide Describes, Red, Annotated, Candidates;
    OneAlone(open, x);
    assert [again] + [open] == [again, open];
    ShownOf(again, open, {x.severity});
  }
}
