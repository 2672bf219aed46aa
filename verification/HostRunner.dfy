/** The host's review runner: request threads, one worker at a time, and a bounded registry, interleaved. */
module HostRunner {
  import opened Wrappers
  import Rows

  const MAX_RETAINED := 128

  type ReviewId = nat
  type ThreadId = nat
  type SessionId = string

  datatype Status = Accepted | Running | CancelRequested | Completed | Failed | Cancelled

  predicate Terminal(status: Status) { status in {Completed, Failed, Cancelled} }

  datatype Review = Review(dispatch: string, cancel: bool, status: Status, result: Option<string>, error: Option<string>)

  /** Where a thread that holds the slot stands between two atomic sections. */
  datatype Place =
    | Launched(review: ReviewId)
    | Executing(review: ReviewId)
    | Writing(review: ReviewId, result: string)
    | Finishing(review: ReviewId)
    | Failing(review: ReviewId, error: string)
    | Releasing(review: ReviewId)
    | Synchronous

  datatype Entry = Entry(session: SessionId, review: ReviewId)

  /** `registry` is in insertion order; `executed` lists the reviews handed to the agent. */
  datatype State = State(registry: seq<Entry>, reviews: map<ReviewId, Review>, slots: nat, threads: map<ThreadId, Place>,
                         executed: seq<ReviewId>)

  const START := State([], map[], 1, map[], [])

  // ---------------------------------------------------------------- the registry

  function Find(registry: seq<Entry>, session: SessionId): Option<ReviewId> {
    if registry == [] then None
    else if registry[0].session == session then Some(registry[0].review)
    else Find(registry[1..], session)
  }

  predicate Known(registry: seq<Entry>, reviews: map<ReviewId, Review>) {
    forall entry <- registry :: entry.review in reviews
  }

  predicate Retired(entry: Entry, reviews: map<ReviewId, Review>)
    requires entry.review in reviews
  {
    Terminal(reviews[entry.review].status)
  }

  /** The position of the oldest terminal review, or the length when there is none. */
  function Oldest(registry: seq<Entry>, reviews: map<ReviewId, Review>): (i: nat)
    requires Known(registry, reviews)
    ensures i <= |registry| && (i < |registry| ==> Retired(registry[i], reviews))
    ensures forall j | 0 <= j < i :: !Retired(registry[j], reviews)
  {
    if registry == [] || Retired(registry[0], reviews) then 0
    else
      assert forall entry <- registry[1..] :: entry in registry;
      Oldest(registry[1..], reviews) + 1
  }

  function RemoveAt(registry: seq<Entry>, i: nat): (left: seq<Entry>)
    requires i < |registry|
    ensures |left| == |registry| - 1 && forall entry <- left :: entry in registry
  {
    registry[..i] + registry[i + 1..]
  }

  /** While the registry is full, its oldest terminal review goes. */
  function Pruned(registry: seq<Entry>, reviews: map<ReviewId, Review>): seq<Entry>
    requires Known(registry, reviews)
    decreases |registry|
  {
    var i := Oldest(registry, reviews);
    if |registry| < MAX_RETAINED || i == |registry| then registry else Pruned(RemoveAt(registry, i), reviews)
  }

  /** Sessions and reviews appear once. */
  predicate Distinct(registry: seq<Entry>) {
    forall i, j | 0 <= i < j < |registry| ::
      registry[i].session != registry[j].session && registry[i].review != registry[j].review
  }

  lemma RemovingKeepsTheRest(registry: seq<Entry>, i: nat)
    requires Distinct(registry) && i < |registry|
    ensures Distinct(RemoveAt(registry, i))
    ensures forall entry <- registry | entry != registry[i] :: entry in RemoveAt(registry, i)
  {
    var left := RemoveAt(registry, i);
    assert forall j | 0 <= j < |left| :: left[j] == if j < i then registry[j] else registry[j + 1];
    forall k | 0 <= k < |registry| && k != i ensures registry[k] in left {
      assert left[if k < i then k else k - 1] == registry[k];
    }
  }

  /** Pruning keeps every review that is not terminal, and stops below the bound unless none is terminal. */
  lemma {:induction false} PruningKeepsActive(registry: seq<Entry>, reviews: map<ReviewId, Review>)
    requires Known(registry, reviews) && Distinct(registry)
    ensures var left := Pruned(registry, reviews);
            && Distinct(left) && Known(left, reviews) && (forall entry <- left :: entry in registry)
            && (forall entry <- registry :: entry in left || Retired(entry, reviews))
            && (|left| < MAX_RETAINED || forall entry <- left :: !Retired(entry, reviews))
    decreases |registry|
  {
    var i := Oldest(registry, reviews);
    if |registry| >= MAX_RETAINED && i < |registry| {
      RemovingKeepsTheRest(registry, i);
      hide Distinct, RemoveAt, Retired;
      PruningKeepsActive(RemoveAt(registry, i), reviews);
    }
  }

  lemma {:induction false} FoundIsEntry(registry: seq<Entry>, session: SessionId)
    ensures Find(registry, session).Some? ==> Entry(session, Find(registry, session).value) in registry
    ensures Find(registry, session).None? ==> forall entry <- registry :: entry.session != session
  {
    if registry != [] {
      assert registry == [registry[0]] + registry[1..];
      FoundIsEntry(registry[1..], session);
    }
  }

  // ---------------------------------------------------------------- the atomic sections

  function WithReview(s: State, r: ReviewId, review: Review): State { s.(reviews := s.reviews[r := review]) }

  function At(s: State, t: ThreadId, place: Place): State { s.(threads := s.threads[t := place]) }

  function MarkedTerminal(review: Review, status: Status, error: Option<string>): Review {
    review.(status := status, error := error, result := if status == Completed then review.result else None)
  }

  datatype Step =
    | Start(session: SessionId, dispatch: string, r: ReviewId, t: ThreadId)
    | Enter(t: ThreadId)
    | Succeed(t: ThreadId, result: string)
    | Raise(t: ThreadId, error: string)
    | Write(t: ThreadId)
    | Finish(t: ThreadId)
    | Release(t: ThreadId)
    | Cancel(session: SessionId, authorized: bool)
    | Acquire(t: ThreadId)

  datatype Answer = Busy | Mismatch | Existing(r: ReviewId) | Registered(r: ReviewId)

  function Started(s: State, session: SessionId, dispatch: string, r: ReviewId, t: ThreadId): (State, Answer)
    requires Known(s.registry, s.reviews)
  {
    match Find(s.registry, session)
    case Some(existing) =>
      FoundIsEntry(s.registry, session);
      if s.reviews[existing].dispatch != dispatch then (s, Mismatch) else (s, Existing(existing))
    case None =>
      var pruned := s.(registry := Pruned(s.registry, s.reviews));
      if s.slots == 0 then (pruned, Busy)
      else
        (State(pruned.registry + [Entry(session, r)],
               s.reviews[r := Review(dispatch, false, Accepted, None, None)],
               s.slots - 1, s.threads[t := Launched(r)], s.executed),
         Registered(r))
  }

  function Entered(s: State, t: ThreadId, r: ReviewId): State
    requires r in s.reviews
  {
    if s.reviews[r].cancel
    then At(WithReview(s, r, MarkedTerminal(s.reviews[r], Cancelled, Some("cancelled"))), t, Releasing(r))
    else At(WithReview(s, r, s.reviews[r].(status := Running, error := None)), t, Executing(r))
           .(executed := s.executed + [r])
  }

  function Finished(s: State, t: ThreadId, r: ReviewId): State
    requires r in s.reviews
  {
    var review := if s.reviews[r].cancel then MarkedTerminal(s.reviews[r], Cancelled, Some("cancelled"))
                  else s.reviews[r].(status := Completed, error := None);
    At(WithReview(s, r, review), t, Releasing(r))
  }

  function FailedWith(s: State, t: ThreadId, r: ReviewId, error: string): State
    requires r in s.reviews
  {
    var review := if s.reviews[r].cancel then MarkedTerminal(s.reviews[r], Cancelled, Some("cancelled"))
                  else MarkedTerminal(s.reviews[r], Failed, Some(error));
    At(WithReview(s, r, review), t, Releasing(r))
  }

  function CancelledIn(s: State, session: SessionId, authorized: bool): State
    requires Known(s.registry, s.reviews)
  {
    match Find(s.registry, session)
    case None => s
    case Some(r) =>
      FoundIsEntry(s.registry, session);
      if !authorized || Terminal(s.reviews[r].status) then s
      else WithReview(s, r, s.reviews[r].(cancel := true, status := CancelRequested))
  }

  function After(s: State, step: Step): State
    requires Known(s.registry, s.reviews)
  {
    match step
    case Start(session, dispatch, r, t) => Started(s, session, dispatch, r, t).0
    case Enter(t) =>
      if t in s.threads && s.threads[t].Launched? && s.threads[t].review in s.reviews then Entered(s, t, s.threads[t].review)
      else s
    case Succeed(t, result) =>
      if t in s.threads && s.threads[t].Executing? then At(s, t, Writing(s.threads[t].review, result)) else s
    case Raise(t, error) =>
      if t in s.threads && s.threads[t].Executing? then At(s, t, Failing(s.threads[t].review, error)) else s
    case Write(t) =>
      if t in s.threads && s.threads[t].Writing? && s.threads[t].review in s.reviews
      then At(WithReview(s, s.threads[t].review, s.reviews[s.threads[t].review].(result := Some(s.threads[t].result))),
              t, Finishing(s.threads[t].review))
      else s
    case Finish(t) =>
      if t in s.threads && s.threads[t].Finishing? && s.threads[t].review in s.reviews
      then Finished(s, t, s.threads[t].review)
      else if t in s.threads && s.threads[t].Failing? && s.threads[t].review in s.reviews
      then FailedWith(s, t, s.threads[t].review, s.threads[t].error)
      else s
    case Release(t) =>
      if t in s.threads && (s.threads[t].Releasing? || s.threads[t].Synchronous?)
      then s.(slots := s.slots + 1, threads := s.threads - {t}) else s
    case Cancel(session, authorized) => CancelledIn(s, session, authorized)
    case Acquire(t) => if s.slots == 0 then s else s.(slots := s.slots - 1, threads := s.threads[t := Synchronous])
  }

  /** New threads and reviews are new; the scheduler may otherwise pick any step. */
  predicate Possible(s: State, step: Step) {
    match step
    case Start(_, _, r, t) => r !in s.reviews && t !in s.threads
    case Acquire(t) => t !in s.threads
    case _ => true
  }

  // ---------------------------------------------------------------- what every interleaving keeps

  /** The status a review may have while a thread stands at a place. */
  predicate Fits(place: Place, review: Review) {
    match place
    case Launched(_) => review.status in {Accepted, CancelRequested} && review.result == None
    case Executing(_) => review.status in {Running, CancelRequested} && review.result == None
    case Writing(_, _) => review.status in {Running, CancelRequested} && review.result == None
    case Finishing(_) => review.status in {Running, CancelRequested} && review.result.Some?
    case Failing(_, _) => review.status in {Running, CancelRequested} && review.result == None
    case Releasing(_) => Terminal(review.status)
    case Synchronous => true
  }

  predicate Coherent(review: Review) {
    && (review.cancel <==> review.status in {CancelRequested, Cancelled})
    && (Terminal(review.status) ==> (review.result.Some? <==> review.status == Completed))
    && (review.error.Some? <==> review.status in {Failed, Cancelled})
    && (review.status == Cancelled ==> review.error == Some("cancelled"))
  }

  predicate Sound(s: State) {
    && Distinct(s.registry) && Known(s.registry, s.reviews) && |s.registry| <= MAX_RETAINED
    && s.slots + |s.threads| == 1
    && (forall r <- s.reviews :: Coherent(s.reviews[r]))
    && (forall t <- s.threads | !s.threads[t].Synchronous? ::
          s.threads[t].review in s.reviews && Fits(s.threads[t], s.reviews[s.threads[t].review]))
    && (forall r <- s.reviews | !Terminal(s.reviews[r].status) ::
          && (exists t <- s.threads :: !s.threads[t].Synchronous? && s.threads[t].review == r)
          && (exists entry <- s.registry :: entry.review == r))
    && (forall r <- s.executed :: r in s.reviews)
    && (forall t <- s.threads | s.threads[t].Launched? :: s.threads[t].review !in s.executed)
    && (forall i, j | 0 <= i < j < |s.executed| :: s.executed[i] != s.executed[j])
  }

  /** The slot has one holder, or none. */
  lemma OneHolder(s: State, t: ThreadId, u: ThreadId)
    requires Sound(s) && t in s.threads && u in s.threads
    ensures t == u && s.slots == 0
  {
    if t != u {
      assert |{t, u}| == 2 && {t, u} <= s.threads.Keys;
      Rows.SmallerSet({t, u}, s.threads.Keys);
    }
  }

  /** At most one review is not terminal. */
  lemma OneActive(s: State, q: ReviewId, r: ReviewId)
    requires Sound(s) && q in s.reviews && r in s.reviews
    requires !Terminal(s.reviews[q].status) && !Terminal(s.reviews[r].status)
    ensures q == r
  {
    var t :| t in s.threads && !s.threads[t].Synchronous? && s.threads[t].review == q;
    var u :| u in s.threads && !s.threads[u].Synchronous? && s.threads[u].review == r;
    OneHolder(s, t, u);
  }

  // ---------------------------------------------------------------- the steps keep it

  lemma LoneThread(s: State, t: ThreadId)
    requires Sound(s) && t in s.threads
    ensures s.slots == 0 && s.threads.Keys == {t} && s.threads - {t} == map[]
  {
    forall u <- s.threads ensures u == t { OneHolder(s, t, u); }
  }

  lemma NoThread(s: State)
    requires Sound(s) && s.slots > 0
    ensures s.threads == map[] && forall r <- s.reviews :: Terminal(s.reviews[r].status)
  {
    assert |s.threads| == 0;
  }

  lemma PrunedIsSound(s: State)
    requires Sound(s)
    ensures Sound(s.(registry := Pruned(s.registry, s.reviews)))
    ensures s.slots > 0 ==> |Pruned(s.registry, s.reviews)| < MAX_RETAINED
  {
    hide Distinct, Pruned, Coherent, Fits, Retired;
    var left := Pruned(s.registry, s.reviews);
    PruningKeepsActive(s.registry, s.reviews);
    PrunedIsNoLonger(s.registry, s.reviews);
    if s.slots > 0 { PrunedHasRoom(s); }
    forall r <- s.reviews | !Terminal(s.reviews[r].status) ensures exists entry <- left :: entry.review == r {
      var entry :| entry in s.registry && entry.review == r;
      ActiveStays(s, entry);
    }
  }

  lemma ActiveStays(s: State, entry: Entry)
    requires Sound(s) && entry in s.registry && !Terminal(s.reviews[entry.review].status)
    ensures entry in Pruned(s.registry, s.reviews)
  {
    PruningKeepsActive(s.registry, s.reviews);
    hide Pruned, Coherent, Fits;
  }

  lemma PrunedHasRoom(s: State)
    requires Sound(s) && s.slots > 0
    ensures |Pruned(s.registry, s.reviews)| < MAX_RETAINED
  {
    NoThread(s);
    PruningKeepsActive(s.registry, s.reviews);
    hide Sound, Distinct, Pruned;
    assert forall entry <- s.registry :: entry.review in s.reviews && Retired(entry, s.reviews);
  }

  lemma {:induction false} PrunedIsNoLonger(registry: seq<Entry>, reviews: map<ReviewId, Review>)
    requires Known(registry, reviews)
    ensures |Pruned(registry, reviews)| <= |registry|
    decreases |registry|
  {
    var i := Oldest(registry, reviews);
    if |registry| >= MAX_RETAINED && i < |registry| { PrunedIsNoLonger(RemoveAt(registry, i), reviews); }
  }

  lemma StartIsSound(s: State, session: SessionId, dispatch: string, r: ReviewId, t: ThreadId)
    requires Sound(s) && r !in s.reviews && t !in s.threads
    ensures Sound(Started(s, session, dispatch, r, t).0)
  {
    FoundIsEntry(s.registry, session);
    if Find(s.registry, session).None? {
      PrunedIsSound(s);
      PruningKeepsActive(s.registry, s.reviews);
      var left := Pruned(s.registry, s.reviews);
      if s.slots > 0 {
        NoThread(s);
        hide Pruned;
        var later := Started(s, session, dispatch, r, t).0;
        RegisteringIsSound(s.(registry := left), later, Entry(session, r), t, dispatch);
      }
    }
  }

  lemma RegisteringIsSound(s: State, later: State, entry: Entry, t: ThreadId, dispatch: string)
    requires Sound(s) && s.slots == 1 && s.threads == map[] && |s.registry| < MAX_RETAINED
    requires forall r <- s.reviews :: Terminal(s.reviews[r].status)
    requires entry.review !in s.reviews && forall e <- s.registry :: e.session != entry.session
    requires later == State(s.registry + [entry], s.reviews[entry.review := Review(dispatch, false, Accepted, None, None)],
                            0, map[t := Launched(entry.review)], s.executed)
    ensures Sound(later)
  {
    assert Distinct(later.registry) by { assert forall e <- s.registry :: e.review in s.reviews; }
    assert entry in later.registry;
    hide Distinct, Coherent;
    assert Coherent(Review(dispatch, false, Accepted, None, None)) by { CoherentStart(dispatch); }
  }

  lemma CoherentStart(dispatch: string)
    ensures Coherent(Review(dispatch, false, Accepted, None, None))
  {
  }

  /** The thread that holds the slot moves on with its review: nothing else can be affected. */
  lemma MovingIsSound(s: State, t: ThreadId, r: ReviewId, review: Review, place: Place)
    requires Sound(s) && t in s.threads && !s.threads[t].Synchronous? && s.threads[t].review == r
    requires !place.Synchronous? && !place.Launched? && place.review == r && Fits(place, review) && Coherent(review)
    requires !Terminal(s.reviews[r].status)
    ensures Sound(At(WithReview(s, r, review), t, place))
  {
    LoneThread(s, t);
    var later := At(WithReview(s, r, review), t, place);
    assert later.threads == map[t := place];
    forall q <- later.reviews | !Terminal(later.reviews[q].status) ensures q == r {
      if q != r { OneActive(s, q, r); }
    }
    hide Distinct, Coherent, Fits, Terminal;
  }

  lemma EnteringIsSound(s: State, t: ThreadId)
    requires Sound(s) && t in s.threads && s.threads[t].Launched?
    ensures Sound(Entered(s, t, s.threads[t].review))
  {
    var r := s.threads[t].review;
    LoneThread(s, t);
    assert Fits(s.threads[t], s.reviews[r]) && Coherent(s.reviews[r]);
    if s.reviews[r].cancel {
      MovingIsSound(s, t, r, MarkedTerminal(s.reviews[r], Cancelled, Some("cancelled")), Releasing(r));
    } else {
      var running := s.reviews[r].(status := Running, error := None);
      MovingIsSound(s, t, r, running, Executing(r));
      ExecutingIsSound(At(WithReview(s, r, running), t, Executing(r)), t, r);
    }
  }

  /** A review that has not run before is handed to the agent. */
  lemma ExecutingIsSound(s: State, t: ThreadId, r: ReviewId)
    requires Sound(s) && t in s.threads && s.threads[t] == Executing(r) && r !in s.executed
    ensures Sound(s.(executed := s.executed + [r]))
  {
    LoneThread(s, t);
    var later := s.executed + [r];
    forall i, j | 0 <= i < j < |later| ensures later[i] != later[j] { assert later[i] == s.executed[i]; }
    hide Distinct, Coherent, Fits, Terminal;
  }

  lemma CancellingIsSound(s: State, session: SessionId, authorized: bool)
    requires Sound(s)
    ensures Sound(CancelledIn(s, session, authorized))
  {
    FoundIsEntry(s.registry, session);
    var found := Find(s.registry, session);
    if found.Some? && authorized && !Terminal(s.reviews[found.value].status) {
      var r := found.value;
      assert Coherent(s.reviews[r]);
      var t :| t in s.threads && !s.threads[t].Synchronous? && s.threads[t].review == r;
      LoneThread(s, t);
      assert Fits(s.threads[t], s.reviews[r]);
      var review := s.reviews[r].(cancel := true, status := CancelRequested);
      assert Fits(s.threads[t], review) && Coherent(review);
      hide Distinct, Coherent, Fits;
    }
  }

  lemma FreeingIsSound(s: State, t: ThreadId)
    requires Sound(s) && t in s.threads && (s.threads[t].Releasing? || s.threads[t].Synchronous?)
    ensures Sound(s.(slots := s.slots + 1, threads := s.threads - {t}))
  {
    LoneThread(s, t);
    assert s.threads[t].Releasing? ==> Fits(s.threads[t], s.reviews[s.threads[t].review]);
    hide Distinct, Coherent;
  }

  lemma AcquiringIsSound(s: State, t: ThreadId)
    requires Sound(s) && t !in s.threads && s.slots > 0
    ensures Sound(s.(slots := s.slots - 1, threads := s.threads[t := Synchronous]))
  {
    NoThread(s);
    assert s.threads[t := Synchronous] == map[t := Synchronous];
    hide Distinct, Coherent, Fits;
  }

  lemma ResultIsSound(s: State, t: ThreadId)
    requires Sound(s) && t in s.threads && s.threads[t].Writing?
    ensures var r := s.threads[t].review;
            r in s.reviews && Sound(At(WithReview(s, r, s.reviews[r].(result := Some(s.threads[t].result))), t, Finishing(r)))
  {
    var r := s.threads[t].review;
    assert Fits(s.threads[t], s.reviews[r]) && Coherent(s.reviews[r]);
    MovingIsSound(s, t, r, s.reviews[r].(result := Some(s.threads[t].result)), Finishing(r));
  }

  lemma FinishingIsSound(s: State, t: ThreadId)
    requires Sound(s) && t in s.threads && (s.threads[t].Finishing? || s.threads[t].Failing?)
    ensures s.threads[t].review in s.reviews
    ensures s.threads[t].Finishing? ==> Sound(Finished(s, t, s.threads[t].review))
    ensures s.threads[t].Failing? ==> Sound(FailedWith(s, t, s.threads[t].review, s.threads[t].error))
  {
    var r := s.threads[t].review;
    var review := s.reviews[r];
    assert Fits(s.threads[t], review) && Coherent(review);
    if review.cancel {
      MovingIsSound(s, t, r, MarkedTerminal(review, Cancelled, Some("cancelled")), Releasing(r));
    } else if s.threads[t].Finishing? {
      MovingIsSound(s, t, r, review.(status := Completed, error := None), Releasing(r));
    } else {
      MovingIsSound(s, t, r, MarkedTerminal(review, Failed, Some(s.threads[t].error)), Releasing(r));
    }
  }

  lemma OutcomeIsSound(s: State, t: ThreadId, place: Place)
    requires Sound(s) && t in s.threads && s.threads[t].Executing? && (place.Writing? || place.Failing?)
    requires place.review == s.threads[t].review
    ensures Sound(At(s, t, place))
  {
    var r := s.threads[t].review;
    assert Fits(s.threads[t], s.reviews[r]) && Coherent(s.reviews[r]);
    MovingIsSound(s, t, r, s.reviews[r], place);
    assert s.reviews[r := s.reviews[r]] == s.reviews;
  }

  lemma SoundIsKnown(s: State)
    requires Sound(s)
    ensures Known(s.registry, s.reviews)
    ensures forall t <- s.threads | !s.threads[t].Synchronous? :: s.threads[t].review in s.reviews
  {
    hide Fits, Coherent, Distinct;
  }

  lemma StepIsSound(s: State, step: Step)
    requires Sound(s) && Possible(s, step)
    ensures Sound(After(s, step))
  {
    SoundIsKnown(s);
    hide Sound, Started, Entered, Finished, FailedWith, CancelledIn, At, WithReview, Known, Find, Distinct, Fits, Coherent;
    match step
    case Start(session, dispatch, r, t) => StartIsSound(s, session, dispatch, r, t);
    case Cancel(session, authorized) => CancellingIsSound(s, session, authorized);
    case Acquire(t) => if s.slots > 0 { AcquiringIsSound(s, t); }
    case _ => ThreadStepIsSound(s, step);
  }

  lemma ThreadStepIsSound(s: State, step: Step)
    requires Sound(s) && !step.Start? && !step.Cancel? && !step.Acquire?
    ensures Known(s.registry, s.reviews) && Sound(After(s, step))
  {
    SoundIsKnown(s);
    hide Sound, Entered, Finished, FailedWith, At, WithReview, Known, Find, Distinct, Fits, Coherent;
    match step
    case Enter(t) => if t in s.threads && s.threads[t].Launched? { EnteringIsSound(s, t); }
    case Succeed(t, result) =>
      if t in s.threads && s.threads[t].Executing? { OutcomeIsSound(s, t, Writing(s.threads[t].review, result)); }
    case Raise(t, error) =>
      if t in s.threads && s.threads[t].Executing? { OutcomeIsSound(s, t, Failing(s.threads[t].review, error)); }
    case Write(t) => if t in s.threads && s.threads[t].Writing? { ResultIsSound(s, t); }
    case Finish(t) =>
      if t in s.threads && (s.threads[t].Finishing? || s.threads[t].Failing?) { FinishingIsSound(s, t); }
    case Release(t) =>
      if t in s.threads && (s.threads[t].Releasing? || s.threads[t].Synchronous?) { FreeingIsSound(s, t); }
  }

  // ---------------------------------------------------------------- what a step may do to a review

  /** Terminal reviews are final, and a requested cancellation can only end in a cancelled one. */
  predicate Follows(review: Review, later: Review) {
    && later.dispatch == review.dispatch
    && (Terminal(review.status) ==> later == review)
    && (review.status == CancelRequested ==> later.status in {CancelRequested, Cancelled})
  }

  /** A session that stays registered keeps its review, and only terminal reviews leave the registry. */
  predicate Evolves(s: State, later: State) {
    && (forall r <- s.reviews :: r in later.reviews && Follows(s.reviews[r], later.reviews[r]))
    && s.executed <= later.executed
    && (forall e <- s.registry, f <- later.registry | e.session == f.session :: e == f)
    && (forall e <- s.registry | e.review in s.reviews && !Terminal(s.reviews[e.review].status) :: e in later.registry)
  }

  lemma SameRegistryEvolves(s: State, later: State)
    requires Sound(s) && later.registry == s.registry && s.executed <= later.executed
    requires forall r <- s.reviews :: r in later.reviews && Follows(s.reviews[r], later.reviews[r])
    ensures Evolves(s, later)
  {
    forall e <- s.registry, f <- later.registry | e.session == f.session ensures e == f {
      var i :| 0 <= i < |s.registry| && s.registry[i] == e;
      var j :| 0 <= j < |s.registry| && s.registry[j] == f;
      assert Distinct(s.registry);
    }
    hide Sound, Follows;
  }

  lemma StartEvolves(s: State, session: SessionId, dispatch: string, r: ReviewId, t: ThreadId)
    requires Sound(s) && r !in s.reviews
    ensures Evolves(s, Started(s, session, dispatch, r, t).0)
  {
    FoundIsEntry(s.registry, session);
    if Find(s.registry, session).None? {
      PruningKeepsActive(s.registry, s.reviews);
      assert Distinct(s.registry);
      hide Pruned, Sound;
      PrunedEvolves(s, Pruned(s.registry, s.reviews), Started(s, session, dispatch, r, t).0, Entry(session, r));
    } else {
      SameRegistryEvolves(s, s);
    }
  }

  lemma PrunedEvolves(s: State, left: seq<Entry>, later: State, added: Entry)
    requires Distinct(s.registry) && (forall entry <- left :: entry in s.registry)
    requires Known(s.registry, s.reviews) && forall entry <- s.registry :: entry in left || Retired(entry, s.reviews)
    requires later.registry == left || later.registry == left + [added]
    requires forall entry <- s.registry :: entry.session != added.session
    requires later.executed == s.executed && forall q <- s.reviews :: q in later.reviews && later.reviews[q] == s.reviews[q]
    ensures Evolves(s, later)
  {
    forall e <- s.registry, f <- later.registry | e.session == f.session ensures e == f {
      var i :| 0 <= i < |s.registry| && s.registry[i] == e;
      var j :| 0 <= j < |s.registry| && s.registry[j] == f;
    }
    assert forall entry <- left :: entry in later.registry;
  }

  /** The review a thread works on is not terminal until the thread is about to release the slot. */
  lemma ActiveWhileWorking(s: State, t: ThreadId)
    requires Sound(s) && t in s.threads && !s.threads[t].Synchronous?
    ensures s.threads[t].review in s.reviews && Fits(s.threads[t], s.reviews[s.threads[t].review])
    ensures Coherent(s.reviews[s.threads[t].review])
    ensures !s.threads[t].Releasing? ==> !Terminal(s.reviews[s.threads[t].review].status)
  {
  }

  lemma WorkingEvolves(s: State, later: State, r: ReviewId, review: Review)
    requires Sound(s) && r in s.reviews && Follows(s.reviews[r], review)
    requires later.reviews == s.reviews[r := review] && later.registry == s.registry && s.executed <= later.executed
    ensures Evolves(s, later)
  {
    forall q <- s.reviews ensures q in later.reviews && Follows(s.reviews[q], later.reviews[q]) {}
    hide Sound, Follows;
    SameRegistryEvolves(s, later);
  }

  lemma StepEvolves(s: State, step: Step)
    requires Sound(s) && Possible(s, step)
    ensures Evolves(s, After(s, step))
  {
    assert forall r <- s.reviews :: Follows(s.reviews[r], s.reviews[r]);
    SameRegistryEvolves(s, s);
    var later := After(s, step);
    match step
    case Start(session, dispatch, r, t) => StartEvolves(s, session, dispatch, r, t);
    case Enter(t) =>
      if t in s.threads && s.threads[t].Launched? { ThreadEvolves(s, later, t); }
    case Succeed(t, result) => { hide Sound, Follows; }
    case Raise(t, error) => { hide Sound, Follows; }
    case Write(t) => if t in s.threads && s.threads[t].Writing? { ThreadEvolves(s, later, t); }
    case Finish(t) =>
      if t in s.threads && (s.threads[t].Finishing? || s.threads[t].Failing?) { ThreadEvolves(s, later, t); }
    case Release(t) => { hide Sound, Follows; }
    case Cancel(session, authorized) =>
      FoundIsEntry(s.registry, session);
      var found := Find(s.registry, session);
      if found.Some? && authorized && !Terminal(s.reviews[found.value].status) {
        WorkingEvolves(s, later, found.value, later.reviews[found.value]);
      }
    case Acquire(t) => { hide Sound, Follows; }
  }

  lemma ThreadEvolves(s: State, later: State, t: ThreadId)
    requires Sound(s) && t in s.threads
    requires s.threads[t].Launched? || s.threads[t].Writing? || s.threads[t].Finishing? || s.threads[t].Failing?
    requires Known(s.registry, s.reviews)
    requires later in {After(s, Enter(t)), After(s, Write(t)), After(s, Finish(t))}
    ensures Evolves(s, later)
  {
    hide Sound, Evolves, Fits, Known, Coherent, Find;
    ActiveWhileWorking(s, t);
    var r := s.threads[t].review;
    assert later.reviews == s.reviews[r := later.reviews[r]] || later == s;
    if later == s { SameRegistryEvolves(s, s); } else { WorkingEvolves(s, later, r, later.reviews[r]); }
  }

  // ---------------------------------------------------------------- every interleaving

  /** Steps are defined where every registered review is known, which is everywhere in a run. */
  ghost predicate Execution(states: seq<State>, steps: seq<Step>) {
    && |states| == |steps| + 1 && states[0] == START
    && forall i | 0 <= i < |steps| ::
         && Possible(states[i], steps[i])
         && (Known(states[i].registry, states[i].reviews) ==> states[i + 1] == After(states[i], steps[i]))
  }

  /**
   * In every interleaving the slot is free or has one holder, at most one review is active, the registry
   * stays within its bound, and no review is executed twice.
   */
  lemma {:induction false} EveryInterleavingIsSound(states: seq<State>, steps: seq<Step>, i: nat)
    requires Execution(states, steps) && i < |states|
    ensures Sound(states[i])
    ensures |states[i].threads| <= 1 && (states[i].slots == 1 <==> states[i].threads == map[])
    ensures i < |steps| ==> Evolves(states[i], states[i + 1])
  {
    if i > 0 {
      EveryInterleavingIsSound(states, steps, i - 1);
      StepIsSound(states[i - 1], steps[i - 1]);
    }
    if i < |steps| { StepEvolves(states[i], steps[i]); }
    assert |states[i].threads| == 0 <==> states[i].threads == map[];
    hide Possible, After, Evolves, Distinct, Coherent, Fits, Terminal;
  }

  lemma FollowsOn(a: State, b: State, c: State, r: ReviewId)
    requires r in a.reviews && r in b.reviews && Follows(a.reviews[r], b.reviews[r]) && Evolves(b, c)
    ensures r in c.reviews && Follows(a.reviews[r], c.reviews[r])
  {
    assert Follows(b.reviews[r], c.reviews[r]);
  }

  lemma AsManyStates(states: seq<State>, steps: seq<Step>)
    requires Execution(states, steps)
    ensures |states| == |steps| + 1
  {
  }

  lemma FollowsItself(review: Review)
    ensures Follows(review, review)
  {
  }

  lemma {:induction false} ReviewsFollow(states: seq<State>, steps: seq<Step>, i: nat, j: nat, r: ReviewId)
    requires Execution(states, steps) && i <= j < |states| && r in states[i].reviews
    ensures r in states[j].reviews && Follows(states[i].reviews[r], states[j].reviews[r])
    decreases j
  {
    hide Execution, Sound, Evolves, Follows;
    AsManyStates(states, steps);
    if i == j {
      FollowsItself(states[i].reviews[r]);
    } else {
      ReviewsFollow(states, steps, i, j - 1, r);
      EveryInterleavingIsSound(states, steps, j - 1);
      FollowsOn(states[i], states[j - 1], states[j], r);
    }
  }

  /** A cancellation that was acknowledged ends in `cancelled` and leaves no result, whatever the threads do. */
  lemma AcknowledgedCancellationWins(states: seq<State>, steps: seq<Step>, i: nat, j: nat, r: ReviewId)
    requires Execution(states, steps) && i <= j < |states|
    requires r in states[i].reviews && states[i].reviews[r].status == CancelRequested
    ensures r in states[j].reviews && states[j].reviews[r].status in {CancelRequested, Cancelled}
    ensures Terminal(states[j].reviews[r].status) ==>
              states[j].reviews[r].status == Cancelled && states[j].reviews[r].result == None
  {
    ReviewsFollow(states, steps, i, j, r);
    EveryInterleavingIsSound(states, steps, j);
    assert Coherent(states[j].reviews[r]);
    hide Execution;
  }

  /** Terminal reviews never change again, and hold a result exactly when they completed. */
  lemma TerminalIsFinal(states: seq<State>, steps: seq<Step>, i: nat, j: nat, r: ReviewId)
    requires Execution(states, steps) && i <= j < |states|
    requires r in states[i].reviews && Terminal(states[i].reviews[r].status)
    ensures r in states[j].reviews && states[j].reviews[r] == states[i].reviews[r]
    ensures states[i].reviews[r].result.Some? <==> states[i].reviews[r].status == Completed
  {
    ReviewsFollow(states, steps, i, j, r);
    EveryInterleavingIsSound(states, steps, i);
    assert Coherent(states[i].reviews[r]);
    hide Execution;
  }

  // ---------------------------------------------------------------- a result before the end

  /** A running review holds a result exactly while its thread stands between writing it and finishing. */
  lemma RunningHoldsResultWhileFinishing(states: seq<State>, steps: seq<Step>, i: nat, r: ReviewId)
    requires Execution(states, steps) && i < |states|
    requires r in states[i].reviews && states[i].reviews[r].status == Running
    ensures states[i].reviews[r].result.Some? <==> exists t <- states[i].threads :: states[i].threads[t] == Finishing(r)
  {
    EveryInterleavingIsSound(states, steps, i);
    var s := states[i];
    hide Execution, Distinct, Coherent;
    var t :| t in s.threads && !s.threads[t].Synchronous? && s.threads[t].review == r;
    assert Fits(s.threads[t], s.reviews[r]);
    forall u <- s.threads ensures u == t { OneHolder(s, t, u); }
  }

  /** Such a moment is reached: a poll between the write and the last section sees `running` with a result. */
  lemma RunningCanHoldResult(session: SessionId, dispatch: string, result: string) returns (states: seq<State>, steps: seq<Step>)
    ensures Execution(states, steps) && |states| == 5
    ensures 0 in states[4].reviews && states[4].reviews[0].status == Running && states[4].reviews[0].result == Some(result)
  {
    var review := Review(dispatch, false, Accepted, None, None);
    var running := review.(status := Running);
    var registry := [Entry(session, 0)];
    steps := [Start(session, dispatch, 0, 0), Enter(0), Succeed(0, result), Write(0)];
    states := [START,
               State(registry, map[0 := review], 0, map[0 := Launched(0)], []),
               State(registry, map[0 := running], 0, map[0 := Executing(0)], [0]),
               State(registry, map[0 := running], 0, map[0 := Writing(0, result)], [0]),
               State(registry, map[0 := running.(result := Some(result))], 0, map[0 := Finishing(0)], [0])];
    assert states[1] == After(states[0], steps[0]);
    assert states[2] == After(states[1], steps[1]);
    assert states[3] == After(states[2], steps[2]);
    assert states[4] == After(states[3], steps[3]);
  }

  // ---------------------------------------------------------------- the sections that run under the lock

  class Runner {
    var registry: seq<Entry>
    var reviews: map<ReviewId, Review>
    var slots: nat
    var nextReview: ReviewId

    constructor ()
      ensures registry == [] && reviews == map[] && slots == 1
    {
      registry, reviews, slots, nextReview := [], map[], 1, 0;
    }

    method PruneTerminalReviews()
      requires Known(registry, reviews)
      modifies this`registry
      ensures registry == Pruned(old(registry), reviews)
    {
      while |registry| >= MAX_RETAINED
        invariant Known(registry, reviews) && Pruned(registry, reviews) == Pruned(old(registry), reviews)
        decreases |registry|
      {
        var i := FindTerminal();
        if i == |registry| { return; }
        registry := registry[..i] + registry[i + 1..];
      }
    }

    method FindTerminal() returns (i: nat)
      requires Known(registry, reviews)
      ensures i == Oldest(registry, reviews)
    {
      i := 0;
      while i < |registry| && !Terminal(reviews[registry[i].review].status)
        invariant i <= |registry|
        invariant forall j | 0 <= j < i :: !Retired(registry[j], reviews)
      {
        assert registry[i] in registry;
        i := i + 1;
      }
    }

    method StartReview(session: SessionId, dispatch: string) returns (answer: Answer)
      requires Known(registry, reviews) && nextReview !in reviews
      modifies this
      ensures answer == Started(State(old(registry), old(reviews), old(slots), map[], []), session, dispatch, old(nextReview), 0).1
      ensures var later := Started(State(old(registry), old(reviews), old(slots), map[], []), session, dispatch, old(nextReview), 0).0;
              registry == later.registry && reviews == later.reviews && slots == later.slots
      ensures answer.Busy? <==> (forall entry <- old(registry) :: entry.session != session) && old(slots) == 0
      ensures answer.Registered? <==> (forall entry <- old(registry) :: entry.session != session) && old(slots) > 0
      ensures answer.Existing? ==> Entry(session, answer.r) in old(registry) && old(reviews)[answer.r].dispatch == dispatch
      ensures answer.Mismatch? ==> exists entry <- old(registry) ::
                entry.session == session && old(reviews)[entry.review].dispatch != dispatch
      ensures !answer.Registered? ==> reviews == old(reviews) && slots == old(slots)
      ensures answer.Registered? ==> && answer.r !in old(reviews) && reviews == old(reviews)[answer.r := Review(dispatch, false, Accepted, None, None)]
                                     && Entry(session, answer.r) in registry && slots == old(slots) - 1
    {
      var existing := Find(registry, session);
      FoundIsEntry(registry, session);
      if existing.Some? {
        return if reviews[existing.value].dispatch != dispatch then Mismatch else Existing(existing.value);
      }
      PruneTerminalReviews();
      if slots == 0 { return Busy; }
      slots := slots - 1;
      var r := nextReview;
      reviews := reviews[r := Review(dispatch, false, Accepted, None, None)];
      registry := registry + [Entry(session, r)];
      nextReview := nextReview + 1;
      return Registered(r);
    }

    method CancelReview(session: SessionId, authorized: bool) returns (status: Option<Status>)
      requires Known(registry, reviews)
      modifies this`reviews
      ensures reviews == CancelledIn(State(registry, old(reviews), slots, map[], []), session, authorized).reviews
      ensures !authorized ==> reviews == old(reviews)
      ensures status == None <==> !authorized || forall entry <- registry :: entry.session != session
      ensures status.Some? ==> exists entry <- registry ::
                entry.session == session && entry.review in reviews && reviews[entry.review].status == status.value
                && (Terminal(status.value) || (status == Some(CancelRequested) && reviews[entry.review].cancel))
    {
      FoundIsEntry(registry, session);
      var found := Find(registry, session);
      if found.None? || !authorized { return None; }
      var r := found.value;
      if !Terminal(reviews[r].status) {
        reviews := reviews[r := reviews[r].(cancel := true, status := CancelRequested)];
      }
      return Some(reviews[r].status);
    }

    /** The second locked section of a worker: whatever the agent returned or raised, a cancellation wins. */
    method FinishReview(r: ReviewId, error: Option<string>)
      requires r in reviews
      modifies this`reviews
      ensures reviews == (if error == None then Finished(State(registry, old(reviews), slots, map[], []), 0, r)
                          else FailedWith(State(registry, old(reviews), slots, map[], []), 0, r, error.value)).reviews
      ensures reviews.Keys == old(reviews).Keys && forall q <- reviews | q != r :: reviews[q] == old(reviews)[q]
      ensures Terminal(reviews[r].status) && reviews[r].cancel == old(reviews)[r].cancel
      ensures reviews[r].status == Cancelled <==> old(reviews)[r].cancel
      ensures reviews[r].result == if reviews[r].status == Completed then old(reviews)[r].result else None
      ensures reviews[r].status == Failed ==> error.Some? && reviews[r].error == error
    {
      var review := reviews[r];
      if review.cancel {
        review := review.(status := Cancelled, error := Some("cancelled"), result := None);
      } else if error.Some? {
        review := review.(status := Failed, error := error, result := None);
      } else {
        review := review.(status := Completed, error := None);
      }
      reviews := reviews[r := review];
    }
  }
}
