/** Reactions to review comments: an append-only log whose projection follows what was last fetched. */
module Feedback {
  import opened Wrappers
  import opened Rows

  type ThreadId = nat
  type ReactionId = Id

  datatype Signal = Positive | Negative

  datatype Action = Observed | Withdrawn

  datatype Entry = Entry(thread: ThreadId, reaction: ReactionId, action: Action, signal: Signal)

  datatype Reaction = Reaction(id: ReactionId, signal: Signal)

  type Log = seq<Entry>

  predicate HasKey(log: Log, id: ReactionId, action: Action) {
    exists e <- log :: e.reaction == id && e.action == action
  }

  /** One event per reaction and action in a repository; a repeated key inserts nothing. */
  function Recorded(log: Log, e: Entry): Log {
    if HasKey(log, e.reaction, e.action) then log else log + [e]
  }

  /** The newest event of a reaction on a thread. */
  function Latest(log: Log, thread: ThreadId, id: ReactionId): Option<Entry> {
    if log == [] then None
    else
      var last := log[|log| - 1];
      if last.thread == thread && last.reaction == id then Some(last) else Latest(log[..|log| - 1], thread, id)
  }

  predicate IsActive(log: Log, thread: ThreadId, id: ReactionId) {
    Latest(log, thread, id).Some? && Latest(log, thread, id).value.action == Observed
  }

  /** The projection: the reactions of a thread whose newest event is an observation. */
  function Active(log: Log, thread: ThreadId): set<ReactionId> {
    set e <- log | e.thread == thread && IsActive(log, thread, e.reaction) :: e.reaction
  }

  /** Every reaction's events are a prefix of [observed, withdrawn], all on one thread. */
  predicate Paired(log: Log) {
    && (forall i, j | 0 <= i < j < |log| && log[i].reaction == log[j].reaction ::
          log[i].action == Observed && log[j].action == Withdrawn && log[i].thread == log[j].thread)
    && (forall j | 0 <= j < |log| && log[j].action == Withdrawn :: exists i :: 0 <= i < j && log[i].reaction == log[j].reaction)
  }

  predicate ObservedOn(log: Log, thread: ThreadId, id: ReactionId) {
    exists e <- log :: e.thread == thread && e.reaction == id && e.action == Observed
  }

  lemma {:induction false} PairedPrefix(log: Log, n: nat)
    requires Paired(log) && n <= |log|
    ensures Paired(log[..n])
  {
    forall j | 0 <= j < n && log[..n][j].action == Withdrawn
      ensures exists i :: 0 <= i < j && log[..n][i].reaction == log[..n][j].reaction
    {
      var i :| 0 <= i < j && log[i].reaction == log[j].reaction;
      assert log[..n][i] == log[i];
    }
  }

  lemma {:induction false} LatestIsLogged(log: Log, thread: ThreadId, id: ReactionId)
    ensures match Latest(log, thread, id)
            case Some(e) => e in log && e.thread == thread && e.reaction == id
            case None => forall e <- log :: e.thread != thread || e.reaction != id
  {
    if log != [] {
      assert log == log[..|log| - 1] + [log[|log| - 1]];
      LatestIsLogged(log[..|log| - 1], thread, id);
    }
  }

  /** A reaction is active on a thread when the thread observed it and nobody withdrew it. */
  lemma {:induction false} ActiveMeans(log: Log, thread: ThreadId, id: ReactionId)
    requires Paired(log)
    ensures IsActive(log, thread, id) <==> ObservedOn(log, thread, id) && !HasKey(log, id, Withdrawn)
  {
    if log != [] {
      var init, last := log[..|log| - 1], log[|log| - 1];
      assert log == init + [last];
      PairedPrefix(log, |log| - 1);
      ActiveMeans(init, thread, id);
      LastOfPaired(log);
      if last.reaction == id && last.thread == thread {
        if last.action == Observed { assert forall e <- init :: e.reaction != id; }
      } else if last.reaction == id {
        assert forall e <- init | e.reaction == id :: e.thread == last.thread;
      }
      hide Paired;
    }
  }

  lemma LastOfPaired(log: Log)
    requires Paired(log) && log != []
    ensures var init, last := log[..|log| - 1], log[|log| - 1];
            && (forall e <- init | e.reaction == last.reaction ::
                  e.action == Observed && e.thread == last.thread && last.action == Withdrawn)
            && (last.action == Withdrawn ==> exists e <- init :: e.reaction == last.reaction && e.action == Observed)
  {
    var init, last := log[..|log| - 1], log[|log| - 1];
    forall e <- init | e.reaction == last.reaction ensures e.action == Observed && e.thread == last.thread && last.action == Withdrawn {
      var i :| 0 <= i < |init| && init[i] == e;
      assert log[i] == e;
    }
    if last.action == Withdrawn {
      var i :| 0 <= i < |log| - 1 && log[i].reaction == last.reaction;
      assert init[i] == log[i] && init[i] in init;
    }
  }

  lemma ActiveSet(log: Log, thread: ThreadId, id: ReactionId)
    requires Paired(log)
    ensures id in Active(log, thread) <==> IsActive(log, thread, id)
  {
    LatestIsLogged(log, thread, id);
    if IsActive(log, thread, id) { assert Latest(log, thread, id).value in log; }
  }

  // ---------------------------------------------------------------- one synchronisation

  function WithObserved(log: Log, thread: ThreadId, reactions: seq<Reaction>): Log {
    if reactions == [] then log else
      var last := reactions[|reactions| - 1];
      Recorded(WithObserved(log, thread, reactions[..|reactions| - 1]), Entry(thread, last.id, Observed, last.signal))
  }

  function SignalOf(log: Log, thread: ThreadId, id: ReactionId): Signal {
    var e := Latest(log, thread, id);
    if e.Some? then e.value.signal else Positive
  }

  /** Withdraws, in order, the reactions that were active and were not fetched; `before` is the log then. */
  function WithWithdrawn(log: Log, before: Log, thread: ThreadId, ids: seq<ReactionId>): Log {
    if ids == [] then log else
      var id := ids[|ids| - 1];
      Recorded(WithWithdrawn(log, before, thread, ids[..|ids| - 1]), Entry(thread, id, Withdrawn, SignalOf(before, thread, id)))
  }

  function Ids(reactions: seq<Reaction>): set<ReactionId> { set r <- reactions :: r.id }

  function Gone(log: Log, thread: ThreadId, reactions: seq<Reaction>): set<ReactionId> {
    Active(log, thread) - Ids(reactions)
  }

  function Synced(log: Log, thread: ThreadId, reactions: seq<Reaction>): Log {
    WithWithdrawn(WithObserved(log, thread, reactions), log, thread, InOrder(Gone(log, thread, reactions)))
  }

  predicate DistinctIds(reactions: seq<Reaction>) {
    forall i, j | 0 <= i < j < |reactions| :: reactions[i].id != reactions[j].id
  }

  /** Logged for another thread: its events belong there. */
  predicate Foreign(log: Log, thread: ThreadId, id: ReactionId) {
    exists e <- log :: e.reaction == id && e.thread != thread
  }

  lemma RecordingKeepsPairs(log: Log, e: Entry)
    requires Paired(log)
    requires e.action == Withdrawn ==> ObservedOn(log, e.thread, e.reaction)
    requires e.action == Observed && !HasKey(log, e.reaction, Observed) ==> forall d <- log :: d.reaction != e.reaction
    ensures Paired(Recorded(log, e))
  {
    if !HasKey(log, e.reaction, e.action) {
      var later := log + [e];
      forall i, j | 0 <= i < j < |later| && later[i].reaction == later[j].reaction
        ensures later[i].action == Observed && later[j].action == Withdrawn && later[i].thread == later[j].thread
      {
        if j == |log| {
          assert later[i] in log;
          if e.action == Withdrawn {
            var d :| d in log && d.thread == e.thread && d.reaction == e.reaction && d.action == Observed;
            var k :| 0 <= k < |log| && log[k] == d;
          }
        }
      }
      forall j | 0 <= j < |later| && later[j].action == Withdrawn
        ensures exists i :: 0 <= i < j && later[i].reaction == later[j].reaction
      {
        if j == |log| {
          var d :| d in log && d.thread == e.thread && d.reaction == e.reaction && d.action == Observed;
          var k :| 0 <= k < |log| && log[k] == d;
          assert later[k] == d;
        } else {
          var i :| 0 <= i < j && log[i].reaction == log[j].reaction;
          assert later[i] == log[i];
        }
      }
    }
  }

  lemma WithdrawnWasObserved(log: Log, id: ReactionId)
    requires Paired(log)
    ensures !HasKey(log, id, Observed) ==> forall d <- log :: d.reaction != id
  {
    forall d <- log | d.reaction == id && d.action == Withdrawn ensures HasKey(log, id, Observed) {
      var j :| 0 <= j < |log| && log[j] == d;
      var i :| 0 <= i < j && log[i].reaction == log[j].reaction;
      assert log[i] in log;
    }
    assert forall d <- log :: d.action == Observed || d.action == Withdrawn;
  }

  lemma NextRecorded(log: Log, e: Entry, t: ThreadId, id: ReactionId, action: Action)
    ensures HasKey(Recorded(log, e), id, action) <==> HasKey(log, id, action) || (e.reaction == id && e.action == action)
    ensures ObservedOn(Recorded(log, e), t, id)
            <==> (ObservedOn(log, t, id)
                  || (e.thread == t && e.reaction == id && e.action == Observed && !HasKey(log, id, Observed)))
    ensures log <= Recorded(log, e)
  {
    assert e in log + [e];
    assert forall d <- log :: d in log + [e];
    assert forall d <- log + [e] :: d in log || d == e;
  }

  lemma {:induction false} ObservingAdds(log: Log, thread: ThreadId, reactions: seq<Reaction>, t: ThreadId, id: ReactionId)
    requires Paired(log)
    ensures var later := WithObserved(log, thread, reactions);
            && Paired(later) && log <= later
            && (HasKey(later, id, Withdrawn) <==> HasKey(log, id, Withdrawn))
            && (HasKey(later, id, Observed) <==> HasKey(log, id, Observed) || id in Ids(reactions))
            && (ObservedOn(later, t, id)
                <==> ObservedOn(log, t, id) || (t == thread && id in Ids(reactions) && !HasKey(log, id, Observed)))
  {
    if reactions != [] {
      var init, last := reactions[..|reactions| - 1], reactions[|reactions| - 1];
      ObservingAdds(log, thread, init, t, id);
      var before, e := WithObserved(log, thread, init), Entry(thread, last.id, Observed, last.signal);
      WithdrawnWasObserved(before, last.id);
      RecordingKeepsPairs(before, e);
      NextRecorded(before, e, t, id, Withdrawn);
      NextRecorded(before, e, t, id, Observed);
      NextIds(init, last);
      assert reactions == init + [last];
      hide Paired, Recorded, HasKey, ObservedOn;
    }
  }

  lemma NextIds(init: seq<Reaction>, last: Reaction)
    ensures Ids(init + [last]) == Ids(init) + {last.id}
  {
    assert last in init + [last];
    assert forall r <- init :: r in init + [last];
  }

  lemma {:induction false} WithdrawingAdds(log: Log, before: Log, thread: ThreadId, ids: seq<ReactionId>, t: ThreadId, id: ReactionId)
    requires Paired(log) && forall i <- ids :: ObservedOn(log, thread, i)
    ensures var later := WithWithdrawn(log, before, thread, ids);
            && Paired(later) && log <= later
            && (HasKey(later, id, Withdrawn) <==> HasKey(log, id, Withdrawn) || id in ids)
            && (ObservedOn(later, t, id) <==> ObservedOn(log, t, id))
  {
    if ids != [] {
      var init, last := ids[..|ids| - 1], ids[|ids| - 1];
      assert ids == init + [last];
      WithdrawingAdds(log, before, thread, init, t, id);
      var mid, e := WithWithdrawn(log, before, thread, init), Entry(thread, last, Withdrawn, SignalOf(before, thread, last));
      assert ObservedOn(mid, thread, last) by {
        assert last in ids && ObservedOn(log, thread, last);
        var d :| d in log && d.thread == thread && d.reaction == last && d.action == Observed;
        assert d in mid;
      }
      RecordingKeepsPairs(mid, e);
      NextRecorded(mid, e, t, id, Withdrawn);
      hide Paired, Recorded, HasKey, ObservedOn, SignalOf;
    }
  }

  lemma ObservedIsNotForeign(log: Log, thread: ThreadId, id: ReactionId)
    requires Paired(log)
    ensures Foreign(log, thread, id) <==> HasKey(log, id, Observed) && !ObservedOn(log, thread, id)
    ensures forall t | t != thread && ObservedOn(log, t, id) :: !ObservedOn(log, thread, id)
  {
    WithdrawnWasObserved(log, id);
    forall d, e | d in log && e in log && d.reaction == id && e.reaction == id ensures d.thread == e.thread {
      var i :| 0 <= i < |log| && log[i] == d;
      var j :| 0 <= j < |log| && log[j] == e;
      assert i < j || j < i || i == j;
    }
    hide Paired;
  }

  lemma SyncedOf(log: Log, thread: ThreadId, reactions: seq<Reaction>, t: ThreadId, id: ReactionId)
    requires Paired(log)
    ensures var later := Synced(log, thread, reactions);
            && Paired(later) && log <= later
            && (HasKey(later, id, Withdrawn) <==> HasKey(log, id, Withdrawn) || id in Gone(log, thread, reactions))
            && (ObservedOn(later, t, id)
                <==> ObservedOn(log, t, id) || (t == thread && id in Ids(reactions) && !HasKey(log, id, Observed)))
  {
    var mid, gone := WithObserved(log, thread, reactions), Gone(log, thread, reactions);
    ObservingAdds(log, thread, reactions, t, id);
    forall i <- InOrder(gone) ensures ObservedOn(mid, thread, i) {
      ActiveSet(log, thread, i);
      ActiveMeans(log, thread, i);
      ObservingAdds(log, thread, reactions, thread, i);
    }
    hide Paired, HasKey, ObservedOn, Gone;
    WithdrawingAdds(mid, log, thread, InOrder(gone), t, id);
  }

  /** After a synchronisation the active reactions are exactly those fetched, never withdrawn before and not foreign. */
  lemma SyncShowsWhatWasFetched(log: Log, thread: ThreadId, reactions: seq<Reaction>, id: ReactionId)
    requires Paired(log)
    ensures Paired(Synced(log, thread, reactions))
    ensures id in Active(Synced(log, thread, reactions), thread)
            <==> id in Ids(reactions) && !HasKey(log, id, Withdrawn) && !Foreign(log, thread, id)
  {
    var later := Synced(log, thread, reactions);
    SyncedOf(log, thread, reactions, thread, id);
    hide Paired, Synced, HasKey, ObservedOn, Foreign, Active, IsActive;
    ActiveSet(later, thread, id);
    ActiveMeans(later, thread, id);
    ActiveSet(log, thread, id);
    ActiveMeans(log, thread, id);
    ObservedIsNotForeign(log, thread, id);
    WithdrawnWasObserved(log, id);
    WithdrawnNeedsObserved(log, id);
  }

  lemma WithdrawnNeedsObserved(log: Log, id: ReactionId)
    requires Paired(log)
    ensures HasKey(log, id, Withdrawn) ==> HasKey(log, id, Observed)
  {
    WithdrawnWasObserved(log, id);
  }

  /** The projection is the fetched set exactly when no fetched reaction was withdrawn before or belongs elsewhere. */
  lemma ProjectionIsFetchedSet(log: Log, thread: ThreadId, reactions: seq<Reaction>)
    requires Paired(log)
    ensures Active(Synced(log, thread, reactions), thread) == Ids(reactions)
            <==> forall id <- Ids(reactions) :: !HasKey(log, id, Withdrawn) && !Foreign(log, thread, id)
  {
    forall id
      ensures id in Active(Synced(log, thread, reactions), thread)
              <==> id in Ids(reactions) && !HasKey(log, id, Withdrawn) && !Foreign(log, thread, id)
    {
      SyncShowsWhatWasFetched(log, thread, reactions, id);
    }
    hide Active, Synced, HasKey, Foreign, Ids;
  }

  /** Other threads keep their projection. */
  lemma OtherThreadsAreUnaffected(log: Log, thread: ThreadId, reactions: seq<Reaction>, t: ThreadId)
    requires Paired(log) && t != thread
    ensures Active(Synced(log, thread, reactions), t) == Active(log, t)
  {
    var later := Synced(log, thread, reactions);
    forall id ensures id in Active(later, t) <==> id in Active(log, t) {
      SyncedOf(log, thread, reactions, t, id);
      hide Paired, Synced, HasKey, ObservedOn, Active, IsActive;
      ActiveSet(later, t, id);
      ActiveMeans(later, t, id);
      ActiveSet(log, t, id);
      ActiveMeans(log, t, id);
      ActiveSet(log, thread, id);
      ActiveMeans(log, thread, id);
      ObservedIsNotForeign(log, thread, id);
      ObservedIsNotForeign(log, t, id);
    }
  }

  lemma {:induction false} ObservingAgainAddsNothing(log: Log, thread: ThreadId, reactions: seq<Reaction>)
    requires forall r <- reactions :: HasKey(log, r.id, Observed)
    ensures WithObserved(log, thread, reactions) == log
  {
    if reactions != [] {
      assert reactions == reactions[..|reactions| - 1] + [reactions[|reactions| - 1]];
      ObservingAgainAddsNothing(log, thread, reactions[..|reactions| - 1]);
    }
  }

  /** Synchronising again with the same reactions appends nothing. */
  lemma SecondSyncAppendsNothing(log: Log, thread: ThreadId, reactions: seq<Reaction>)
    requires Paired(log)
    ensures var later := Synced(log, thread, reactions); Synced(later, thread, reactions) == later
  {
    var later := Synced(log, thread, reactions);
    forall r <- reactions ensures HasKey(later, r.id, Observed) {
      ObservingAdds(log, thread, reactions, thread, r.id);
      SyncedKeepsObserved(log, thread, reactions, r.id);
    }
    ObservingAgainAddsNothing(later, thread, reactions);
    forall id ensures id !in Gone(later, thread, reactions) {
      SyncShowsWhatWasFetched(log, thread, reactions, id);
    }
    assert Gone(later, thread, reactions) == {};
    hide Gone;
    assert InOrder({}) == [];
  }

  lemma SyncedKeepsObserved(log: Log, thread: ThreadId, reactions: seq<Reaction>, id: ReactionId)
    requires Paired(log) && HasKey(WithObserved(log, thread, reactions), id, Observed)
    ensures HasKey(Synced(log, thread, reactions), id, Observed)
  {
    var mid := WithObserved(log, thread, reactions);
    var e :| e in mid && e.reaction == id && e.action == Observed;
    WithdrawingOnlyAppends(mid, log, thread, InOrder(Gone(log, thread, reactions)));
    assert e in Synced(log, thread, reactions);
  }

  lemma {:induction false} WithdrawingOnlyAppends(log: Log, before: Log, thread: ThreadId, ids: seq<ReactionId>)
    ensures log <= WithWithdrawn(log, before, thread, ids)
  {
    if ids != [] { WithdrawingOnlyAppends(log, before, thread, ids[..|ids| - 1]); }
  }

  // ---------------------------------------------------------------- the counts that are returned

  function CountOf(reactions: seq<Reaction>, signal: Signal): nat {
    if reactions == [] then 0 else
      CountOf(reactions[..|reactions| - 1], signal) + (if reactions[|reactions| - 1].signal == signal then 1 else 0)
  }

  /** The projection's count: the active reactions logged with a signal. */
  function ActiveWith(log: Log, thread: ThreadId, signal: Signal): set<ReactionId> {
    set id <- Active(log, thread) | SignalOf(log, thread, id) == signal
  }

  function IdsWith(reactions: seq<Reaction>, signal: Signal): set<ReactionId> {
    set r <- reactions | r.signal == signal :: r.id
  }

  lemma NextIdsWith(init: seq<Reaction>, last: Reaction, signal: Signal)
    requires last.id !in Ids(init)
    ensures IdsWith(init + [last], signal) == IdsWith(init, signal) + (if last.signal == signal then {last.id} else {})
    ensures last.id !in IdsWith(init, signal)
  {
    var all := init + [last];
    assert last in all && forall r <- init :: r in all;
    assert forall r <- all :: r in init || r == last;
    assert forall id <- IdsWith(init, signal) :: id in Ids(init);
  }

  lemma DistinctInit(reactions: seq<Reaction>)
    requires DistinctIds(reactions) && reactions != []
    ensures DistinctIds(reactions[..|reactions| - 1])
    ensures reactions[|reactions| - 1].id !in Ids(reactions[..|reactions| - 1])
  {
    assert forall r <- reactions[..|reactions| - 1] :: r.id != reactions[|reactions| - 1].id;
  }

  lemma {:induction false} CountIsIdsWith(reactions: seq<Reaction>, signal: Signal)
    requires DistinctIds(reactions)
    ensures |IdsWith(reactions, signal)| == CountOf(reactions, signal)
  {
    if reactions != [] {
      var init, last := reactions[..|reactions| - 1], reactions[|reactions| - 1];
      DistinctInit(reactions);
      CountIsIdsWith(init, signal);
      assert reactions == init + [last];
      hide IdsWith, Ids, DistinctIds;
      NextIdsWith(init, last, signal);
    }
  }

  lemma {:induction false} LatestStays(log: Log, later: Log, thread: ThreadId, id: ReactionId)
    requires log <= later && forall i | |log| <= i < |later| :: later[i].thread != thread || later[i].reaction != id
    ensures Latest(later, thread, id) == Latest(log, thread, id)
    decreases |later|
  {
    if |later| == |log| {
      assert later == log;
    } else {
      LatestStays(log, later[..|later| - 1], thread, id);
    }
  }

  /** The log of a fetched reaction that was not logged before carries its signal. */
  lemma {:induction false} ObservedCarriesSignal(log: Log, thread: ThreadId, reactions: seq<Reaction>, k: nat)
    requires DistinctIds(reactions) && k < |reactions|
    ensures var r := reactions[k];
            Latest(WithObserved(log, thread, reactions), thread, r.id)
            == if HasKey(log, r.id, Observed) then Latest(log, thread, r.id)
               else Some(Entry(thread, r.id, Observed, r.signal))
  {
    var n := |reactions| - 1;
    var init, last := reactions[..n], reactions[n];
    var before, e := WithObserved(log, thread, init), Entry(thread, last.id, Observed, last.signal);
    assert last.id !in Ids(init) by { assert forall r <- init :: r.id != last.id; }
    OthersUntouched(log, thread, init, last.id);
    if k < n {
      ObservedCarriesSignal(log, thread, init, k);
      assert init[k] == reactions[k];
      if !HasKey(before, last.id, Observed) { LatestStays(before, before + [e], thread, reactions[k].id); }
    }
  }

  lemma {:induction false} OthersUntouched(log: Log, thread: ThreadId, reactions: seq<Reaction>, id: ReactionId)
    requires id !in Ids(reactions)
    ensures var later := WithObserved(log, thread, reactions);
            && Latest(later, thread, id) == Latest(log, thread, id)
            && (HasKey(later, id, Observed) <==> HasKey(log, id, Observed))
  {
    if reactions != [] {
      var init, last := reactions[..|reactions| - 1], reactions[|reactions| - 1];
      assert reactions == init + [last];
      NextIds(init, last);
      OthersUntouched(log, thread, init, id);
      var before, e := WithObserved(log, thread, init), Entry(thread, last.id, Observed, last.signal);
      NextRecorded(before, e, thread, id, Observed);
      if !HasKey(before, last.id, Observed) { LatestStays(before, before + [e], thread, id); }
    }
  }

  /** What the log knew of a fetched reaction agrees with what was fetched. */
  predicate AsLogged(log: Log, thread: ThreadId, r: Reaction) {
    && !HasKey(log, r.id, Withdrawn) && !Foreign(log, thread, r.id)
    && (HasKey(log, r.id, Observed) ==> SignalOf(log, thread, r.id) == r.signal)
  }

  lemma {:induction false} WithdrawingLeavesFetched(log: Log, before: Log, thread: ThreadId, ids: seq<ReactionId>, id: ReactionId)
    requires id !in ids
    ensures Latest(WithWithdrawn(log, before, thread, ids), thread, id) == Latest(log, thread, id)
  {
    if ids != [] {
      var init, last := ids[..|ids| - 1], ids[|ids| - 1];
      assert ids == init + [last];
      WithdrawingLeavesFetched(log, before, thread, init, id);
      var mid, e := WithWithdrawn(log, before, thread, init), Entry(thread, last, Withdrawn, SignalOf(before, thread, last));
      if !HasKey(mid, last, Withdrawn) { LatestStays(mid, mid + [e], thread, id); }
    }
  }

  /** The counts returned by a synchronisation are those of the projection it leaves. */
  lemma CountsAgree(log: Log, thread: ThreadId, reactions: seq<Reaction>, signal: Signal)
    requires Paired(log) && DistinctIds(reactions) && forall r <- reactions :: AsLogged(log, thread, r)
    ensures |ActiveWith(Synced(log, thread, reactions), thread, signal)| == CountOf(reactions, signal)
  {
    var later := Synced(log, thread, reactions);
    ProjectionIsFetchedSet(log, thread, reactions);
    assert forall r <- reactions :: AsLogged(log, thread, r);
    forall k | 0 <= k < |reactions| ensures SignalOf(later, thread, reactions[k].id) == reactions[k].signal {
      var r := reactions[k];
      assert AsLogged(log, thread, r);
      ObservedCarriesSignal(log, thread, reactions, k);
      assert r.id !in InOrder(Gone(log, thread, reactions)) by { assert r in reactions; }
      WithdrawingLeavesFetched(WithObserved(log, thread, reactions), log, thread, InOrder(Gone(log, thread, reactions)), r.id);
    }
    hide Synced, Active, AsLogged, SignalOf, Paired;
    assert ActiveWith(later, thread, signal) == IdsWith(reactions, signal) by {
      forall id <- Ids(reactions) ensures id in ActiveWith(later, thread, signal) <==> id in IdsWith(reactions, signal) {
        var r :| r in reactions && r.id == id;
        var k :| 0 <= k < |reactions| && reactions[k] == r;
        forall q <- reactions | q.id == id ensures q == r {
          var j :| 0 <= j < |reactions| && reactions[j] == q;
        }
      }
    }
    CountIsIdsWith(reactions, signal);
  }

  lemma SplitBySignal(log: Log, thread: ThreadId)
    ensures |ActiveWith(log, thread, Positive)| + |ActiveWith(log, thread, Negative)| == |Active(log, thread)|
  {
    var positive, negative := ActiveWith(log, thread, Positive), ActiveWith(log, thread, Negative);
    hide Active;
    assert Active(log, thread) == positive + negative && positive !! negative;
  }

  lemma {:induction false} EverySignalCounts(reactions: seq<Reaction>)
    ensures CountOf(reactions, Positive) + CountOf(reactions, Negative) == |reactions|
  {
    if reactions != [] { EverySignalCounts(reactions[..|reactions| - 1]); }
  }

  lemma {:induction false} AsManyIds(reactions: seq<Reaction>)
    requires DistinctIds(reactions)
    ensures |Ids(reactions)| == |reactions|
  {
    if reactions != [] {
      var init, last := reactions[..|reactions| - 1], reactions[|reactions| - 1];
      DistinctInit(reactions);
      AsManyIds(init);
      assert reactions == init + [last];
      NextIds(init, last);
      hide DistinctIds;
    }
  }

  /** The total returned is the projection's exactly when no fetched reaction was withdrawn before or is another thread's. */
  lemma TotalAgreesExactly(log: Log, thread: ThreadId, reactions: seq<Reaction>)
    requires Paired(log) && DistinctIds(reactions)
    ensures var later := Synced(log, thread, reactions);
            |ActiveWith(later, thread, Positive)| + |ActiveWith(later, thread, Negative)|
            == CountOf(reactions, Positive) + CountOf(reactions, Negative)
            <==> forall id <- Ids(reactions) :: !HasKey(log, id, Withdrawn) && !Foreign(log, thread, id)
  {
    var later := Synced(log, thread, reactions);
    SplitBySignal(later, thread);
    EverySignalCounts(reactions);
    AsManyIds(reactions);
    ProjectionIsFetchedSet(log, thread, reactions);
    hide Synced, Active, ActiveWith, CountOf, Paired, DistinctIds, Ids, HasKey, Foreign;
    forall id <- Active(later, thread) ensures id in Ids(reactions) { SyncShowsWhatWasFetched(log, thread, reactions, id); }
    Rows.SmallerSet(Active(later, thread), Ids(reactions));
  }

  /** Fetched, gone, and fetched again: a reaction that was once withdrawn does not come back. */
  lemma WithdrawnStaysAway(thread: ThreadId, r: Reaction)
    ensures var once := Synced([], thread, [r]);
            var gone := Synced(once, thread, []);
            var again := Synced(gone, thread, [r]);
            Paired(gone) && HasKey(gone, r.id, Withdrawn) && Active(once, thread) == {r.id} && Active(again, thread) == {}
  {
    var once, empty := Synced([], thread, [r]), Ids([]);
    var gone := Synced(once, thread, []);
    assert Paired([]) && Ids([r]) == {r.id} && empty == {};
    ProjectionIsFetchedSet([], thread, [r]);
    SyncShowsWhatWasFetched([], thread, [r], r.id);
    WithdrawalIsLogged(once, thread, r.id);
    hide Synced, Paired, HasKey, Ids, Foreign, Active;
    forall id ensures id !in Active(Synced(gone, thread, [r]), thread) { SyncShowsWhatWasFetched(gone, thread, [r], id); }
  }

  lemma WithdrawalIsLogged(log: Log, thread: ThreadId, id: ReactionId)
    requires Paired(log) && Active(log, thread) == {id}
    ensures Paired(Synced(log, thread, [])) && HasKey(Synced(log, thread, []), id, Withdrawn)
  {
    hide Synced, Paired, HasKey, ObservedOn, Active;
    SyncedOf(log, thread, [], thread, id);
  }

  // ---------------------------------------------------------------- every run of synchronisations

  /** One synchronisation that went through. */
  datatype Sync = Sync(thread: ThreadId, reactions: seq<Reaction>)

  function AfterSyncs(syncs: seq<Sync>): Log {
    if syncs == [] then [] else
      var last := syncs[|syncs| - 1];
      Synced(AfterSyncs(syncs[..|syncs| - 1]), last.thread, last.reactions)
  }

  predicate Fetches(sync: Sync, id: ReactionId) { id in Ids(sync.reactions) }

  /** No synchronisation of any thread fetched the reaction before this one. */
  predicate FirstFetch(syncs: seq<Sync>, i: nat, id: ReactionId) {
    i < |syncs| && Fetches(syncs[i], id) && forall k | 0 <= k < i :: !Fetches(syncs[k], id)
  }

  /** From its first fetch on, the thread that made it fetched the reaction every time. */
  predicate HeldSince(syncs: seq<Sync>, i: nat, thread: ThreadId, id: ReactionId) {
    && FirstFetch(syncs, i, id) && syncs[i].thread == thread
    && forall k | i < k < |syncs| && syncs[k].thread == thread :: Fetches(syncs[k], id)
  }

  lemma ObservedAfterSync(log: Log, thread: ThreadId, reactions: seq<Reaction>, id: ReactionId)
    requires Paired(log)
    ensures HasKey(Synced(log, thread, reactions), id, Observed) <==> HasKey(log, id, Observed) || id in Ids(reactions)
  {
    var later := Synced(log, thread, reactions);
    SyncedOf(log, thread, reactions, thread, id);
    hide Synced, Paired, Ids;
    if HasKey(log, id, Observed) {
      var e :| e in log && e.reaction == id && e.action == Observed;
      assert e in later;
    }
    if HasKey(later, id, Observed) {
      var e :| e in later && e.reaction == id && e.action == Observed;
      SyncedOf(log, thread, reactions, e.thread, id);
    }
  }

  /** A reaction the thread can show: it is shown already, or was never logged at all. */
  lemma ShowableIsShownOrNew(log: Log, thread: ThreadId, id: ReactionId)
    requires Paired(log)
    ensures !HasKey(log, id, Withdrawn) && !Foreign(log, thread, id)
            <==> id in Active(log, thread) || !HasKey(log, id, Observed)
  {
    ActiveSet(log, thread, id);
    ActiveMeans(log, thread, id);
    ObservedIsNotForeign(log, thread, id);
    WithdrawnNeedsObserved(log, id);
    hide Paired, HasKey, Foreign, ObservedOn, Active, IsActive;
  }

  lemma {:induction false} SyncsKeepPairs(syncs: seq<Sync>, id: ReactionId)
    ensures Paired(AfterSyncs(syncs))
    ensures HasKey(AfterSyncs(syncs), id, Observed) <==> exists k :: 0 <= k < |syncs| && Fetches(syncs[k], id)
  {
    if syncs != [] {
      var init, last := syncs[..|syncs| - 1], syncs[|syncs| - 1];
      assert syncs == init + [last];
      SyncsKeepPairs(init, id);
      hide Synced, Paired, HasKey, Ids;
      SyncShowsWhatWasFetched(AfterSyncs(init), last.thread, last.reactions, id);
      ObservedAfterSync(AfterSyncs(init), last.thread, last.reactions, id);
    }
  }

  lemma NextFirst(init: seq<Sync>, last: Sync, i: nat, id: ReactionId)
    ensures FirstFetch(init + [last], i, id)
            <==> FirstFetch(init, i, id) || (i == |init| && Fetches(last, id) && forall k | 0 <= k < |init| :: !Fetches(init[k], id))
  {
    var all := init + [last];
    assert forall k | 0 <= k < |init| :: all[k] == init[k];
    hide Fetches;
  }

  lemma NextHeld(init: seq<Sync>, last: Sync, i: nat, thread: ThreadId, id: ReactionId)
    ensures HeldSince(init + [last], i, thread, id)
            <==> (i < |init| && HeldSince(init, i, thread, id) && (last.thread == thread ==> Fetches(last, id)))
                 || (i == |init| && last.thread == thread && FirstFetch(init + [last], i, id))
  {
    var all := init + [last];
    NextFirst(init, last, i, id);
    assert all[|init|] == last && forall k | 0 <= k < |init| :: all[k] == init[k];
    hide Fetches;
  }

  ghost predicate Held(syncs: seq<Sync>, thread: ThreadId, id: ReactionId) { exists i: nat :: HeldSince(syncs, i, thread, id) }

  predicate EverFetched(syncs: seq<Sync>, id: ReactionId) { exists k :: 0 <= k < |syncs| && Fetches(syncs[k], id) }

  lemma HeldAfterOneMore(init: seq<Sync>, last: Sync, thread: ThreadId, id: ReactionId)
    ensures Held(init + [last], thread, id)
            <==> if last.thread == thread then Fetches(last, id) && (Held(init, thread, id) || !EverFetched(init, id))
                 else Held(init, thread, id)
  {
    var all := init + [last];
    forall i: nat
      ensures HeldSince(all, i, thread, id)
              <==> (i < |init| && HeldSince(init, i, thread, id) && (last.thread == thread ==> Fetches(last, id)))
                   || (i == |init| && last.thread == thread && Fetches(last, id) && !EverFetched(init, id))
    {
      NextHeld(init, last, i, thread, id);
      NextFirst(init, last, i, id);
    }
    assert forall i: nat | HeldSince(init, i, thread, id) :: i < |init|;
    hide HeldSince, Fetches, EverFetched;
    if Held(init, thread, id) { var i: nat :| HeldSince(init, i, thread, id); }
    assert HeldSince(all, |init|, thread, id) ==> Held(all, thread, id);
  }

  /**
   * After any run of synchronisations, of any threads: a reaction is active on a thread exactly when that
   * thread was the first to fetch it and every later synchronisation of the thread fetched it again.
   */
  lemma {:induction false} ActiveMeansHeldSinceFirstFetch(syncs: seq<Sync>, thread: ThreadId, id: ReactionId)
    ensures id in Active(AfterSyncs(syncs), thread) <==> exists i: nat :: HeldSince(syncs, i, thread, id)
  {
    if syncs != [] {
      var init, last := syncs[..|syncs| - 1], syncs[|syncs| - 1];
      var log := AfterSyncs(init);
      assert syncs == init + [last] && AfterSyncs(syncs) == Synced(log, last.thread, last.reactions);
      hide AfterSyncs, Synced, Paired, HasKey, Active, Foreign, HeldSince, Ids;
      ActiveMeansHeldSinceFirstFetch(init, thread, id);
      SyncsKeepPairs(init, id);
      HeldAfterOneMore(init, last, thread, id);
      if last.thread == thread {
        SyncShowsWhatWasFetched(log, thread, last.reactions, id);
        ShowableIsShownOrNew(log, thread, id);
      } else {
        OtherThreadsAreUnaffected(log, last.thread, last.reactions, thread);
      }
      assert Held(syncs, thread, id) <==> id in Active(AfterSyncs(syncs), thread);
    }
  }

  // ---------------------------------------------------------------- the store

  class FeedbackStore {
    var log: Log
    var generations: map<ThreadId, nat>

    constructor (generations: map<ThreadId, nat>)
      ensures log == [] && Paired(log) && this.generations == generations
    {
      log, this.generations := [], generations;
    }

    method Record(e: Entry) returns (inserted: nat)
      modifies this`log
      ensures log == Recorded(old(log), e) && |log| == |old(log)| + inserted
      ensures HasKey(log, e.reaction, e.action) && Recorded(log, e) == log
      ensures inserted == if HasKey(old(log), e.reaction, e.action) then 0 else 1
      ensures forall id: ReactionId, action | (id, action) != (e.reaction, e.action) :: HasKey(log, id, action) <==> HasKey(old(log), id, action)
    {
      assert e in old(log) + [e];
      if HasKey(log, e.reaction, e.action) { return 0; }
      log := log + [e];
      return 1;
    }

    method ObserveAll(thread: ThreadId, reactions: seq<Reaction>) returns (observed: nat)
      modifies this`log
      ensures log == WithObserved(old(log), thread, reactions) && observed == |log| - |old(log)|
    {
      observed := 0;
      for i := 0 to |reactions|
        invariant log == WithObserved(old(log), thread, reactions[..i]) && observed == |log| - |old(log)|
      {
        assert reactions[..i + 1][..i] == reactions[..i];
        var inserted := Record(Entry(thread, reactions[i].id, Observed, reactions[i].signal));
        observed := observed + inserted;
      }
      assert reactions[..|reactions|] == reactions;
    }

    method WithdrawAll(before: Log, thread: ThreadId, gone: seq<ReactionId>) returns (withdrawn: nat)
      modifies this`log
      ensures log == WithWithdrawn(old(log), before, thread, gone) && withdrawn == |log| - |old(log)|
    {
      withdrawn := 0;
      for i := 0 to |gone|
        invariant log == WithWithdrawn(old(log), before, thread, gone[..i]) && withdrawn == |log| - |old(log)|
      {
        assert gone[..i + 1][..i] == gone[..i];
        var inserted := Record(Entry(thread, gone[i], Withdrawn, SignalOf(before, thread, gone[i])));
        withdrawn := withdrawn + inserted;
      }
      assert gone[..|gone|] == gone;
    }

    /** Appends what is new and what is gone, unless another synchronisation has begun meanwhile. */
    method ReconcileReviewReactions(thread: ThreadId, generation: nat, reactions: seq<Reaction>)
      returns (ok: bool, observed: nat, withdrawn: nat)
      requires Paired(log)
      modifies this`log
      ensures Paired(log)
      ensures ok <==> DistinctIds(reactions) && thread in generations && generations[thread] == generation
      ensures log == if ok then Synced(old(log), thread, reactions) else old(log)
      ensures ok ==> observed + withdrawn == |log| - |old(log)|
                     && observed == |WithObserved(old(log), thread, reactions)| - |old(log)|
    {
      ok, observed, withdrawn := false, 0, 0;
      if !DistinctIds(reactions) { return; }
      var saved := log;
      SyncedOf(saved, thread, reactions, thread, 0);
      hide Paired, HasKey, ObservedOn, WithObserved, WithWithdrawn;
      observed := ObserveAll(thread, reactions);
      withdrawn := WithdrawAll(saved, thread, InOrder(Gone(saved, thread, reactions)));
      if thread !in generations || generations[thread] != generation {
        log := saved;
        return;
      }
      ok := true;
    }
  }
}
