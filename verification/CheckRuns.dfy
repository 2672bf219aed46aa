/** One check run's durable row, and the workers that create and complete it concurrently. */
module CheckRuns {
  import opened Wrappers
  import Rows

  const MAX_COMPLETION_ATTEMPTS := 8

  type WorkerId = nat

  datatype Status = Pending | Creating | InProgress | Completing | Completed | Failed

  datatype Conclusion = Cancelled | Failure | Neutral | Skipped | Success

  datatype Row = Row(status: Status, externalId: Option<string>, conclusion: Option<Conclusion>, error: Option<string>,
                     attempts: nat)

  const INSERTED := Row(Pending, None, None, None, 0)

  // ---------------------------------------------------------------- the guarded updates of the row

  /** Every update but the last leaves a completed row alone. */
  function Begun(row: Row): Row {
    if row.status == Completed then row else row.(status := Creating, error := None)
  }

  function StartedWith(row: Row, externalId: string): Option<Row> {
    if (row.status in {Creating, InProgress} || (row.status == Failed && row.externalId == None))
       && (row.externalId == None || row.externalId == Some(externalId))
    then Some(row.(status := InProgress, externalId := Some(externalId), error := None))
    else None
  }

  function Attempted(row: Row): (Row, Option<nat>) {
    if row.status == Completed then (row, None) else (row.(attempts := row.attempts + 1), Some(row.attempts + 1))
  }

  function MarkedCompleting(row: Row): Option<Row> {
    if row.status in {Creating, InProgress, Completing, Failed} && row.externalId.Some?
    then Some(row.(status := Completing, error := None)) else None
  }

  function MarkedCompleted(row: Row, conclusion: Conclusion): Option<Row> {
    if row.status in {InProgress, Completing, Failed} && row.externalId.Some?
    then Some(row.(status := Completed, conclusion := Some(conclusion), error := None)) else None
  }

  function MarkedFailed(row: Row, error: string): Row {
    if row.status == Completed then row else row.(status := Failed, conclusion := None, error := Some(error))
  }

  /** A conclusion is set exactly on completed rows, and those have an external id; an error exactly on failed ones. */
  predicate RowSound(row: Row) {
    && (row.conclusion.Some? <==> row.status == Completed) && (row.status == Completed ==> row.externalId.Some?)
    && (row.error.Some? <==> row.status == Failed)
  }

  /** Where a status may go in one update; a failed row can be taken up at every later stage. */
  predicate StatusMoves(before: Status, later: Status) {
    later == before
    || match before
       case Pending => later in {Creating, Failed}
       case Creating => later in {InProgress, Completing, Failed}
       case InProgress => later in {Creating, Completing, Completed, Failed}
       case Completing => later in {Creating, Completed, Failed}
       case Failed => later in {Creating, InProgress, Completing, Completed}
       case Completed => false
  }

  /** Completion is final, an external id is written once, and attempts are only counted up. */
  predicate RowFollows(row: Row, later: Row) {
    && (row.status == Completed ==> later == row)
    && (row.externalId.Some? ==> later.externalId == row.externalId)
    && row.attempts <= later.attempts
  }

  /** What every update of a row keeps. */
  predicate Advances(row: Row, later: Row) { RowFollows(row, later) && (RowSound(row) ==> RowSound(later)) }

  // ---------------------------------------------------------------- workers

  /** Where a worker stands; `ticket` is the attempt it counted, `id` the external id it believes in. */
  datatype Place =
    | Ensuring
    | Ensured(id: string)
    | Holding(completed: bool, known: Option<string>)
    | Counted(ticket: nat, known: Option<string>)
    | Found(ticket: nat, id: string)
    | Resolved(ticket: nat, id: string)
    | Calling(ticket: nat, id: string)
    | Returned(ticket: nat, id: string, ok: bool)
    | Done

  predicate Ticketed(place: Place) { place.Counted? || place.Found? || place.Resolved? || place.Calling? || place.Returned? }

  datatype Call = Call(ticket: nat, id: string)

  /** `calls` are the completion requests sent to the provider. */
  datatype State = State(row: Row, workers: map<WorkerId, Place>, calls: seq<Call>)

  datatype Step =
    | Ensure(w: WorkerId)
    | Publish(w: WorkerId, published: Option<string>)
    | Start(w: WorkerId)
    | Read(w: WorkerId)
    | Count(w: WorkerId)
    | Look(w: WorkerId, published: Option<string>)
    | Restart(w: WorkerId)
    | Complete(w: WorkerId)
    | Send(w: WorkerId, ok: bool)
    | Settle(w: WorkerId, conclusion: Conclusion)
    | SweepFails(error: string)

  function At(s: State, w: WorkerId, place: Place): State { s.(workers := s.workers[w := place]) }

  function WithRow(s: State, row: Row): State { s.(row := row) }

  /** One step of one worker; a step of a worker that is not at the right place does nothing. */
  function After(s: State, step: Step): State {
    if step.SweepFails? then WithRow(s, MarkedFailed(s.row, step.error)) else
      var w := step.w;
      var place := if w in s.workers then s.workers[w] else Done;
      match step
      case Ensure(_) =>
        if s.row.status == Completed then At(s, w, Holding(true, s.row.externalId))
        else At(WithRow(s, Begun(s.row)), w, Ensuring)
      case Publish(_, published) =>
        if !place.Ensuring? then s
        else if published.None? then At(WithRow(s, MarkedFailed(s.row, "check_run_publication_failed")), w, Done)
        else At(s, w, Ensured(published.value))
      case Start(_) =>
        if !place.Ensured? then s else
          (match StartedWith(s.row, place.id)
           case Some(row) => At(WithRow(s, row), w, Holding(false, Some(place.id)))
           case None => At(WithRow(s, MarkedFailed(s.row, "check_run_publication_failed")), w, Done))
      case Read(_) => At(s, w, Holding(s.row.status == Completed, s.row.externalId))
      case Count(_) =>
        if !place.Holding? then s
        else if place.completed then At(s, w, Done)
        else
          var (row, ticket) := Attempted(s.row);
          if ticket.None? then At(s, w, Done)
          else if ticket.value > MAX_COMPLETION_ATTEMPTS
          then At(WithRow(s, MarkedFailed(row, "check_run_completion_exhausted")), w, Done)
          else if place.known.Some? then At(WithRow(s, row), w, Resolved(ticket.value, place.known.value))
          else At(WithRow(s, row), w, Counted(ticket.value, None))
      case Look(_, published) =>
        if !place.Counted? then s
        else if published.None? then At(WithRow(s, MarkedFailed(s.row, "check_run_publication_failed")), w, Done)
        else At(s, w, Found(place.ticket, published.value))
      case Restart(_) =>
        if !place.Found? then s else
          (match StartedWith(s.row, place.id)
           case Some(row) => At(WithRow(s, row), w, Resolved(place.ticket, place.id))
           case None => At(WithRow(s, MarkedFailed(s.row, "check_run_publication_failed")), w, Done))
      case Complete(_) =>
        if !place.Resolved? then s else
          (match MarkedCompleting(s.row)
           case Some(row) => At(WithRow(s, row), w, Calling(place.ticket, place.id))
           case None => At(s, w, Done))
      case Send(_, ok) =>
        if !place.Calling? then s
        else At(s, w, Returned(place.ticket, place.id, ok)).(calls := s.calls + [Call(place.ticket, place.id)])
      case Settle(_, conclusion) =>
        if !place.Returned? then s
        else if !place.ok then At(WithRow(s, MarkedFailed(s.row, "check_run_publication_failed")), w, Done)
        else
          match MarkedCompleted(s.row, conclusion)
          case Some(row) => At(WithRow(s, row), w, Done)
          case None => At(s, w, Done)
  }

  // ---------------------------------------------------------------- what every interleaving keeps

  /** Tickets are counted by the row, and each is held by one worker or spent by one call. */
  predicate TicketsSound(s: State) {
    && (forall w <- s.workers | Ticketed(s.workers[w]) ::
          1 <= s.workers[w].ticket <= MAX_COMPLETION_ATTEMPTS && s.workers[w].ticket <= s.row.attempts)
    && (forall v, w | v in s.workers && w in s.workers && v != w && Ticketed(s.workers[v]) && Ticketed(s.workers[w]) ::
          s.workers[v].ticket != s.workers[w].ticket)
    && (forall c <- s.calls :: 1 <= c.ticket <= MAX_COMPLETION_ATTEMPTS && c.ticket <= s.row.attempts)
    && (forall w <- s.workers, c <- s.calls | Ticketed(s.workers[w]) && !s.workers[w].Returned? ::
          s.workers[w].ticket != c.ticket)
    && (forall i, j | 0 <= i < j < |s.calls| :: s.calls[i].ticket != s.calls[j].ticket)
  }

  /** Whatever id a worker is about to complete is the one the row will have. */
  predicate Believes(place: Place, id: Option<string>) {
    match place
    case Holding(completed, known) => known.Some? ==> id == known
    case Resolved(_, believed) => id == Some(believed)
    case Calling(_, believed) => id == Some(believed)
    case Returned(_, believed, _) => id == Some(believed)
    case _ => true
  }

  /** Whatever id a worker will complete is the row's. */
  predicate IdsSound(s: State) {
    && (forall w <- s.workers :: Believes(s.workers[w], s.row.externalId))
    && (forall c <- s.calls :: s.row.externalId == Some(c.id))
  }

  predicate Sound(s: State) { RowSound(s.row) && TicketsSound(s) && IdsSound(s) }

  lemma RowUpdatesFollow(row: Row, externalId: string, conclusion: Conclusion, error: string)
    requires RowSound(row)
    ensures RowSound(Begun(row)) && RowFollows(row, Begun(row))
    ensures var r := StartedWith(row, externalId);
            r.Some? ==> RowSound(r.value) && RowFollows(row, r.value) && r.value.externalId == Some(externalId)
    ensures RowSound(Attempted(row).0) && RowFollows(row, Attempted(row).0)
    ensures var r := MarkedCompleting(row); r.Some? ==> RowSound(r.value) && RowFollows(row, r.value)
    ensures var r := MarkedCompleted(row, conclusion); r.Some? ==> RowSound(r.value) && RowFollows(row, r.value)
    ensures RowSound(MarkedFailed(row, error)) && RowFollows(row, MarkedFailed(row, error))
  {
  }

  lemma StepRow(s: State, step: Step)
    requires Sound(s)
    ensures RowSound(After(s, step).row) && RowFollows(s.row, After(s, step).row)
    ensures StatusMoves(s.row.status, After(s, step).row.status)
  {
    hide TicketsSound, IdsSound;
  }

  /** Moving on keeps the worker's ticket or gives it up. */
  lemma MovingKeepsTickets(s: State, w: WorkerId, place: Place, row: Row)
    requires TicketsSound(s) && s.row.attempts <= row.attempts
    requires Ticketed(place) ==> w in s.workers && Ticketed(s.workers[w]) && place.ticket == s.workers[w].ticket
                                 && place.Returned? == s.workers[w].Returned?
    ensures TicketsSound(At(WithRow(s, row), w, place))
  {
  }

  lemma CountingKeepsTickets(s: State, w: WorkerId, place: Place)
    requires TicketsSound(s) && s.row.attempts < MAX_COMPLETION_ATTEMPTS
    requires Ticketed(place) && !place.Returned? && place.ticket == s.row.attempts + 1
    ensures TicketsSound(At(WithRow(s, s.row.(attempts := s.row.attempts + 1)), w, place))
  {
  }

  lemma SendingKeepsTickets(s: State, w: WorkerId, ok: bool)
    requires TicketsSound(s) && w in s.workers && s.workers[w].Calling?
    ensures var place := s.workers[w];
            TicketsSound(At(s, w, Returned(place.ticket, place.id, ok)).(calls := s.calls + [Call(place.ticket, place.id)]))
  {
    var call := Call(s.workers[w].ticket, s.workers[w].id);
    var calls := s.calls + [call];
    forall i, j | 0 <= i < j < |calls| ensures calls[i].ticket != calls[j].ticket {
      assert calls[i] == s.calls[i] && s.calls[i] in s.calls;
    }
    forall v <- s.workers, c <- calls | v != w && Ticketed(s.workers[v]) && !s.workers[v].Returned?
      ensures s.workers[v].ticket != c.ticket
    {
      assert c in s.calls || c == call;
    }
  }

  /** A step of one worker moves that worker, and changes at most the row beside it. */
  lemma StepMoves(s: State, step: Step)
    requires !step.SweepFails?
    ensures var w, later := step.w, After(s, step);
            var place := if w in s.workers then s.workers[w] else Done;
            if step.Send? && place.Calling?
            then later == At(s, w, Returned(place.ticket, place.id, step.ok)).(calls := s.calls + [Call(place.ticket, place.id)])
            else
              || later == s
              || (w in later.workers && later == At(WithRow(s, later.row), w, later.workers[w])
                  && (if step.Count? && place.Holding? && Ticketed(later.workers[w])
                      then && later.row == s.row.(attempts := s.row.attempts + 1) && later.row.attempts <= MAX_COMPLETION_ATTEMPTS
                           && later.workers[w].ticket == later.row.attempts && !later.workers[w].Returned?
                      else Ticketed(later.workers[w]) ==>
                           Ticketed(place) && later.workers[w].ticket == place.ticket
                           && later.workers[w].Returned? == place.Returned?))
  {
  }

  lemma StepTickets(s: State, step: Step)
    requires Sound(s)
    ensures TicketsSound(After(s, step))
  {
    var later := After(s, step);
    StepRow(s, step);
    if step.SweepFails? {
      RowsKeepTickets(s, later.row);
    } else {
      StepMoves(s, step);
      hide IdsSound, RowSound, TicketsSound, After, At, WithRow;
      var w := step.w;
      var place := if w in s.workers then s.workers[w] else Done;
      if step.Send? && place.Calling? {
        SendingKeepsTickets(s, w, step.ok);
      } else if later != s && step.Count? && place.Holding? && Ticketed(later.workers[w]) {
        CountingKeepsTickets(s, w, later.workers[w]);
      } else if later != s {
        MovingKeepsTickets(s, w, later.workers[w], later.row);
      }
    }
  }

  lemma RowsKeepTickets(s: State, row: Row)
    requires TicketsSound(s) && s.row.attempts <= row.attempts
    ensures TicketsSound(WithRow(s, row))
  {
  }

  lemma StepBelieves(s: State, step: Step)
    requires RowSound(s.row) && IdsSound(s) && !step.SweepFails?
    ensures var later := After(s, step);
            step.w in later.workers ==> Believes(later.workers[step.w], later.row.externalId)
    ensures var later := After(s, step);
            forall c <- later.calls :: c in s.calls || later.row.externalId == Some(c.id)
  {
    assert step.w in s.workers ==> Believes(s.workers[step.w], s.row.externalId);
    hide IdsSound;
  }

  lemma StepIds(s: State, step: Step)
    requires Sound(s)
    ensures IdsSound(After(s, step))
  {
    StepRow(s, step);
    var later := After(s, step);
    hide TicketsSound;
    if step.SweepFails? {
      hide RowSound;
    } else {
      StepBelieves(s, step);
      OthersStay(s, step);
      hide After, RowSound;
      forall v <- later.workers | v != step.w ensures Believes(later.workers[v], later.row.externalId) {
        assert Believes(s.workers[v], s.row.externalId);
      }
    }
  }

  lemma OthersStay(s: State, step: Step)
    requires !step.SweepFails?
    ensures forall v <- After(s, step).workers | v != step.w :: v in s.workers && After(s, step).workers[v] == s.workers[v]
  {
  }

  // ---------------------------------------------------------------- the bound on remote calls

  lemma {:induction false} DistinctTicketsAreFew(calls: seq<Call>, n: nat)
    requires forall c <- calls :: 1 <= c.ticket <= n
    requires forall i, j | 0 <= i < j < |calls| :: calls[i].ticket != calls[j].ticket
    ensures |calls| <= n
  {
    var tickets := set c <- calls :: c.ticket;
    TicketsCount(calls);
    assert tickets <= UpTo(n);
    UpToCount(n);
    Rows.SmallerSet(tickets, UpTo(n));
  }

  function UpTo(n: nat): (numbers: set<nat>)
    ensures forall k: nat :: k in numbers <==> 1 <= k <= n
  {
    if n == 0 then {} else UpTo(n - 1) + {n}
  }

  lemma {:induction false} UpToCount(n: nat)
    ensures |UpTo(n)| == n
  {
    if n > 0 { UpToCount(n - 1); }
  }

  lemma {:induction false} TicketsCount(calls: seq<Call>)
    requires forall i, j | 0 <= i < j < |calls| :: calls[i].ticket != calls[j].ticket
    ensures |set c <- calls :: c.ticket| == |calls|
  {
    if calls != [] {
      var init, last := calls[..|calls| - 1], calls[|calls| - 1];
      TicketsCount(init);
      assert calls == init + [last];
      assert (set c <- calls :: c.ticket) == (set c <- init :: c.ticket) + {last.ticket};
      assert last.ticket !in set c <- init :: c.ticket;
    }
  }

  const FRESH := State(INSERTED, map[], [])

  ghost predicate Execution(states: seq<State>, steps: seq<Step>) {
    && |states| == |steps| + 1 && states[0] == FRESH
    && forall i | 0 <= i < |steps| :: states[i + 1] == After(states[i], steps[i])
  }

  /**
   * However many workers and sweeps there are and however they interleave, at most eight completion
   * requests are sent for the check run, and all of them to the one external id the row has.
   */
  lemma {:induction false} CompletionCallsAreBounded(states: seq<State>, steps: seq<Step>, i: nat)
    requires Execution(states, steps) && i < |states|
    ensures Sound(states[i])
    ensures |states[i].calls| <= MAX_COMPLETION_ATTEMPTS
    ensures forall c <- states[i].calls :: states[i].row.externalId == Some(c.id)
  {
    if i > 0 {
      CompletionCallsAreBounded(states, steps, i - 1);
      var s, step := states[i - 1], steps[i - 1];
      hide Sound, After, RowSound, TicketsSound, IdsSound;
      StepSound(s, step);
    }
    CallsAreFew(states[i]);
  }

  lemma StepSound(s: State, step: Step)
    requires Sound(s)
    ensures Sound(After(s, step))
  {
    StepRow(s, step);
    StepTickets(s, step);
    StepIds(s, step);
    hide RowSound, TicketsSound, IdsSound, After;
  }

  lemma CallsAreFew(s: State)
    requires Sound(s)
    ensures |s.calls| <= MAX_COMPLETION_ATTEMPTS
    ensures forall c <- s.calls :: s.row.externalId == Some(c.id)
  {
    DistinctTicketsAreFew(s.calls, MAX_COMPLETION_ATTEMPTS);
  }

  /** Between any two moments a completed row is unchanged, and an external id, once written, stays; each step moves the status as drawn. */
  lemma {:induction false} CompletionIsFinal(states: seq<State>, steps: seq<Step>, i: nat, j: nat)
    requires Execution(states, steps) && i <= j < |states|
    ensures RowSound(states[i].row) && RowFollows(states[i].row, states[j].row)
    ensures i < j ==> StatusMoves(states[j - 1].row.status, states[j].row.status)
    decreases j
  {
    CompletionCallsAreBounded(states, steps, i);
    if i < j {
      CompletionIsFinal(states, steps, i, j - 1);
      CompletionCallsAreBounded(states, steps, j - 1);
      StepRow(states[j - 1], steps[j - 1]);
      hide After, TicketsSound, IdsSound;
    }
  }

  // ---------------------------------------------------------------- attempts past the bound

  /** A worker that holds an open check counts an attempt while the row is not completed. */
  predicate Attempts(s: State, step: Step) {
    step.Count? && step.w in s.workers && s.workers[step.w].Holding? && !s.workers[step.w].completed
    && s.row.status != Completed
  }

  function AttemptSteps(states: seq<State>, steps: seq<Step>, n: nat): nat
    requires n <= |states| && n <= |steps|
  {
    if n == 0 then 0 else AttemptSteps(states, steps, n - 1) + (if Attempts(states[n - 1], steps[n - 1]) then 1 else 0)
  }

  lemma StepAttempts(s: State, step: Step)
    ensures After(s, step).row.attempts == s.row.attempts + (if Attempts(s, step) then 1 else 0)
  {
  }

  /** The column counts every attempt, past the bound on requests too: it exceeds eight exactly after more than eight. */
  lemma {:induction false} AttemptsAreCounted(states: seq<State>, steps: seq<Step>, i: nat)
    requires Execution(states, steps) && i < |states|
    ensures |states| == |steps| + 1 && states[i].row.attempts == AttemptSteps(states, steps, i)
  {
    if i > 0 {
      AttemptsAreCounted(states, steps, i - 1);
      assert states[i] == After(states[i - 1], steps[i - 1]);
      hide After, Attempts;
      StepAttempts(states[i - 1], steps[i - 1]);
    }
  }

  /** Some run counts any number of attempts. */
  lemma {:induction false} AttemptsPassTheBound(n: nat) returns (states: seq<State>, steps: seq<Step>)
    ensures Execution(states, steps) && |steps| == 2 * n
    ensures states[2 * n].row.attempts == n && states[2 * n].row.status != Completed
  {
    if n == 0 {
      return [FRESH], [];
    }
    var before, taken := AttemptsPassTheBound(n - 1);
    var s := before[2 * n - 2];
    var read := After(s, Read(0));
    var counted := After(read, Count(0));
    states, steps := before + [read, counted], taken + [Read(0), Count(0)];
    forall i | 0 <= i < |steps| ensures states[i + 1] == After(states[i], steps[i]) {
      if i < 2 * n - 2 { assert states[i] == before[i] && states[i + 1] == before[i + 1] && steps[i] == taken[i]; }
    }
  }

  // ---------------------------------------------------------------- the row, and one worker completing it

  class CheckRun {
    var row: Row

    constructor ()
      ensures row == INSERTED && RowSound(row)
    {
      row := INSERTED;
    }

    /** A row that is not completed can be given its external id again, and only that one if it has one. */
    method Begin()
      modifies this
      ensures row == Begun(old(row)) && Advances(old(row), row)
      ensures row.externalId == old(row).externalId && row.attempts == old(row).attempts
      ensures row.status == if old(row).status == Completed then Completed else Creating
      ensures forall id :: StartedWith(row, id).Some? <==> row.status != Completed && row.externalId in {None, Some(id)}
    {
      if row.status == Completed { return; }
      row := row.(status := Creating, error := None);
    }

    method MarkStarted(externalId: string) returns (ok: bool)
      modifies this
      ensures ok <==> StartedWith(old(row), externalId).Some?
      ensures row == (if ok then StartedWith(old(row), externalId).value else old(row)) && Advances(old(row), row)
      ensures ok <==> if old(row).externalId == None then old(row).status in {Creating, InProgress, Failed}
                      else old(row).status in {Creating, InProgress} && old(row).externalId == Some(externalId)
      ensures ok ==> row.status == InProgress && row.externalId == Some(externalId)
      ensures ok ==> && row.attempts == old(row).attempts && StartedWith(row, externalId) == Some(row)
                     && forall id | id != externalId :: StartedWith(row, id) == None
    {
      ok := (row.status in {Creating, InProgress} || (row.status == Failed && row.externalId == None))
            && (row.externalId == None || row.externalId == Some(externalId));
      if ok { row := row.(status := InProgress, externalId := Some(externalId), error := None); }
    }

    method BeginCompletion() returns (attempts: Option<nat>)
      modifies this
      ensures (row, attempts) == Attempted(old(row)) && Advances(old(row), row)
      ensures attempts == None <==> old(row).status == Completed
      ensures attempts.Some? ==> attempts.value == row.attempts > old(row).attempts
      ensures row.(attempts := old(row).attempts) == old(row)
    {
      if row.status == Completed { return None; }
      row := row.(attempts := row.attempts + 1);
      return Some(row.attempts);
    }

    method MarkCompleting() returns (ok: bool)
      modifies this
      ensures ok <==> MarkedCompleting(old(row)).Some?
      ensures row == (if ok then MarkedCompleting(old(row)).value else old(row)) && Advances(old(row), row)
      ensures ok <==> old(row).externalId.Some? && old(row).status !in {Pending, Completed}
      ensures ok ==> && row.status == Completing && row.externalId == old(row).externalId && row.attempts == old(row).attempts
                     && forall c :: MarkedCompleted(row, c).Some?
    {
      ok := row.status in {Creating, InProgress, Completing, Failed} && row.externalId.Some?;
      if ok { row := row.(status := Completing, error := None); }
    }

    method MarkCompleted(conclusion: Conclusion) returns (ok: bool)
      modifies this
      ensures ok <==> MarkedCompleted(old(row), conclusion).Some?
      ensures row == (if ok then MarkedCompleted(old(row), conclusion).value else old(row)) && Advances(old(row), row)
      ensures ok <==> old(row).externalId.Some? && old(row).status in {InProgress, Completing, Failed}
      ensures ok ==> && row.conclusion == Some(conclusion) && row.externalId == old(row).externalId
                     && forall later | RowFollows(row, later) :: later == row
    {
      ok := row.status in {InProgress, Completing, Failed} && row.externalId.Some?;
      if ok { row := row.(status := Completed, conclusion := Some(conclusion), error := None); }
    }

    method MarkFailed(error: string)
      modifies this
      ensures row == MarkedFailed(old(row), error) && Advances(old(row), row)
      ensures row.externalId == old(row).externalId && row.attempts == old(row).attempts
      ensures row.status == Completed <==> old(row).status == Completed
      ensures row.status != Completed ==> row.error == Some(error)
                                          && (MarkedCompleting(row).Some? <==> row.externalId.Some?)
    {
      if row.status == Completed { return; }
      row := row.(status := Failed, conclusion := None, error := Some(error));
    }

    /** Up to a resolved external id under a counted attempt, or the end of the worker. */
    method ResolveAttempt(w: WorkerId, completed: bool, known: Option<string>, lookup: Option<string>) returns (place: Place)
      modifies this
      ensures State(row, map[w := place], []) == ResolvedAlone(Alone(old(row), w, Holding(completed, known)), w, lookup)
      ensures place.Resolved? || place.Done?
    {
      hide Advances, RowFollows, RowSound;
      if completed { return Done; }
      var attempts := BeginCompletion();
      if attempts.None? { return Done; }
      if attempts.value > MAX_COMPLETION_ATTEMPTS {
        MarkFailed("check_run_completion_exhausted");
        return Done;
      }
      if known.Some? { return Resolved(attempts.value, known.value); }
      if lookup.None? {
        MarkFailed("check_run_publication_failed");
        return Done;
      }
      var started := MarkStarted(lookup.value);
      if !started {
        MarkFailed("check_run_publication_failed");
        return Done;
      }
      return Resolved(attempts.value, lookup.value);
    }

    /** The completing mark, the request to the provider, and what its answer leaves. */
    method SendCompletion(w: WorkerId, place: Place, accepted: bool, conclusion: Conclusion) returns (sent: bool)
      requires place.Resolved?
      modifies this
      ensures var later := SentAlone(Alone(old(row), w, place), w, accepted, conclusion);
              row == later.row && (sent <==> later.calls != [])
      ensures sent && accepted ==> row.status == Completed && row.conclusion == Some(conclusion)
    {
      var completing := MarkCompleting();
      if !completing { return false; }
      if !accepted {
        MarkFailed("check_run_publication_failed");
        return true;
      }
      var _ := MarkCompleted(conclusion);
      return true;
    }

    /**
     * One worker completing a check it holds a handle of, undisturbed; `lookup` is what the provider finds
     * for an unknown id, and `accepted` whether it takes the request. The steps are those of `After`.
     */
    method CompleteNativeCheck(w: WorkerId, completed: bool, known: Option<string>, lookup: Option<string>, accepted: bool,
                               conclusion: Conclusion)
      returns (sent: bool)
      modifies this
      ensures var resolved := ResolvedAlone(Alone(old(row), w, Holding(completed, known)), w, lookup);
              var later := SentAlone(resolved, w, accepted, conclusion);
              row == later.row && (sent <==> later.calls != [])
      ensures sent && accepted ==> row.status == Completed && row.conclusion == Some(conclusion)
    {
      var place := ResolveAttempt(w, completed, known, lookup);
      hide ResolvedAlone;
      if place.Done? {
        NothingToSend(row, w, accepted, conclusion);
        return false;
      }
      hide SentAlone;
      sent := SendCompletion(w, place, accepted, conclusion);
    }
  }

  function Alone(row: Row, w: WorkerId, place: Place): State { State(row, map[w := place], []) }

  function ResolvedAlone(s: State, w: WorkerId, lookup: Option<string>): State {
    After(After(After(s, Count(w)), Look(w, lookup)), Restart(w))
  }

  function SentAlone(s: State, w: WorkerId, accepted: bool, conclusion: Conclusion): State {
    After(After(After(s, Complete(w)), Send(w, accepted)), Settle(w, conclusion))
  }

  /** One worker, undisturbed: from an open row and an id that fits it to a started check, or to a failed one without an id. */
  lemma CreatingAlone(s: State, w: WorkerId, id: string)
    ensures s.row.status == Completed ==> After(s, Ensure(w)) == At(s, w, Holding(true, s.row.externalId))
    ensures s.row.status != Completed && s.row.externalId in {None, Some(id)} ==>
              var later := After(After(After(s, Ensure(w)), Publish(w, Some(id))), Start(w));
              && later.workers == s.workers[w := Holding(false, Some(id))] && later.calls == s.calls
              && later.row == s.row.(status := InProgress, externalId := Some(id), error := None)
    ensures s.row.status != Completed && s.row.externalId !in {None, Some(id)} ==>
              var later := After(After(After(s, Ensure(w)), Publish(w, Some(id))), Start(w));
              later.workers == s.workers[w := Done] && later.row.status == Failed && later.row.externalId == s.row.externalId
    ensures s.row.status != Completed ==>
              var later := After(After(s, Ensure(w)), Publish(w, None));
              later.workers == s.workers[w := Done] && later.row.status == Failed
  {
  }

  /** The id a worker completes the check under: the one it knows, or one it finds that fits the row. */
  function Target(row: Row, known: Option<string>, lookup: Option<string>): Option<string> {
    if known.Some? then known
    else if lookup.Some? && StartedWith(row, lookup.value).Some? then lookup
    else None
  }

  /** One worker, undisturbed: up to the eighth attempt it sends one request under its id and records the answer. */
  lemma CompletingAlone(row: Row, w: WorkerId, known: Option<string>, lookup: Option<string>, accepted: bool, conclusion: Conclusion)
    requires RowSound(row) && row.status in {InProgress, Completing, Failed} && (known.Some? ==> row.externalId == known)
    ensures var later := SentAlone(ResolvedAlone(Alone(row, w, Holding(false, known)), w, lookup), w, accepted, conclusion);
            && later.workers == map[w := Done] && later.row.attempts == row.attempts + 1
            && (if row.attempts < 8 && Target(row, known, lookup).Some?
                then later.calls == [Call(row.attempts + 1, Target(row, known, lookup).value)]
                     && (if accepted then later.row.status == Completed && later.row.conclusion == Some(conclusion)
                         else later.row.status == Failed)
                else later.calls == [] && later.row.status == Failed)
  {
    hide ResolvedAlone, SentAlone, StartedWith;
    ResolvingAlone(row, w, known, lookup);
    var resolved := ResolvedAlone(Alone(row, w, Holding(false, known)), w, lookup);
    if row.attempts < 8 && Target(row, known, lookup).Some? {
      SendingAlone(resolved.row, w, row.attempts + 1, Target(row, known, lookup).value, accepted, conclusion);
    } else {
      NothingToSend(resolved.row, w, accepted, conclusion);
    }
  }

  lemma ResolvingAlone(row: Row, w: WorkerId, known: Option<string>, lookup: Option<string>)
    requires RowSound(row) && row.status in {InProgress, Completing, Failed} && (known.Some? ==> row.externalId == known)
    ensures var resolved, id := ResolvedAlone(Alone(row, w, Holding(false, known)), w, lookup), Target(row, known, lookup);
            && resolved.row.attempts == row.attempts + 1
            && if row.attempts < 8 && id.Some?
               then resolved == Alone(resolved.row, w, Resolved(row.attempts + 1, id.value))
                    && resolved.row.externalId == id && resolved.row.status in {InProgress, Completing, Failed}
               else resolved == Alone(resolved.row, w, Done) && resolved.row.status == Failed
  {
    var first := After(Alone(row, w, Holding(false, known)), Count(w));
    var counted := row.(attempts := row.attempts + 1);
    if row.attempts < 8 && known.None? {
      assert first == Alone(counted, w, Counted(row.attempts + 1, None));
      assert lookup.Some? ==> (StartedWith(counted, lookup.value).Some? <==> StartedWith(row, lookup.value).Some?);
    } else {
      IdleSteps(first, w, lookup);
    }
  }

  lemma IdleSteps(s: State, w: WorkerId, lookup: Option<string>)
    requires w in s.workers && !s.workers[w].Counted? && !s.workers[w].Found?
    ensures After(After(s, Look(w, lookup)), Restart(w)) == s
  {
  }

  lemma SendingAlone(row: Row, w: WorkerId, ticket: nat, id: string, accepted: bool, conclusion: Conclusion)
    requires row.status in {InProgress, Completing, Failed} && row.externalId == Some(id)
    ensures var later := SentAlone(Alone(row, w, Resolved(ticket, id)), w, accepted, conclusion);
            && later.workers == map[w := Done] && later.row.attempts == row.attempts && later.calls == [Call(ticket, id)]
            && (if accepted then later.row.status == Completed && later.row.conclusion == Some(conclusion)
                else later.row.status == Failed)
  {
    var one := After(Alone(row, w, Resolved(ticket, id)), Complete(w));
    assert one.workers == map[w := Calling(ticket, id)];
    var two := After(one, Send(w, accepted));
    assert two.workers == map[w := Returned(ticket, id, accepted)] && two.calls == [Call(ticket, id)];
  }

  lemma NothingToSend(row: Row, w: WorkerId, accepted: bool, conclusion: Conclusion)
    ensures SentAlone(Alone(row, w, Done), w, accepted, conclusion) == Alone(row, w, Done)
  {
  }
}
