/** A bounded agent session: one attempt, at most one retry with a raised turn budget, one deadline. */
module SessionBudget {
  import opened Wrappers

  datatype Profile = Profile(turns: nat, timeout: nat)

  /** How one attempt ended, with the tokens it reports. */
  datatype Ending = Answered(prompt: nat, completion: nat) | Caveat(prompt: nat, completion: nat) | Raised(error: string)

  datatype Attempt = Attempt(turns: nat, timeout: nat, start: real, ending: Ending)

  datatype Outcome =
    | Done(prompt: nat, completion: nat)
    | Exhausted(prompt: nat, completion: nat)
    | NotStarted
    | Aborted(error: string)

  function Ceiling(x: real): (c: int)
    ensures x <= c as real < x + 1.0
  {
    if x == x.Floor as real then x.Floor else x.Floor + 1
  }

  function RaisedBudget(profile: Profile): Profile { profile.(turns := profile.turns * 2) }

  /** One attempt gets the time left until the session's deadline, in whole seconds rounded up. */
  function Remaining(profile: Profile, deadline: Option<real>, now: real): (p: Option<Profile>)
    ensures p.Some? ==> p.value.turns == profile.turns && p.value.timeout <= profile.timeout
    ensures p.Some? && deadline.Some? ==> now + p.value.timeout as real < deadline.value + 1.0
    ensures p.Some? && profile.timeout > 0 ==> p.value.timeout > 0
    ensures p.Some? && p.value.timeout < profile.timeout ==> deadline.Some? && deadline.value <= now + p.value.timeout as real
    ensures p.None? <==> deadline.Some? && deadline.value <= now
  {
    match deadline
    case None => Some(profile)
    case Some(end) =>
      if end - now <= 0.0 then None
      else
        var seconds := Ceiling(end - now);
        Some(profile.(timeout := if seconds < profile.timeout then seconds else profile.timeout))
  }

  function PromptSpent(attempts: seq<Attempt>): nat {
    if attempts == [] then 0 else
      var last := attempts[|attempts| - 1].ending;
      PromptSpent(attempts[..|attempts| - 1]) + (if last.Raised? then 0 else last.prompt)
  }

  function CompletionSpent(attempts: seq<Attempt>): nat {
    if attempts == [] then 0 else
      var last := attempts[|attempts| - 1].ending;
      CompletionSpent(attempts[..|attempts| - 1]) + (if last.Raised? then 0 else last.completion)
  }

  lemma Spent(init: seq<Attempt>, last: Attempt)
    ensures PromptSpent(init + [last]) == PromptSpent(init) + (if last.ending.Raised? then 0 else last.ending.prompt)
    ensures CompletionSpent(init + [last]) == CompletionSpent(init) + (if last.ending.Raised? then 0 else last.ending.completion)
  {
    assert (init + [last])[..|init|] == init;
  }

  /**
   * `begun` is when the session started, `starting` and `retrying` the times of its two checks; the endings are what the
   * agent does if it is run.
   */
  method RunOnceOrRaisedBudget(profile: Profile, total: Option<nat>, begun: real, starting: real, retrying: real,
                               firstEnding: Ending, secondEnding: Ending)
    returns (outcome: Outcome, attempts: seq<Attempt>)
    requires profile.turns > 0 && profile.timeout > 0 && begun <= starting <= retrying
    ensures |attempts| <= 2
    ensures |attempts| > 0 ==> attempts[0].turns == profile.turns && attempts[0].ending == firstEnding
    ensures |attempts| == 2 ==> attempts[1].turns == 2 * profile.turns && attempts[1].ending == secondEnding && attempts[0].ending.Caveat?
    ensures forall a <- attempts :: 0 < a.timeout <= profile.timeout
    ensures total.Some? ==> forall a <- attempts :: a.start + a.timeout as real < begun + total.value as real + 1.0
    ensures |attempts| > 0 ==> attempts[0].start == starting
    ensures |attempts| == 2 ==> attempts[1].start == retrying
    ensures forall a <- attempts :: a.timeout == profile.timeout || (total.Some? && begun + total.value as real <= a.start + a.timeout as real)
    ensures attempts == [] <==> total.Some? && begun + total.value as real <= starting
    ensures |attempts| == 2 <==> attempts != [] && firstEnding.Caveat? && (total.Some? ==> retrying < begun + total.value as real)
    ensures outcome.Done? || outcome.Exhausted? ==>
              outcome.prompt == PromptSpent(attempts) && outcome.completion == CompletionSpent(attempts)
    ensures outcome.Done? <==> attempts != [] && attempts[|attempts| - 1].ending.Answered?
    ensures outcome.Exhausted? <==> attempts != [] && attempts[|attempts| - 1].ending.Caveat?
    ensures outcome.NotStarted? <==> attempts == []
  {
    var deadline := if total.Some? then Some(begun + total.value as real) else None;
    attempts := [];
    var first := Remaining(profile, deadline, starting);
    if first.None? { return NotStarted, attempts; }
    Spent([], Attempt(first.value.turns, first.value.timeout, starting, firstEnding));
    attempts := attempts + [Attempt(first.value.turns, first.value.timeout, starting, firstEnding)];
    match firstEnding
    case Answered(prompt, completion) => return Done(prompt, completion), attempts;
    case Raised(error) => return Aborted(error), attempts;
    case Caveat(spentPrompt, spentCompletion) =>
      var retry := Remaining(RaisedBudget(profile), deadline, retrying);
      if retry.None? { return Exhausted(spentPrompt, spentCompletion), attempts; }
      var second := Attempt(retry.value.turns, retry.value.timeout, retrying, secondEnding);
      Spent(attempts, second);
      attempts := attempts + [second];
      match secondEnding {
        case Answered(prompt, completion) =>
          return Done(prompt + spentPrompt, completion + spentCompletion), attempts;
        case Raised(error) => return Aborted(error), attempts;
        case Caveat(prompt, completion) =>
          return Exhausted(spentPrompt + prompt, spentCompletion + completion), attempts;
      }
  }
}
