// The deadline of the retry loop, exactly. The timeout of an attempt is fixed before the engine
// starts the provider call; whatever passes in between is not taken off it.
module RetryDeadline {
  import opened Wrappers
  import opened RetryPlan
  import opened RetryMeaning
  import opened RetryResults

  predicate OnTime(s: Span, deadline: int) {
    s.start < deadline && s.end <= deadline
  }

  // The lag and the length of the call against what was left when the timeout was fixed.
  predicate LagFits(job: Job, i: nat, before: int) {
    && job.env(i).lag < Remaining(job, i, before)
    && job.env(i).lag + CallLength(job, i, before) <= Remaining(job, i, before)
  }

  // One call starts at or after the deadline exactly when its lag uses up what was left, and
  // extends past it exactly when its lag and its length together exceed that.
  lemma CallAgainstDeadline(job: Job, i: nat, before: int)
    requires i < |job.chain| && CallsProvider(job, i, before)
    ensures var call := SpansOf(job, i, before)[0];
            && (call.start >= Deadline(job) <==> job.env(i).lag >= Remaining(job, i, before))
            && (call.end > Deadline(job) <==>
                job.env(i).lag + Min(job.env(i).report.duration, Timeout(job, i, before)) > Remaining(job, i, before))
            && call.end - call.start <= Timeout(job, i, before)
  {
  }

  // Some provider can make a call late exactly when the lag exceeds what the timeout leaves unused.
  lemma CanBeLateExactlyWhen(perAttempt: int, remaining: int, lag: nat)
    requires perAttempt > 0 && remaining > 0
    ensures (exists duration: nat :: lag + Min(duration, Min(perAttempt, remaining)) > remaining)
            <==> lag > remaining - Min(perAttempt, remaining)
  {
    var timeout: nat := Min(perAttempt, remaining);
    assert Min(timeout, Min(perAttempt, remaining)) == timeout;
  }

  // Pauses never reach past the deadline.
  lemma PausesAreOnTime(job: Job, i: nat, before: int, s: Span)
    requires i < |job.chain| && s in SpansOf(job, i, before) && s.Pause?
    ensures OnTime(s, Deadline(job))
  {
  }

  lemma AttemptOnTime(job: Job, i: nat, before: int)
    requires i < |job.chain|
    ensures (forall s | s in SpansOf(job, i, before) :: OnTime(s, Deadline(job)))
            <==> (CallsProvider(job, i, before) ==> LagFits(job, i, before))
  {
    hide CallsProvider, Pauses, FixedAt, CallLength, CleanedAt, WokenAt, OnTime;
    var spans := SpansOf(job, i, before);
    if CallsProvider(job, i, before) {
      CallFits(job, i, before);
      assert spans[0] in spans;
    }
    forall s | s in spans && s.Pause?
      ensures OnTime(s, Deadline(job))
    {
      PausesAreOnTime(job, i, before, s);
    }
  }

  lemma CallFits(job: Job, i: nat, before: int)
    requires i < |job.chain| && CallsProvider(job, i, before)
    ensures OnTime(SpansOf(job, i, before)[0], Deadline(job)) <==> LagFits(job, i, before)
  {
  }

  lemma {:induction false} AttemptsOnTime(job: Job, n: nat)
    requires n <= |job.chain|
    ensures (forall s | s in AllSpans(job, n) :: OnTime(s, Deadline(job)))
            <==> forall i: nat | i < n :: CallsProvider(job, i, Begins(job, i)) ==> LagFits(job, i, Begins(job, i))
  {
    hide CallsProvider, SpansOf, OnTime, LagFits, Reach;
    if n > 0 {
      AttemptsOnTime(job, n - 1);
      AttemptOnTime(job, n - 1, Begins(job, n - 1));
      assert forall s :: s in AllSpans(job, n) <==> s in AllSpans(job, n - 1) || s in SpansOf(job, n - 1, Begins(job, n - 1));
    }
  }

  // Over a whole run no call and no pause starts at or after the deadline or extends past it
  // exactly when for each attempt that is made and calls its provider the lag fits.
  lemma DeadlineKeptExactlyWhen(job: Job)
    ensures (forall s | s in Whole(job).spans :: OnTime(s, Deadline(job)))
            <==> forall i: nat | i < Attempts(job) ::
                   CallsProvider(job, i, Begins(job, i)) ==> LagFits(job, i, Begins(job, i))
  {
    hide OnTime, LagFits, CallsProvider, AllSpans, Attempts, Reach;
    RunMeaning(job);
    AttemptsOnTime(job, Attempts(job));
  }

  // So without lag the deadline is kept.
  lemma NoLagNoDelay(job: Job)
    requires forall i :: job.env(i).lag == 0
    ensures forall s | s in Whole(job).spans :: OnTime(s, Deadline(job))
  {
    hide Attempts, Reach;
    DeadlineKeptExactlyWhen(job);
    RunMeaning(job);
  }

  // A run that does not keep it: a second of budget, and an engine that takes two seconds before
  // it starts the call.
  const SlowEngine := AttemptEnv(0, 0, false, 0, false, 2000, ProviderCalled(5, false, ProviderResult(Completed, None, []), false),
                                 0, false, 0, 0, 0)

  lemma SlowEngineAttempt(job: Job)
    requires |job.chain| > 0 && job.config == Config(1, 60000, 1000, 0) && job.start == 0 && job.env(0) == SlowEngine
    ensures EndingOf(job, 0, 0) == Wins && SpansOf(job, 0, 0) == [Call(0, 2000, 2005)]
  {
  }

  lemma StopsAtFirst(job: Job)
    requires |job.chain| > 0 && Attempt(job, 0, job.start, []).ending == Wins
    ensures Whole(job).exit.Returned? && Whole(job).exit.result.completed && !Whole(job).exit.result.timedOut
    ensures Whole(job).spans == Attempt(job, 0, job.start, []).spans
  {
    hide Attempt;
    var zero: nat := 0;
    assert Reach(job, zero) == Progress(job.start, [], [], [], []);
    assert At(job, zero) == Attempt(job, 0, job.start, []);
    assert Reach(job, zero + 1) == Extend(Reach(job, zero), At(job, zero));
    assert [] + At(job, zero).spans == At(job, zero).spans;
  }

  lemma OverrunExample(env: nat -> AttemptEnv)
    requires env(0) == SlowEngine
    ensures var job := Job(Config(1, 60000, 1000, 0), ["p"], 0, env);
            && Whole(job).exit.Returned? && Whole(job).exit.result.completed && !Whole(job).exit.result.timedOut
            && Whole(job).spans == [Call(0, 2000, 2005)] && Deadline(job) == 1000
  {
    hide Attempt, RunFrom, EndingOf, SpansOf;
    var job := Job(Config(1, 60000, 1000, 0), ["p"], 0, env);
    AttemptMeaning(job, 0, 0, []);
    SlowEngineAttempt(job);
    StopsAtFirst(job);
  }

  // ---------- Durations ----------

  function TotalDuration(spans: seq<Span>): int {
    if spans == [] then 0
    else TotalDuration(spans[..|spans| - 1]) + spans[|spans| - 1].end - spans[|spans| - 1].start
  }

  // Calls and pauses together last at most the total budget, plus the lag of the last of them.
  lemma {:induction false} DurationsFit(spans: seq<Span>, start: int, deadline: int, env: nat -> AttemptEnv)
    requires WithinBudget(spans, start, deadline, env) && spans != []
    ensures TotalDuration(spans) <= spans[|spans| - 1].end - start
    ensures TotalDuration(spans) <= deadline - start + env(spans[|spans| - 1].attempt).lag
  {
    if |spans| > 1 {
      DurationsFit(spans[..|spans| - 1], start, deadline, env);
    }
  }

  // A run that keeps the deadline spends at most the total budget in calls and pauses.
  lemma BudgetKept(job: Job)
    requires forall s | s in Whole(job).spans :: OnTime(s, Deadline(job))
    ensures TotalDuration(Whole(job).spans) <= Max(0, job.config.timeoutTotalMs)
  {
    hide ResultConsistent, OneAtATime, LiveAfter, Capped, RunFrom;
    RunAgrees(job);
    var spans := Whole(job).spans;
    if spans != [] {
      assert spans[|spans| - 1] in spans;
      DurationsFit(spans, job.start, Deadline(job), job.env);
    }
  }
}
