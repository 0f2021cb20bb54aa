// Which answers of a provider are retried, by status and code (isRetryableProviderResult in
// src/router-worker.ts), and what the retry costs.
module RetryStatuses {
  import opened Wrappers
  import opened RetryPlan
  import opened RetryMeaning

  // An attempt that is made and answered, and that nobody cancels.
  predicate AnsweredBy(job: Job, i: nat, r: ProviderResult) {
    && IsMade(job, i) && Answered(job, i, Begins(job, i)) == Some(r) && !job.env(i).cancelled
  }

  predicate EndsAt(job: Job, i: nat, reason: ExitReason) {
    && Attempts(job) == i + 1 && Whole(job).exit.Returned?
    && Whole(job).exit.result.reason == reason && Whole(job).exit.result.totalAttempts == i + 1
  }

  // The pause after attempt i, given what is left of the budget when it begins: i + 1 times the
  // configured backoff, but never more than is left and never negative.
  lemma PauseIsLinear(config: Config, i: nat, left: int)
    requires left > 0
    ensures PauseLength(config, i, left)
            == if config.backoffMs <= 0 then 0
               else if config.backoffMs * (i + 1) <= left then config.backoffMs * (i + 1)
               else left
  {
    Positive(config.backoffMs, i + 1);
  }

  lemma Positive(b: int, k: nat)
    requires k > 0
    ensures b <= 0 ==> b * k <= 0
    ensures b > 0 ==> b * k > 0
  {
  }

  lemma LastAttemptDecides(job: Job, i: nat, reason: ExitReason)
    requires IsMade(job, i)
    requires || (reason == ProviderFailed && EndingOf(job, i, Begins(job, i)) == IsRefused)
             || (reason == Won && EndingOf(job, i, Begins(job, i)) == Wins)
    ensures EndsAt(job, i, reason)
  {
    hide EndingOf, Reach, Attempts, RunFrom;
    RunMeaning(job);
    MadeExactly(job, i);
    MadeExactly(job, i + 1);
  }

  // A completed answer wins, and the run ends there.
  lemma CompletedWins(job: Job, i: nat, r: ProviderResult)
    requires AnsweredBy(job, i, r) && r.status == Completed
    ensures EndsAt(job, i, Won) && Whole(job).exit.result.completed && Whole(job).exit.result.winningAttempt == Some(i)
  {
    hide Retryable, Reach, Answered, Attempts, RunFrom;
    AnsweredEnding(job, i, r);
    LastAttemptDecides(job, i, Won);
    RunMeaning(job);
  }

  lemma AnsweredEnding(job: Job, i: nat, r: ProviderResult)
    requires AnsweredBy(job, i, r)
    ensures var e := EndingOf(job, i, Begins(job, i));
            && (e == Wins <==> r.status == Completed)
            && (e == IsRefused <==> r.status != Completed && !Retryable(r))
  {
    hide Retryable, Reach, Outcome;
  }

  // A timeout, a connection error, too many requests and the errors of the server are retried: the
  // run does not end with them as a provider's failure, and the next provider is tried exactly
  // when there is one and time is left after the cleanup, the pause and the waking.
  lemma TransientIsRetried(job: Job, i: nat, r: ProviderResult)
    requires AnsweredBy(job, i, r)
    requires || r.status in {TimedOut, RouterTimeout, RouterConnectionError}
             || (r.status == RouterHttpError && r.httpStatus.Some? && (r.httpStatus.value == 429 || 500 <= r.httpStatus.value <= 599))
    ensures !EndsAt(job, i, ProviderFailed)
    ensures var left := Deadline(job) - CleanedAt(job, i, Begins(job, i));
            var backoff := job.config.backoffMs * (i + 1);
            IsMade(job, i + 1) <==>
            && i + 1 < |job.chain| && left > 0
            && job.env(i).afterSleep < left - (if job.config.backoffMs <= 0 then 0 else if backoff <= left then backoff else left)
  {
    hide Reach, Attempts, RunFrom, Answered, PauseLength;
    var before := Begins(job, i);
    var left := Deadline(job) - CleanedAt(job, i, before);
    if left > 0 {
      PauseIsLinear(job.config, i, left);
    }
    AnsweredEnding(job, i, r);
    RetriedEnding(job, i, before, r);
    NotRefused(job, i);
  }

  lemma RetriedEnding(job: Job, i: nat, before: int, r: ProviderResult)
    requires i < |job.chain| && Answered(job, i, before) == Some(r) && !job.env(i).cancelled && Retryable(r) && r.status != Completed
    ensures var done := CleanedAt(job, i, before);
            EndingOf(job, i, before) == Retries <==>
            || i == |job.chain| - 1
            || (done < Deadline(job) && done + PauseLength(job.config, i, Deadline(job) - done) + job.env(i).afterSleep < Deadline(job))
  {
    hide Retryable, Outcome, PauseLength, CleanedAt;
  }

  lemma NotRefused(job: Job, i: nat)
    requires IsMade(job, i) && EndingOf(job, i, Begins(job, i)) != IsRefused
    ensures !EndsAt(job, i, ProviderFailed)
  {
    hide EndingOf, Reach, Attempts, RunFrom;
    RunMeaning(job);
  }

  // Every other failure ends the run at once: any other status, and an HTTP error with any other
  // code or with none.
  lemma PermanentEndsTheRun(job: Job, i: nat, r: ProviderResult)
    requires AnsweredBy(job, i, r)
    requires || r.status in {Failed, StartError, ToolLoopLimit}
             || (r.status == RouterHttpError
                 && (r.httpStatus.None? || (r.httpStatus.value != 429 && !(500 <= r.httpStatus.value <= 599))))
    ensures EndsAt(job, i, ProviderFailed) && !Whole(job).exit.result.completed && !IsMade(job, i + 1)
  {
    hide Reach, Attempts, RunFrom, Answered;
    AnsweredEnding(job, i, r);
    LastAttemptDecides(job, i, ProviderFailed);
    RunMeaning(job);
  }

  // A run that every provider answers with a transient error, each in good time, ends only when the
  // chain is exhausted.
  lemma OnlyExhaustionEnds(job: Job)
    requires forall i: nat | i < |job.chain| :: EndingOf(job, i, Begins(job, i)) == Retries
    ensures Attempts(job) == |job.chain| && Whole(job).exit.Returned? && Whole(job).exit.result.reason == AllProvidersFailed
  {
    hide EndingOf, Reach, Attempts, RunFrom;
    RunMeaning(job);
    if Attempts(job) < |job.chain| {
      MadeExactly(job, Attempts(job));
    }
  }

  // ---------- Who is heard ----------

  // A provider is heard exactly when it answers before the timer of its attempt fires; otherwise the
  // attempt counts as timed out at the router, as it does with no time left.
  lemma HeardExactlyWhen(job: Job, i: nat, before: int, duration: nat, timerFirst: bool, r: ProviderResult)
    requires i < |job.chain| && Proceeds(job, i, before) && job.env(i).report == ProviderCalled(duration, timerFirst, r, false)
    ensures var left := Deadline(job) - FixedAt(job, i, before);
            var timeout := if left <= job.config.timeoutPerAttemptMs then left else job.config.timeoutPerAttemptMs;
            && Answered(job, i, before).Some?
            && (timeout > 0 && (duration < timeout || (duration == timeout && !timerFirst)) ==>
                  Answered(job, i, before) == Some(r))
            && (timeout <= 0 || duration > timeout || (duration == timeout && timerFirst) ==>
                  Answered(job, i, before).value.status == RouterTimeout)
  {
  }

  // An engine that throws is not heard at all, whether or not its provider had answered; one that
  // answers without calling the provider is heard as it is.
  lemma ThrowingIsNotHeard(job: Job, i: nat, before: int)
    requires i < |job.chain| && Proceeds(job, i, before) && Timeout(job, i, before) > 0
    ensures Answered(job, i, before).None? <==>
            job.env(i).report.Threw? || (job.env(i).report.ProviderCalled? && job.env(i).report.thenThrows)
    ensures job.env(i).report.ProviderNotCalled? ==> Answered(job, i, before) == Some(job.env(i).report.result)
  {
  }

  lemma OneCallIsCapped(job: Job, i: nat, before: int)
    requires i < |job.chain|
    ensures forall s | s in SpansOf(job, i, before) && s.Call? :: s.end - s.start <= job.config.timeoutPerAttemptMs
  {
    hide FixedAt, Pauses, CleanedAt, WokenAt;
  }

  // No call lasts longer than one attempt may.
  lemma {:induction false} CallsAreCapped(job: Job, n: nat)
    requires n <= |job.chain|
    ensures forall s | s in AllSpans(job, n) && s.Call? :: s.end - s.start <= job.config.timeoutPerAttemptMs
  {
    hide Reach, SpansOf;
    if n > 0 {
      CallsAreCapped(job, n - 1);
      OneCallIsCapped(job, n - 1, Begins(job, n - 1));
      assert forall s | s in AllSpans(job, n) :: s in AllSpans(job, n - 1) || s in SpansOf(job, n - 1, Begins(job, n - 1));
    }
  }

  // The trace of a setup failure. Its timeout takes the elapsed time off the budget twice.
  lemma BreakTrace(job: Job, i: nat, before: int, executed: seq<string>)
    requires i < |job.chain| && EndingOf(job, i, before) == Breaks
    ensures var caught := CaughtAt(job, i, before);
            var left := job.start + job.config.timeoutTotalMs - caught - (caught - job.start);
            var timeout := if left < 0 then 0 else left;
            Attempt(job, i, before, executed).traces
            == [AttemptTrace(i, job.chain[i], StartError, false, false, true,
                             if timeout <= job.config.timeoutPerAttemptMs then timeout else job.config.timeoutPerAttemptMs, None)]
  {
    hide Outcome, Retryable, Answer;
  }
}
