// The retry loop over a provider chain under one global deadline
// (executeWithRetry in src/router-worker.ts), proved against its specification.
module RouterRetry {
  import opened Wrappers
  import opened RetryPlan

  // Steps 1 to 4 of an attempt.
  method Prepare(e: AttemptEnv, attempt: nat, deadline: int, before: int)
    returns (s: Setup, clock: int, log: seq<WorkspaceEvent>)
    ensures Prepared(s, clock, log) == PrepareOf(e, attempt, deadline, before)
  {
    log := [];
    clock := before + e.beforeCheck;
    if deadline - clock <= 0 {
      return TooLate, clock, log;
    }
    clock := clock + e.makeWorkspace;
    if e.workspaceFails {
      return NoWorkspace, clock, log;
    }
    log := log + [Made(attempt)];
    if deadline - clock <= 0 {
      log := log + [Removed(attempt)];
      return TooLateAfterWorkspace, clock, log;
    }
    clock := clock + e.setup;
    s := if e.setupFails then SetupThrew else SetUp;
  }

  // Step 5: the provider runs against a timer.
  method CallProvider(e: AttemptEnv, attempt: nat, provider: string, timeout: int, before: int)
    returns (result: Option<ProviderResult>, calls: seq<Span>, clock: int)
    ensures Called(result, calls, clock) == CallOf(e, attempt, provider, timeout, before)
  {
    clock, calls := before, [];
    if timeout <= 0 {
      return Some(ProviderResult(RouterTimeout, None, [provider])), calls, clock;
    }
    clock := clock + e.lag;
    match e.report {
      case Threw =>
        result := None;
      case ProviderNotCalled(r) =>
        result := Some(r);
      case ProviderCalled(duration, timerFirst, r, thenThrows) =>
        var started := clock;
        if duration > timeout || (duration == timeout && timerFirst) {
          clock, result := clock + timeout, Some(ProviderResult(RouterTimeout, None, [provider]));
        } else {
          clock, result := clock + duration, Some(r);
        }
        calls := [Call(attempt, started, clock)];
        if thenThrows {
          result := None;
        }
    }
  }

  // The pause before the next attempt, clipped to what is left of the budget.
  method BackOff(e: AttemptEnv, attempt: nat, config: Config, deadline: int, before: int)
    returns (timedOut: bool, pauses: seq<Span>, clock: int)
    ensures Paused(timedOut, pauses, clock) == BackOffOf(e, attempt, config, deadline, before)
  {
    clock, pauses := before, [];
    var backoffRemaining := deadline - clock;
    if backoffRemaining <= 0 {
      return true, pauses, clock;
    }
    var backoffMs := Max(0, Min(config.backoffMs * (attempt + 1), backoffRemaining));
    pauses := [Pause(attempt, clock, clock + backoffMs)];
    clock := clock + backoffMs + e.afterSleep;
    timedOut := deadline - clock <= 0;
  }

  // The catch block: the workspace is removed; past the deadline the total timeout is reported,
  // otherwise a START_ERROR attempt is recorded.
  method CatchError(job: Job, attempt: nat, executed: seq<string>, calls: seq<Span>, before: int) returns (r: AttemptRun)
    requires attempt < |job.chain|
    ensures r == Catch(job, attempt, executed, calls, before)
  {
    var log := [Made(attempt)] + [Removed(attempt)];
    var clock := before + job.env(attempt).catchDelay;
    var elapsed := clock - job.start;
    if Deadline(job) - clock <= 0 {
      return AttemptRun(TimesOut, [], executed, calls, log, clock);
    }
    var trace := AttemptTrace(attempt, job.chain[attempt], StartError, false, false, true,
                              Min(job.config.timeoutPerAttemptMs, Max(0, Deadline(job) - clock - elapsed)), None);
    r := AttemptRun(Breaks, [trace], executed, calls, log, clock);
  }

  // Step 6 and the retry: the trace is recorded before it is known how the attempt ends.
  method ClassifyAnswer(job: Job, attempt: nat, executed: seq<string>, result: ProviderResult, timeout: int,
                        calls: seq<Span>, before: int) returns (r: AttemptRun)
    requires attempt < |job.chain|
    ensures r == Answer(job, attempt, executed, result, timeout, calls, before)
  {
    hide BackOffOf, Retryable;
    var e, clock := job.env(attempt), before;
    var retryable := Retryable(result);
    var trace := AttemptTrace(attempt, job.chain[attempt], result.status, retryable, false, false, timeout,
                              Some(executed + result.modelChain));
    var models, log := executed + result.modelChain, [Made(attempt)];
    if e.cancelled {
      log, trace := log + [Removed(attempt)], trace.(workspaceCleaned := true);
      return AttemptRun(IsCancelled, [trace], models, calls, log, clock);
    }
    if result.status == Completed {
      trace := trace.(isWinner := true);
      assert log + [] == log;
      return AttemptRun(Wins, [trace], models, calls, log, clock);
    }
    log, trace := log + [Removed(attempt)], trace.(workspaceCleaned := true);
    if !retryable {
      return AttemptRun(IsRefused, [trace], models, calls, log, clock);
    }
    clock := clock + e.cleanup;
    if attempt < |job.chain| - 1 {
      var timedOut, pauses;
      timedOut, pauses, clock := BackOff(e, attempt, job.config, Deadline(job), clock);
      return AttemptRun(if timedOut then TimesOut else Retries, [trace], models, calls + pauses, log, clock);
    }
    r := AttemptRun(Retries, [trace], models, calls, log, clock);
  }

  // The body of the loop.
  method MakeAttempt(job: Job, attempt: nat, before: int, executed: seq<string>) returns (r: AttemptRun)
    requires attempt < |job.chain|
    ensures r == Attempt(job, attempt, before, executed)
  {
    hide PrepareOf, CallOf, Catch, Answer;
    var e := job.env(attempt);
    var setup, clock, log := Prepare(e, attempt, Deadline(job), before);
    match setup {
      case NoWorkspace => return AttemptRun(Escapes, [], executed, [], log, clock);
      case TooLate => return AttemptRun(TimesOut, [], executed, [], log, clock);
      case TooLateAfterWorkspace => return AttemptRun(TimesOut, [], executed, [], log, clock);
      case SetupThrew =>
        r := CatchError(job, attempt, executed, [], clock);
        return;
      case SetUp =>
    }
    var providerRemaining := Deadline(job) - clock;
    var effectiveTimeout := Min(job.config.timeoutPerAttemptMs, Max(0, providerRemaining));
    var outcome, calls;
    outcome, calls, clock := CallProvider(e, attempt, job.chain[attempt], effectiveTimeout, clock);
    if outcome.None? {
      r := CatchError(job, attempt, executed, calls, clock);
    } else {
      r := ClassifyAnswer(job, attempt, executed, outcome.value, effectiveTimeout, calls, clock + e.afterCall);
    }
  }

  lemma NextReach(job: Job, i: nat)
    requires i < |job.chain|
    ensures Reach(job, i + 1) == Extend(Reach(job, i), At(job, i))
    ensures At(job, i) == Attempt(job, i, Reach(job, i).clock, Reach(job, i).executed)
  {
  }

  lemma FirstReach(job: Job)
    ensures Reach(job, 0) == Progress(job.start, [], [], [], [])
  {
  }

  lemma RunUnfolds(job: Job, i: nat)
    requires i <= |job.chain|
    ensures RunFrom(job, i)
         == if i == |job.chain| then
              var s := Reach(job, i);
              RetryRun(Returned(AttemptResult(false, AllProvidersFailed, i, i, s.traces, None, false)),
                       s.spans, s.workspaces, s.clock)
            else if At(job, i).ending == Retries then RunFrom(job, i + 1)
            else
              var s := Reach(job, i + 1);
              RetryRun(ExitOf(At(job, i).ending, s.traces, |job.chain|, i), s.spans, s.workspaces, s.clock)
  {
  }

  // The loop returns exactly what its specification says, for every chain, configuration, outcome
  // and clock.
  method ExecuteWithRetry(globalStart: int, config: Config, fullChain: seq<string>, env: nat -> AttemptEnv)
    returns (exit: Exit, spans: seq<Span>, workspaces: seq<WorkspaceEvent>, clock: int)
    ensures RetryRun(exit, spans, workspaces, clock)
         == RunFrom(Job(config, EffectiveChain(config, fullChain), globalStart, env), 0)
  {
    hide Reach, At, Attempt, RunFrom;
    var chain := EffectiveChain(config, fullChain);
    var job := Job(config, chain, globalStart, env);
    var executedAttempts: seq<string>, attemptTraces: seq<AttemptTrace> := [], [];
    clock, spans, workspaces := globalStart, [], [];
    FirstReach(job);
    for attempt := 0 to |chain|
      invariant Progress(clock, executedAttempts, attemptTraces, spans, workspaces) == Reach(job, attempt)
      invariant RunFrom(job, 0) == RunFrom(job, attempt)
    {
      var r := MakeAttempt(job, attempt, clock, executedAttempts);
      NextReach(job, attempt);
      RunUnfolds(job, attempt);
      clock, executedAttempts, attemptTraces := r.clock, r.executed, attemptTraces + r.traces;
      spans, workspaces := spans + r.spans, workspaces + r.workspaces;
      if r.ending != Retries {
        exit := ExitOf(r.ending, attemptTraces, |chain|, attempt);
        return;
      }
    }
    RunUnfolds(job, |chain|);
    exit := Returned(AttemptResult(false, AllProvidersFailed, |chain|, |chain|, attemptTraces, None, false));
  }
}
