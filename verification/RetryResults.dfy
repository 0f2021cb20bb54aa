// One consistent result, one workspace at a time and one budget on every exit of the retry loop.
module RetryResults {
  import opened Wrappers
  import opened RetryPlan
  import opened RetryMeaning

  // ---------- Workspaces ----------

  function LiveAfter(log: seq<WorkspaceEvent>): set<nat> {
    if log == [] then {}
    else
      var before := LiveAfter(log[..|log| - 1]);
      match log[|log| - 1]
      case Made(i) => before + {i}
      case Removed(i) => before - {i}
  }

  ghost predicate OneAtATime(log: seq<WorkspaceEvent>) {
    forall k :: 0 <= k <= |log| ==> |LiveAfter(log[..k])| <= 1
  }

  lemma LiveMore(log: seq<WorkspaceEvent>, e: WorkspaceEvent)
    ensures LiveAfter(log + [e]) == if e.Made? then LiveAfter(log) + {e.attempt} else LiveAfter(log) - {e.attempt}
  {
    assert (log + [e])[..|log|] == log;
  }

  lemma StillOne(log: seq<WorkspaceEvent>, e: WorkspaceEvent)
    requires OneAtATime(log) && |LiveAfter(log + [e])| <= 1
    ensures OneAtATime(log + [e])
  {
    hide LiveAfter;
    var next := log + [e];
    forall k | 0 <= k <= |next|
      ensures |LiveAfter(next[..k])| <= 1
    {
      assert if k <= |log| then next[..k] == log[..k] else next[..k] == next;
    }
  }

  lemma MadeFirst(log: seq<WorkspaceEvent>, i: nat)
    requires OneAtATime(log) && LiveAfter(log) == {}
    ensures OneAtATime(log + [Made(i)]) && LiveAfter(log + [Made(i)]) == {i}
  {
    hide OneAtATime, LiveAfter;
    LiveMore(log, Made(i));
    StillOne(log, Made(i));
  }

  lemma RemovedAgain(log: seq<WorkspaceEvent>, i: nat)
    requires OneAtATime(log) && LiveAfter(log) == {i}
    ensures OneAtATime(log + [Removed(i)]) && LiveAfter(log + [Removed(i)]) == {}
  {
    hide OneAtATime, LiveAfter;
    LiveMore(log, Removed(i));
    StillOne(log, Removed(i));
  }

  // ---------- Traces ----------

  predicate RetriedAndCleaned(t: AttemptTrace) {
    t.retryable && t.workspaceCleaned && !t.isWinner
  }

  ghost predicate ChainsGrow(traces: seq<AttemptTrace>) {
    forall i, j :: 0 <= i < j < |traces| && traces[i].fallbackChain.Some? && traces[j].fallbackChain.Some?
                   ==> traces[i].fallbackChain.value <= traces[j].fallbackChain.value
  }

  ghost predicate TraceMatches(t: AttemptTrace, i: nat, chain: seq<string>, env: AttemptEnv) {
    && t.attempt == i && i < |chain| && t.provider == chain[i]
    && (t.fallbackChain.None? ==> t.status == StartError && !t.retryable && t.workspaceCleaned && !t.isWinner)
    && (t.fallbackChain.Some? ==>
          && Outcome(env, t.attemptTimeoutMs, t.provider).Some?
          && var r := Outcome(env, t.attemptTimeoutMs, t.provider).value;
             t.status == r.status && t.retryable == Retryable(r)
             && t.isWinner == (r.status == Completed && !env.cancelled))
  }

  predicate Capped(traces: seq<AttemptTrace>, limit: int) {
    forall t | t in traces :: t.attemptTimeoutMs <= limit
  }

  // ---------- Time ----------

  // Time: what the calls and pauses may occupy.
  ghost predicate WithinBudget(spans: seq<Span>, start: int, deadline: int, env: nat -> AttemptEnv) {
    && (forall i :: 0 <= i < |spans| ==> start <= spans[i].start <= spans[i].end)
    && (forall i :: 0 <= i < |spans| ==> spans[i].end <= deadline + env(spans[i].attempt).lag)
    && (forall i :: 0 <= i < |spans| ==> spans[i].start < deadline + env(spans[i].attempt).lag)
    && (forall i, j :: 0 <= i < j < |spans| ==> spans[i].end <= spans[j].start)
  }

  // One more stretch of the clock, possibly empty, after all the others.
  lemma StretchFits(spans: seq<Span>, stretch: seq<Span>, start: int, deadline: int, env: nat -> AttemptEnv, clock: int)
    requires WithinBudget(spans, start, deadline, env) && SpansBefore(spans, clock)
    requires stretch == [] || (
               && |stretch| == 1 && SpansBefore(spans, stretch[0].start) && stretch[0].end <= clock
               && start <= stretch[0].start <= stretch[0].end <= deadline + env(stretch[0].attempt).lag
               && stretch[0].start < deadline + env(stretch[0].attempt).lag)
    ensures WithinBudget(spans + stretch, start, deadline, env) && SpansBefore(spans + stretch, clock)
  {
  }

  ghost predicate SpansBefore(spans: seq<Span>, clock: int) {
    forall i :: 0 <= i < |spans| ==> spans[i].end <= clock
  }

  // ---------- Results ----------

  ghost predicate ResultConsistent(r: AttemptResult, chain: seq<string>, env: nat -> AttemptEnv) {
    && r.totalAttempts == |r.attempts| <= |chain| == r.providerChainLength
    && ChainsGrow(r.attempts)
    && (forall i :: 0 <= i < |r.attempts| ==> TraceMatches(r.attempts[i], i, chain, env(i)))
    && (forall i :: 0 <= i < |r.attempts| - 1 ==> RetriedAndCleaned(r.attempts[i]))
    && (forall i :: 0 <= i < |r.attempts| ==> r.attempts[i].isWinner == !r.attempts[i].workspaceCleaned)
    && (r.completed <==> r.winningAttempt.Some?)
    && (r.completed ==> |r.attempts| > 0 && r.winningAttempt == Some(|r.attempts| - 1) && r.attempts[|r.attempts| - 1].isWinner)
    && (!r.completed ==> forall i :: 0 <= i < |r.attempts| ==> !r.attempts[i].isWinner)
    && (r.timedOut <==> r.reason == RouterTimeoutTotal)
    && (r.completed <==> r.reason == Won)
    && (r.reason == AllProvidersFailed ==>
          |r.attempts| == |chain| && forall i :: 0 <= i < |chain| ==> RetriedAndCleaned(r.attempts[i]))
    && (r.reason == ProviderFailed ==>
          |r.attempts| > 0 && !r.attempts[|r.attempts| - 1].retryable && r.attempts[|r.attempts| - 1].status != Completed)
    && (r.reason == WorkerCancelled ==> |r.attempts| > 0 && env(|r.attempts| - 1).cancelled)
    && (r.reason == SetupFailed ==> |r.attempts| > 0 && r.attempts[|r.attempts| - 1].status == StartError)
    && (r.timedOut ==> forall i :: 0 <= i < |r.attempts| ==> RetriedAndCleaned(r.attempts[i]))
  }

  // The traces of the attempts that were retried so far.
  ghost predicate Retried(traces: seq<AttemptTrace>, executed: seq<string>, chain: seq<string>, env: nat -> AttemptEnv) {
    && |traces| <= |chain| && ChainsGrow(traces)
    && (forall i :: 0 <= i < |traces| ==> RetriedAndCleaned(traces[i]) && TraceMatches(traces[i], i, chain, env(i)))
    && (forall i :: 0 <= i < |traces| ==> traces[i].fallbackChain.Some? && traces[i].fallbackChain.value <= executed)
  }

  // A new attempt whose chain extends what was executed keeps the chains growing.
  lemma ChainGrows(traces: seq<AttemptTrace>, executed: seq<string>, chain: seq<string>, env: nat -> AttemptEnv,
                   t: AttemptTrace, more: seq<string>)
    requires Retried(traces, executed, chain, env) && |traces| < |chain|
    requires t.fallbackChain == Some(executed + more) || t.fallbackChain.None?
    ensures ChainsGrow(traces + [t])
    ensures TraceMatches(t, |traces|, chain, env(|traces|)) && RetriedAndCleaned(t) && t.fallbackChain.Some?
            ==> Retried(traces + [t], executed + more, chain, env)
  {
  }

  // A result whose last attempt is the given one, after attempts that were all retried.
  lemma LastAttempt(traces: seq<AttemptTrace>, executed: seq<string>, chain: seq<string>, env: nat -> AttemptEnv,
                    t: AttemptTrace, more: seq<string>, reason: ExitReason)
    requires Retried(traces, executed, chain, env) && |traces| < |chain|
    requires TraceMatches(t, |traces|, chain, env(|traces|))
    requires t.fallbackChain == Some(executed + more) || t.fallbackChain.None?
    requires t.isWinner == !t.workspaceCleaned == (reason == Won)
    requires match reason
             case Won => true
             case ProviderFailed => !t.retryable && t.status != Completed
             case WorkerCancelled => env(|traces|).cancelled
             case SetupFailed => t.status == StartError
             case _ => false
    ensures ResultConsistent(AttemptResult(reason == Won, reason, |traces| + 1, |chain|, traces + [t],
                                           if reason == Won then Some(|traces|) else None, false), chain, env)
  {
    ChainGrows(traces, executed, chain, env, t, more);
  }

  lemma TimeoutConsistent(traces: seq<AttemptTrace>, executed: seq<string>, chain: seq<string>, env: nat -> AttemptEnv)
    requires Retried(traces, executed, chain, env)
    ensures ResultConsistent(TotalTimeout(traces, |chain|), chain, env)
  {
  }

  lemma ExhaustedConsistent(traces: seq<AttemptTrace>, executed: seq<string>, chain: seq<string>, env: nat -> AttemptEnv)
    requires Retried(traces, executed, chain, env) && |traces| == |chain|
    ensures ResultConsistent(AttemptResult(false, AllProvidersFailed, |chain|, |chain|, traces, None, false), chain, env)
  {
  }

  // ---------- The loop ----------

  // What holds at the start of every attempt that is made.
  ghost predicate Steady(job: Job, i: nat, s: Progress) {
    && Retried(s.traces, s.executed, job.chain, job.env) && |s.traces| == i
    && Capped(s.traces, job.config.timeoutPerAttemptMs)
    && OneAtATime(s.workspaces) && LiveAfter(s.workspaces) == {}
    && WithinBudget(s.spans, job.start, Deadline(job), job.env) && SpansBefore(s.spans, s.clock) && s.clock >= job.start
  }

  lemma SteadyAtFirst(job: Job)
    ensures Steady(job, 0, Reach(job, 0))
  {
  }

  // The calls and the pause of an attempt, one after the other, fit after everything before.
  lemma AttemptFits(job: Job, i: nat, s: Progress, executed: seq<string>)
    requires i < |job.chain| && WithinBudget(s.spans, job.start, Deadline(job), job.env)
    requires SpansBefore(s.spans, s.clock) && s.clock >= job.start
    ensures var r := Attempt(job, i, s.clock, executed);
            && WithinBudget(s.spans + r.spans, job.start, Deadline(job), job.env) && SpansBefore(s.spans + r.spans, r.clock)
            && r.clock >= s.clock
  {
    hide Attempt, WithinBudget;
    AttemptMeaning(job, i, s.clock, executed);
    EndsAfter(job, i, s.clock, executed);
    var r := Attempt(job, i, s.clock, executed);
    var called := if CallsProvider(job, i, s.clock) then [SpansOf(job, i, s.clock)[0]] else [];
    var paused := r.spans[|called|..];
    var done := EngineDone(job, i, s.clock);
    StretchFits(s.spans, called, job.start, Deadline(job), job.env, if called == [] then s.clock else done);
    StretchFits(s.spans + called, paused, job.start, Deadline(job), job.env, r.clock);
    assert r.spans == called + paused;
    assert s.spans + called + paused == s.spans + (called + paused);
  }

  lemma EndsAfter(job: Job, i: nat, before: int, executed: seq<string>)
    requires i < |job.chain|
    ensures var clock := Attempt(job, i, before, executed).clock;
            && clock >= before
            && (CallsProvider(job, i, before) ==> clock >= EngineDone(job, i, before))
            && (Pauses(job, i, before) ==> clock >= WokenAt(job, i, before) >= CleanedAt(job, i, before) >= before)
  {
    hide Outcome, Retryable, TimeoutOf, CallOf, Answer;
    if Proceeds(job, i, before) {
      EndsAfterEngine(job, i, before, executed);
    }
  }

  lemma EndsAfterEngine(job: Job, i: nat, before: int, executed: seq<string>)
    requires i < |job.chain| && Proceeds(job, i, before)
    ensures var clock := Attempt(job, i, before, executed).clock;
            && clock >= EngineDone(job, i, before) >= before
            && (Pauses(job, i, before) ==> clock >= WokenAt(job, i, before) >= CleanedAt(job, i, before) >= before)
  {
    hide Outcome, Retryable, WokenAt, CleanedAt, Answer;
    var c := CallOf(job.env(i), i, job.chain[i], Timeout(job, i, before), FixedAt(job, i, before));
    assert c.clock == EngineDone(job, i, before) && c.outcome == Answered(job, i, before);
    if c.outcome.Some? {
      AnswerEnds(job, i, before, executed, c.spans);
    }
  }

  lemma AnswerEnds(job: Job, i: nat, before: int, executed: seq<string>, spans: seq<Span>)
    requires i < |job.chain| && Answered(job, i, before).Some?
    ensures var at := EngineDone(job, i, before) + job.env(i).afterCall;
            var r := Answer(job, i, executed, Answered(job, i, before).value, Timeout(job, i, before), spans, at);
            && r.clock >= at
            && (Pauses(job, i, before) ==> r.clock >= WokenAt(job, i, before) >= CleanedAt(job, i, before) >= at)
  {
    hide Outcome, Retryable, EngineDone, Timeout, Answered;
  }

  lemma WorkspacesFit(log: seq<WorkspaceEvent>, job: Job, i: nat, before: int)
    requires i < |job.chain| && OneAtATime(log) && LiveAfter(log) == {}
    ensures var all := log + WorkspacesOf(job, i, before);
            OneAtATime(all) && LiveAfter(all) == if EndingOf(job, i, before) == Wins then {i} else {}
  {
    hide OneAtATime, LiveAfter;
    if !GetsWorkspace(job, i, before) {
      assert log + [] == log;
    } else {
      MadeFirst(log, i);
      if EndingOf(job, i, before) == Wins {
        assert log + ([Made(i)] + []) == log + [Made(i)];
      } else {
        RemovedAgain(log + [Made(i)], i);
        assert log + ([Made(i)] + [Removed(i)]) == log + [Made(i)] + [Removed(i)];
      }
    }
  }

  // The trace of an attempt that is answered, and of one that breaks.
  lemma AnsweredTrace(job: Job, i: nat, before: int, executed: seq<string>)
    requires i < |job.chain|
    ensures var r := Attempt(job, i, before, executed);
            && (r.ending in {Retries, IsCancelled, Wins, IsRefused} ==>
                  Answered(job, i, before).Some? && AnswerRecorded(job, i, before, executed, r))
            && (r.ending == TimesOut && r.traces != [] ==>
                  WouldRetry(job, i, before) && AnswerRecorded(job, i, before, executed, r))
            && (r.ending == Breaks ==>
                  && |r.traces| == 1 && r.traces[0].attempt == i && r.traces[0].provider == job.chain[i]
                  && r.traces[0].status == StartError && !r.traces[0].retryable && r.traces[0].workspaceCleaned
                  && !r.traces[0].isWinner && r.traces[0].fallbackChain == None
                  && r.traces[0].attemptTimeoutMs <= job.config.timeoutPerAttemptMs)
  {
    hide Outcome, Retryable, Answer, Max, WouldRetry;
    var c := CallOf(job.env(i), i, job.chain[i], Timeout(job, i, before), FixedAt(job, i, before));
    assert Proceeds(job, i, before) ==> c.outcome == Answered(job, i, before);
    if Proceeds(job, i, before) && c.outcome.Some? {
      AnswerTraced(job, i, before, executed, c.spans, c.clock + job.env(i).afterCall);
    }
  }

  lemma AnswerTraced(job: Job, i: nat, before: int, executed: seq<string>, spans: seq<Span>, clock: int)
    requires i < |job.chain| && Answered(job, i, before).Some?
    ensures var r := Answer(job, i, executed, Answered(job, i, before).value, Timeout(job, i, before), spans, clock);
            && r.ending in {Retries, IsCancelled, Wins, IsRefused, TimesOut} && AnswerRecorded(job, i, before, executed, r)
            && (r.ending == TimesOut ==> WouldRetry(job, i, before))
  {
    hide Answered, Timeout, Retryable;
  }

  ghost predicate AnswerRecorded(job: Job, i: nat, before: int, executed: seq<string>, r: AttemptRun)
    requires i < |job.chain|
  {
    var a := Answered(job, i, before);
    && a.Some? && r.executed == executed + a.value.modelChain
    && r.traces == [AnswerTrace(job, i, executed, a.value, Timeout(job, i, before),
                                a.value.status == Completed && !job.env(i).cancelled)]
  }

  lemma RecordedMatches(job: Job, i: nat, before: int, executed: seq<string>, r: AttemptRun)
    requires i < |job.chain| && AnswerRecorded(job, i, before, executed, r)
    ensures TraceMatches(r.traces[0], i, job.chain, job.env(i))
    ensures r.traces[0].attemptTimeoutMs <= job.config.timeoutPerAttemptMs
    ensures r.traces[0].fallbackChain == Some(executed + Answered(job, i, before).value.modelChain)
    ensures r.traces[0].isWinner == !r.traces[0].workspaceCleaned
  {
  }

  lemma SteadyNext(job: Job, i: nat)
    requires i < |job.chain| && Steady(job, i, Reach(job, i)) && At(job, i).ending == Retries
    ensures Steady(job, i + 1, Reach(job, i + 1))
  {
    hide Retried, Attempt, EndingOf, OneAtATime, LiveAfter, WithinBudget, SpansBefore, TraceMatches, SpansOf, WorkspacesOf;
    var s, r := Reach(job, i), At(job, i);
    AttemptMeaning(job, i, s.clock, s.executed);
    AttemptFits(job, i, s, s.executed);
    WorkspacesFit(s.workspaces, job, i, s.clock);
    AnsweredTrace(job, i, s.clock, s.executed);
    RecordedMatches(job, i, s.clock, s.executed, r);
    RetriesMeansRetry(job, i, s.clock);
    ChainGrows(s.traces, s.executed, job.chain, job.env, r.traces[0], Answered(job, i, s.clock).value.modelChain);
    assert s.traces + r.traces == s.traces + [r.traces[0]];
  }

  lemma RetriesMeansRetry(job: Job, i: nat, before: int)
    requires i < |job.chain| && EndingOf(job, i, before) == Retries
    ensures WouldRetry(job, i, before)
  {
  }

  lemma {:induction false} SteadyWhileRetried(job: Job, i: nat)
    requires i <= |job.chain| && forall j: nat | j < i :: At(job, j).ending == Retries
    ensures Steady(job, i, Reach(job, i))
  {
    hide Steady, Reach, At;
    if i == 0 {
      SteadyAtFirst(job);
    } else {
      SteadyWhileRetried(job, i - 1);
      SteadyNext(job, i - 1);
    }
  }

  // The result, the workspaces, the traces and the time of the run agree, on every exit.
  ghost predicate Agree(job: Job, run: RetryRun) {
    && (run.exit.Returned? ==>
          ResultConsistent(run.exit.result, job.chain, job.env)
          && Capped(run.exit.result.attempts, job.config.timeoutPerAttemptMs))
    && OneAtATime(run.workspaces)
    && LiveAfter(run.workspaces)
       == (if run.exit.Returned? && run.exit.result.completed then {run.exit.result.winningAttempt.value} else {})
    && WithinBudget(run.spans, job.start, Deadline(job), job.env)
    && (run.exit.Returned? && run.exit.result.timedOut ==> run.clock >= Deadline(job))
    && run.clock >= job.start
  }

  lemma TimedOutIsLate(job: Job, i: nat, before: int, executed: seq<string>)
    requires i < |job.chain| && Attempt(job, i, before, executed).ending == TimesOut
    ensures Attempt(job, i, before, executed).clock >= Deadline(job)
  {
    hide Outcome, Retryable;
  }

  lemma LastResult(job: Job, i: nat)
    requires i < |job.chain| && Steady(job, i, Reach(job, i)) && At(job, i).ending != Retries
    ensures var s, r := Reach(job, i + 1), At(job, i);
            var exit := ExitOf(r.ending, s.traces, |job.chain|, i);
            exit.Returned? ==> ResultConsistent(exit.result, job.chain, job.env)
                               && Capped(exit.result.attempts, job.config.timeoutPerAttemptMs)
                               && (exit.result.completed <==> r.ending == Wins)
  {
    hide Retried, ResultConsistent, Attempt, OneAtATime, LiveAfter, WithinBudget, SpansBefore, TraceMatches, Retryable;
    var s, r := Reach(job, i), At(job, i);
    AnsweredTrace(job, i, s.clock, s.executed);
    AttemptMeaning(job, i, s.clock, s.executed);
    if r.ending == TimesOut {
      TimedOutResult(job, i);
    } else if r.ending == Breaks {
      BrokenMatches(job, i, r.traces[0]);
      LastAttempt(s.traces, s.executed, job.chain, job.env, r.traces[0], [], SetupFailed);
      assert s.traces + r.traces == s.traces + [r.traces[0]];
    } else if r.ending != Escapes {
      RecordedMatches(job, i, s.clock, s.executed, r);
      LastAttempt(s.traces, s.executed, job.chain, job.env, r.traces[0], Answered(job, i, s.clock).value.modelChain,
                  if r.ending == Wins then Won else if r.ending == IsCancelled then WorkerCancelled else ProviderFailed);
      assert s.traces + r.traces == s.traces + [r.traces[0]];
    }
  }

  lemma BrokenMatches(job: Job, i: nat, t: AttemptTrace)
    requires i < |job.chain| && t.attempt == i && t.provider == job.chain[i] && t.fallbackChain == None
    requires t.status == StartError && !t.retryable && t.workspaceCleaned && !t.isWinner
    ensures TraceMatches(t, i, job.chain, job.env(i))
  {
  }

  lemma TimedOutResult(job: Job, i: nat)
    requires i < |job.chain| && Steady(job, i, Reach(job, i)) && At(job, i).ending == TimesOut
    ensures ResultConsistent(TotalTimeout(Reach(job, i + 1).traces, |job.chain|), job.chain, job.env)
    ensures Capped(Reach(job, i + 1).traces, job.config.timeoutPerAttemptMs)
  {
    hide Retried, ResultConsistent, Attempt, OneAtATime, LiveAfter, WithinBudget, SpansBefore, TraceMatches, Retryable;
    var s, r := Reach(job, i), At(job, i);
    AnsweredTrace(job, i, s.clock, s.executed);
    if r.traces == [] {
      assert s.traces + [] == s.traces;
      TimeoutConsistent(s.traces, s.executed, job.chain, job.env);
    } else {
      var more := Answered(job, i, s.clock).value.modelChain;
      RecordedMatches(job, i, s.clock, s.executed, r);
      ChainGrows(s.traces, s.executed, job.chain, job.env, r.traces[0], more);
      TimeoutConsistent(s.traces + [r.traces[0]], s.executed + more, job.chain, job.env);
      assert s.traces + r.traces == s.traces + [r.traces[0]];
    }
  }

  // For every chain, outcome and clock.
  lemma RunAgrees(job: Job)
    ensures Agree(job, RunFrom(job, 0))
  {
    hide ResultConsistent, Capped, Attempt, OneAtATime, LiveAfter, WithinBudget, Reach, Retried, SpansBefore;
    var k := StopsAt(job, 0);
    RunsToStop(job, 0);
    SteadyWhileRetried(job, k);
    if k == |job.chain| {
      var s := Reach(job, k);
      ExhaustedConsistent(s.traces, s.executed, job.chain, job.env);
    } else {
      LastResult(job, k);
      LastTiming(job, k);
    }
  }

  lemma LastTiming(job: Job, i: nat)
    requires i < |job.chain| && Steady(job, i, Reach(job, i)) && At(job, i).ending != Retries
    ensures var s, r := Reach(job, i + 1), At(job, i);
            && OneAtATime(s.workspaces) && LiveAfter(s.workspaces) == (if r.ending == Wins then {i} else {})
            && WithinBudget(s.spans, job.start, Deadline(job), job.env) && s.clock >= job.start
            && (r.ending == TimesOut ==> s.clock >= Deadline(job))
  {
    hide Retried, Attempt, EndingOf, OneAtATime, LiveAfter, WithinBudget, SpansBefore, SpansOf, WorkspacesOf;
    var s := Reach(job, i);
    AttemptMeaning(job, i, s.clock, s.executed);
    AttemptFits(job, i, s, s.executed);
    WorkspacesFit(s.workspaces, job, i, s.clock);
    if At(job, i).ending == TimesOut {
      TimedOutIsLate(job, i, s.clock, s.executed);
    }
  }

  // With a non-negative attempt limit at most that many attempts are made; a negative limit does
  // not stop the loop but drops providers from the end of the chain.
  lemma AttemptLimit(config: Config, chain: seq<string>)
    ensures 0 <= config.maxAttempts ==> |EffectiveChain(config, chain)| == Min(config.maxAttempts, |chain|)
    ensures config.maxAttempts < 0 ==> |EffectiveChain(config, chain)| == Max(0, |chain| + config.maxAttempts)
  {
  }
}
