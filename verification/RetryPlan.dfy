// What the retry loop over a provider chain does, as a function of the chain, the configuration and
// the outside world (executeWithRetry in src/router-worker.ts).
module RetryPlan {
  import opened Wrappers

  // ---------- Provider results ----------

  datatype ProviderStatus =
    | Completed | Failed | TimedOut | RouterTimeout | RouterConnectionError | RouterHttpError | StartError | ToolLoopLimit

  datatype ProviderResult = ProviderResult(status: ProviderStatus, httpStatus: Option<int>, modelChain: seq<string>)

  predicate RetryableHttpStatus(code: Option<int>) {
    code.Some? && (code.value == 429 || 500 <= code.value < 600)
  }

  predicate Retryable(r: ProviderResult) {
    || r.status == TimedOut || r.status == RouterTimeout || r.status == RouterConnectionError
    || (r.status == RouterHttpError && RetryableHttpStatus(r.httpStatus))
  }

  // ---------- Configuration ----------

  // Numbers read from the environment; nothing forces them to be positive.
  datatype Config = Config(maxAttempts: int, timeoutPerAttemptMs: int, timeoutTotalMs: int, backoffMs: int)

  function Min(a: int, b: int): int {
    if a <= b then a else b
  }

  function Max(a: int, b: int): int {
    if a <= b then b else a
  }

  // Array.prototype.slice(0, end): a negative end counts from the back.
  function Slice<T>(s: seq<T>, end: int): (r: seq<T>)
    ensures r <= s
    ensures 0 <= end ==> |r| == Min(end, |s|)
  {
    if end >= |s| then s
    else if end >= 0 then s[..end]
    else if |s| + end >= 0 then s[..|s| + end]
    else []
  }

  function EffectiveChain(config: Config, chain: seq<string>): seq<string> {
    Slice(chain, Min(config.maxAttempts, |chain|))
  }

  // ---------- The outside world of one attempt ----------

  // What the execution engine does: throw without calling the provider, answer for it, or call it
  // and then return or throw. A provider call that throws is a RouterTimeout after its duration;
  // timerFirst says who wins the race when the call and the timer end together.
  datatype EngineReport =
    | Threw
    | ProviderNotCalled(result: ProviderResult)
    | ProviderCalled(duration: nat, timerFirst: bool, result: ProviderResult, thenThrows: bool)

  // How long each stretch takes and what it yields. Every duration is a natural number, so the
  // clock is monotone. lag is the time between computing the attempt's timeout and starting the
  // provider call.
  datatype AttemptEnv = AttemptEnv(
    beforeCheck: nat, makeWorkspace: nat, workspaceFails: bool, setup: nat, setupFails: bool,
    lag: nat, report: EngineReport, afterCall: nat, cancelled: bool, cleanup: nat, catchDelay: nat, afterSleep: nat)

  // ---------- The trace ----------

  datatype AttemptTrace = AttemptTrace(
    attempt: nat, provider: string, status: ProviderStatus, retryable: bool, isWinner: bool,
    workspaceCleaned: bool, attemptTimeoutMs: int, fallbackChain: Option<seq<string>>)

  // Which return of the loop was taken.
  datatype ExitReason = Won | RouterTimeoutTotal | WorkerCancelled | ProviderFailed | SetupFailed | AllProvidersFailed

  datatype AttemptResult = AttemptResult(
    completed: bool, reason: ExitReason, totalAttempts: nat, providerChainLength: nat,
    attempts: seq<AttemptTrace>, winningAttempt: Option<nat>, timedOut: bool)

  // A stretch of the clock spent in a provider call or asleep.
  datatype Span = Call(attempt: nat, start: int, end: int) | Pause(attempt: nat, start: int, end: int)

  // The attempt workspaces that exist, in the order in which they are made and removed.
  datatype WorkspaceEvent = Made(attempt: nat) | Removed(attempt: nat)

  // executeWithRetry returns, or lets the failure to create a workspace escape.
  datatype Exit = Returned(result: AttemptResult) | Escaped

  // ---------- Steps 1 to 4: deadline, workspace, clone, baseline ----------

  datatype Setup = TooLate | NoWorkspace | TooLateAfterWorkspace | SetupThrew | SetUp

  datatype Prepared = Prepared(setup: Setup, clock: int, workspaces: seq<WorkspaceEvent>)

  function PrepareOf(e: AttemptEnv, i: nat, deadline: int, before: int): Prepared {
    var checked := before + e.beforeCheck;
    var made := checked + e.makeWorkspace;
    if checked >= deadline then Prepared(TooLate, checked, [])
    else if e.workspaceFails then Prepared(NoWorkspace, made, [])
    else if made >= deadline then Prepared(TooLateAfterWorkspace, made, [Made(i), Removed(i)])
    else Prepared(if e.setupFails then SetupThrew else SetUp, made + e.setup, [Made(i)])
  }

  // ---------- Step 5: the provider against a timer ----------

  function TimeoutOf(config: Config, deadline: int, clock: int): int {
    Min(config.timeoutPerAttemptMs, Max(0, deadline - clock))
  }

  predicate TimerWins(timeout: int, duration: nat, timerFirst: bool) {
    duration > timeout || (duration == timeout && timerFirst)
  }

  // What the loop sees of an attempt with the given timeout; None if the engine threw.
  function Outcome(env: AttemptEnv, timeout: int, provider: string): Option<ProviderResult> {
    if timeout <= 0 then Some(ProviderResult(RouterTimeout, None, [provider]))
    else match env.report
      case Threw => None
      case ProviderNotCalled(r) => Some(r)
      case ProviderCalled(duration, timerFirst, r, thenThrows) =>
        if thenThrows then None
        else if TimerWins(timeout, duration, timerFirst) then Some(ProviderResult(RouterTimeout, None, [provider])) else Some(r)
  }

  datatype Called = Called(outcome: Option<ProviderResult>, spans: seq<Span>, clock: int)

  function CallOf(e: AttemptEnv, i: nat, provider: string, timeout: int, before: int): Called {
    var started := before + e.lag;
    var ended := if e.report.ProviderCalled? then started + Min(e.report.duration, timeout) else started;
    if timeout <= 0 then Called(Outcome(e, timeout, provider), [], before)
    else Called(Outcome(e, timeout, provider), if e.report.ProviderCalled? then [Call(i, started, ended)] else [], ended)
  }

  // ---------- The pause before the next attempt ----------

  datatype Paused = Paused(timedOut: bool, spans: seq<Span>, clock: int)

  function PauseLength(config: Config, i: nat, remaining: int): int {
    Max(0, Min(config.backoffMs * (i + 1), remaining))
  }

  function BackOffOf(e: AttemptEnv, i: nat, config: Config, deadline: int, before: int): Paused {
    if before >= deadline then Paused(true, [], before)
    else
      var woken := before + PauseLength(config, i, deadline - before);
      Paused(woken + e.afterSleep >= deadline, [Pause(i, before, woken)], woken + e.afterSleep)
  }

  // ---------- One attempt ----------

  datatype Ending = TimesOut | Escapes | Breaks | IsCancelled | Wins | IsRefused | Retries

  datatype AttemptRun = AttemptRun(
    ending: Ending, traces: seq<AttemptTrace>, executed: seq<string>, spans: seq<Span>,
    workspaces: seq<WorkspaceEvent>, clock: int)

  // A run of the loop: the chain is the effective one.
  datatype Job = Job(config: Config, chain: seq<string>, start: int, env: nat -> AttemptEnv)

  function Deadline(job: Job): int {
    job.start + job.config.timeoutTotalMs
  }

  function StartErrorTrace(job: Job, i: nat, clock: int): AttemptTrace
    requires i < |job.chain|
  {
    AttemptTrace(i, job.chain[i], StartError, false, false, true,
                 Min(job.config.timeoutPerAttemptMs, Max(0, Deadline(job) - clock - (clock - job.start))), None)
  }

  // The catch block.
  function Catch(job: Job, i: nat, executed: seq<string>, spans: seq<Span>, before: int): AttemptRun
    requires i < |job.chain|
  {
    var clock := before + job.env(i).catchDelay;
    var log := [Made(i), Removed(i)];
    if clock >= Deadline(job) then AttemptRun(TimesOut, [], executed, spans, log, clock)
    else AttemptRun(Breaks, [StartErrorTrace(job, i, clock)], executed, spans, log, clock)
  }

  function AnswerTrace(job: Job, i: nat, executed: seq<string>, r: ProviderResult, timeout: int, wins: bool): AttemptTrace
    requires i < |job.chain|
  {
    AttemptTrace(i, job.chain[i], r.status, Retryable(r), wins, !wins, timeout, Some(executed + r.modelChain))
  }

  // Step 6 and the retry: what follows from the provider's answer.
  function Answer(job: Job, i: nat, executed: seq<string>, r: ProviderResult, timeout: int, spans: seq<Span>, clock: int)
    : AttemptRun
    requires i < |job.chain|
  {
    var e := job.env(i);
    var wins := r.status == Completed && !e.cancelled;
    var traces := [AnswerTrace(job, i, executed, r, timeout, wins)];
    var models, log := executed + r.modelChain, [Made(i)] + if wins then [] else [Removed(i)];
    if e.cancelled then AttemptRun(IsCancelled, traces, models, spans, log, clock)
    else if wins then AttemptRun(Wins, traces, models, spans, log, clock)
    else if !Retryable(r) then AttemptRun(IsRefused, traces, models, spans, log, clock)
    else if i == |job.chain| - 1 then AttemptRun(Retries, traces, models, spans, log, clock + e.cleanup)
    else
      var b := BackOffOf(e, i, job.config, Deadline(job), clock + e.cleanup);
      AttemptRun(if b.timedOut then TimesOut else Retries, traces, models, spans + b.spans, log, b.clock)
  }

  function Attempt(job: Job, i: nat, before: int, executed: seq<string>): AttemptRun
    requires i < |job.chain|
  {
    var e := job.env(i);
    var p := PrepareOf(e, i, Deadline(job), before);
    match p.setup
    case NoWorkspace => AttemptRun(Escapes, [], executed, [], p.workspaces, p.clock)
    case TooLate => AttemptRun(TimesOut, [], executed, [], p.workspaces, p.clock)
    case TooLateAfterWorkspace => AttemptRun(TimesOut, [], executed, [], p.workspaces, p.clock)
    case SetupThrew => Catch(job, i, executed, [], p.clock)
    case SetUp =>
      var timeout := TimeoutOf(job.config, Deadline(job), p.clock);
      var c := CallOf(e, i, job.chain[i], timeout, p.clock);
      if c.outcome.None? then Catch(job, i, executed, c.spans, c.clock)
      else Answer(job, i, executed, c.outcome.value, timeout, c.spans, c.clock + e.afterCall)
  }

  // ---------- The loop ----------

  // Where the loop stands at the start of an attempt.
  datatype Progress = Progress(
    clock: int, executed: seq<string>, traces: seq<AttemptTrace>, spans: seq<Span>, workspaces: seq<WorkspaceEvent>)

  function Extend(s: Progress, r: AttemptRun): Progress {
    Progress(r.clock, r.executed, s.traces + r.traces, s.spans + r.spans, s.workspaces + r.workspaces)
  }

  function Reach(job: Job, i: nat): Progress
    requires i <= |job.chain|
    decreases i, 0
  {
    if i == 0 then Progress(job.start, [], [], [], []) else Extend(Reach(job, i - 1), At(job, i - 1))
  }

  function At(job: Job, i: nat): AttemptRun
    requires i < |job.chain|
    decreases i, 1
  {
    Attempt(job, i, Reach(job, i).clock, Reach(job, i).executed)
  }

  function TotalTimeout(traces: seq<AttemptTrace>, chainLength: nat): AttemptResult {
    AttemptResult(false, RouterTimeoutTotal, |traces|, chainLength, traces, None, true)
  }

  function ExitOf(ending: Ending, traces: seq<AttemptTrace>, chainLength: nat, i: nat): Exit
    requires ending != Retries
  {
    match ending
    case TimesOut => Returned(TotalTimeout(traces, chainLength))
    case Escapes => Escaped
    case Breaks => Returned(AttemptResult(false, SetupFailed, i + 1, chainLength, traces, None, false))
    case IsCancelled => Returned(AttemptResult(false, WorkerCancelled, i + 1, chainLength, traces, None, false))
    case Wins => Returned(AttemptResult(true, Won, i + 1, chainLength, traces, Some(i), false))
    case IsRefused => Returned(AttemptResult(false, ProviderFailed, i + 1, chainLength, traces, None, false))
  }

  datatype RetryRun = RetryRun(exit: Exit, spans: seq<Span>, workspaces: seq<WorkspaceEvent>, clock: int)

  // The rest of the loop from attempt i on.
  function RunFrom(job: Job, i: nat): RetryRun
    requires i <= |job.chain|
    decreases |job.chain| - i
  {
    if i == |job.chain| then
      var s := Reach(job, i);
      RetryRun(Returned(AttemptResult(false, AllProvidersFailed, i, i, s.traces, None, false)), s.spans, s.workspaces, s.clock)
    else if At(job, i).ending == Retries then RunFrom(job, i + 1)
    else
      var s := Reach(job, i + 1);
      RetryRun(ExitOf(At(job, i).ending, s.traces, |job.chain|, i), s.spans, s.workspaces, s.clock)
  }

  // The attempt at which the loop stops: the first that is not retried.
  function StopsAt(job: Job, i: nat): (k: nat)
    requires i <= |job.chain|
    ensures i <= k <= |job.chain|
    ensures k < |job.chain| ==> At(job, k).ending != Retries
    ensures forall j: nat | i <= j < k :: At(job, j).ending == Retries
    decreases |job.chain| - i
  {
    hide At, Reach;
    if i < |job.chain| && At(job, i).ending == Retries then StopsAt(job, i + 1) else i
  }

  lemma {:induction false} RunsToStop(job: Job, i: nat)
    requires i <= |job.chain|
    ensures RunFrom(job, i) == RunFrom(job, StopsAt(job, i))
    decreases |job.chain| - i
  {
    hide At, Reach;
    if i < |job.chain| && At(job, i).ending == Retries {
      RunsToStop(job, i + 1);
    }
  }
}
