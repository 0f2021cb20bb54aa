// What an attempt and a run of the retry loop come to, in terms of the outside world alone.
module RetryMeaning {
  import opened Wrappers
  import opened RetryPlan

  // ---------- One attempt that starts at a given time ----------

  // The first check of the deadline passed and the workspace was made.
  predicate GetsWorkspace(job: Job, i: nat, before: int) {
    before + job.env(i).beforeCheck < Deadline(job) && !job.env(i).workspaceFails
  }

  // So did the second check.
  predicate SetsUp(job: Job, i: nat, before: int) {
    GetsWorkspace(job, i, before) && before + job.env(i).beforeCheck + job.env(i).makeWorkspace < Deadline(job)
  }

  // When the timeout of the attempt is fixed, what is left of the budget then, and the timeout.
  function FixedAt(job: Job, i: nat, before: int): int {
    before + job.env(i).beforeCheck + job.env(i).makeWorkspace + job.env(i).setup
  }

  function Remaining(job: Job, i: nat, before: int): int {
    Deadline(job) - FixedAt(job, i, before)
  }

  function Timeout(job: Job, i: nat, before: int): int {
    Min(job.config.timeoutPerAttemptMs, Max(0, Remaining(job, i, before)))
  }

  predicate Proceeds(job: Job, i: nat, before: int) {
    SetsUp(job, i, before) && !job.env(i).setupFails
  }

  // The provider is called exactly when there is time left and the engine gets as far as calling it.
  predicate CallsProvider(job: Job, i: nat, before: int) {
    Proceeds(job, i, before) && Timeout(job, i, before) > 0 && job.env(i).report.ProviderCalled?
  }

  function CallLength(job: Job, i: nat, before: int): int {
    if job.env(i).report.ProviderCalled? then Min(job.env(i).report.duration, Timeout(job, i, before)) else 0
  }

  // When the engine is done with the attempt.
  function EngineDone(job: Job, i: nat, before: int): int {
    FixedAt(job, i, before)
    + if Timeout(job, i, before) > 0 then job.env(i).lag + CallLength(job, i, before) else 0
  }

  function Answered(job: Job, i: nat, before: int): Option<ProviderResult>
    requires i < |job.chain|
  {
    if Proceeds(job, i, before) then Outcome(job.env(i), Timeout(job, i, before), job.chain[i]) else None
  }

  function CleanedAt(job: Job, i: nat, before: int): int {
    EngineDone(job, i, before) + job.env(i).afterCall + job.env(i).cleanup
  }

  // A retryable answer that nobody cancelled.
  predicate WouldRetry(job: Job, i: nat, before: int)
    requires i < |job.chain|
  {
    var r := Answered(job, i, before);
    r.Some? && !job.env(i).cancelled && r.value.status != Completed && Retryable(r.value)
  }

  predicate Pauses(job: Job, i: nat, before: int)
    requires i < |job.chain|
  {
    WouldRetry(job, i, before) && i < |job.chain| - 1 && CleanedAt(job, i, before) < Deadline(job)
  }

  function WokenAt(job: Job, i: nat, before: int): int {
    CleanedAt(job, i, before) + PauseLength(job.config, i, Deadline(job) - CleanedAt(job, i, before))
  }

  // The setup or the engine threw, and the deadline had not passed when that was caught.
  predicate Throws(job: Job, i: nat, before: int)
    requires i < |job.chain|
  {
    SetsUp(job, i, before) && (job.env(i).setupFails || Answered(job, i, before).None?)
  }

  function CaughtAt(job: Job, i: nat, before: int): int {
    (if job.env(i).setupFails then FixedAt(job, i, before) else EngineDone(job, i, before)) + job.env(i).catchDelay
  }

  function EndingOf(job: Job, i: nat, before: int): Ending
    requires i < |job.chain|
  {
    var r := Answered(job, i, before);
    if before + job.env(i).beforeCheck >= Deadline(job) then TimesOut
    else if job.env(i).workspaceFails then Escapes
    else if Throws(job, i, before) then if CaughtAt(job, i, before) < Deadline(job) then Breaks else TimesOut
    else if r.None? then TimesOut
    else if job.env(i).cancelled then IsCancelled
    else if r.value.status == Completed then Wins
    else if !Retryable(r.value) then IsRefused
    else if i == |job.chain| - 1 then Retries
    else if Pauses(job, i, before) && WokenAt(job, i, before) + job.env(i).afterSleep < Deadline(job) then Retries
    else TimesOut
  }

  function SpansOf(job: Job, i: nat, before: int): seq<Span>
    requires i < |job.chain|
  {
    var started := FixedAt(job, i, before) + job.env(i).lag;
    (if CallsProvider(job, i, before) then [Call(i, started, started + CallLength(job, i, before))] else [])
    + (if Pauses(job, i, before) then [Pause(i, CleanedAt(job, i, before), WokenAt(job, i, before))] else [])
  }

  function WorkspacesOf(job: Job, i: nat, before: int): seq<WorkspaceEvent>
    requires i < |job.chain|
  {
    if !GetsWorkspace(job, i, before) then []
    else [Made(i)] + if EndingOf(job, i, before) == Wins then [] else [Removed(i)]
  }

  // How an attempt ends, what it occupies of the clock, and which workspaces it makes and removes.
  lemma AttemptMeaning(job: Job, i: nat, before: int, executed: seq<string>)
    requires i < |job.chain|
    ensures var r := Attempt(job, i, before, executed);
            && r.ending == EndingOf(job, i, before) && r.spans == SpansOf(job, i, before)
            && r.workspaces == WorkspacesOf(job, i, before)
  {
    var e := job.env(i);
    var p := PrepareOf(e, i, Deadline(job), before);
    if p.setup == SetUp {
      ProceedingMeaning(job, i, before, executed);
    }
  }

  lemma ProceedingMeaning(job: Job, i: nat, before: int, executed: seq<string>)
    requires i < |job.chain| && Proceeds(job, i, before)
    ensures var r := Attempt(job, i, before, executed);
            && r.ending == EndingOf(job, i, before) && r.spans == SpansOf(job, i, before)
            && r.workspaces == WorkspacesOf(job, i, before)
  {
    hide Retryable, Outcome, PauseLength, Min, Max;
  }

  // ---------- A run ----------

  function Begins(job: Job, i: nat): int
    requires i <= |job.chain|
  {
    Reach(job, i).clock
  }

  function AllSpans(job: Job, n: nat): seq<Span>
    requires n <= |job.chain|
  {
    if n == 0 then [] else AllSpans(job, n - 1) + SpansOf(job, n - 1, Begins(job, n - 1))
  }

  function AllWorkspaces(job: Job, n: nat): seq<WorkspaceEvent>
    requires n <= |job.chain|
  {
    if n == 0 then [] else AllWorkspaces(job, n - 1) + WorkspacesOf(job, n - 1, Begins(job, n - 1))
  }

  lemma {:induction false} ReachMeaning(job: Job, n: nat)
    requires n <= |job.chain|
    ensures Reach(job, n).spans == AllSpans(job, n) && Reach(job, n).workspaces == AllWorkspaces(job, n)
  {
    hide Attempt, SpansOf, WorkspacesOf;
    if n > 0 {
      ReachMeaning(job, n - 1);
      AttemptMeaning(job, n - 1, Begins(job, n - 1), Reach(job, n - 1).executed);
    }
  }

  // Attempt i is made, all the ones before it having been retried.
  predicate IsMade(job: Job, i: nat) {
    i < |job.chain| && forall j: nat | j < i :: EndingOf(job, j, Begins(job, j)) == Retries
  }

  lemma EndingsAgree(job: Job, i: nat)
    requires i < |job.chain|
    ensures At(job, i).ending == EndingOf(job, i, Begins(job, i))
  {
    AttemptMeaning(job, i, Begins(job, i), Reach(job, i).executed);
  }

  function Whole(job: Job): RetryRun {
    RunFrom(job, 0)
  }

  // The number of attempts that are made.
  function Attempts(job: Job): nat {
    var k := StopsAt(job, 0);
    if k < |job.chain| then k + 1 else k
  }

  lemma MadeExactly(job: Job, i: nat)
    ensures IsMade(job, i) <==> i < Attempts(job)
  {
    hide EndingOf, At;
    var k := StopsAt(job, 0);
    forall j: nat | j < |job.chain|
      ensures At(job, j).ending == EndingOf(job, j, Begins(job, j))
    {
      EndingsAgree(job, j);
    }
  }

  // The whole run: the calls and pauses of the attempts that are made and of no others, their
  // workspaces, and the exit of the last of them.
  lemma RunMeaning(job: Job)
    ensures var n := Attempts(job);
            && n <= |job.chain| && Whole(job).spans == AllSpans(job, n) && Whole(job).workspaces == AllWorkspaces(job, n)
            && Whole(job).exit
               == if n == 0 || EndingOf(job, n - 1, Begins(job, n - 1)) == Retries
                  then Returned(AttemptResult(false, AllProvidersFailed, n, n, Reach(job, n).traces, None, false))
                  else ExitOf(EndingOf(job, n - 1, Begins(job, n - 1)), Reach(job, n).traces, |job.chain|, n - 1)
    ensures Attempts(job) == 0 || EndingOf(job, Attempts(job) - 1, Begins(job, Attempts(job) - 1)) == Retries
            ==> Attempts(job) == |job.chain|
  {
    hide Attempt, At, Reach, EndingOf;
    var k := StopsAt(job, 0);
    RunsToStop(job, 0);
    ReachMeaning(job, Attempts(job));
    if Attempts(job) > 0 {
      EndingsAgree(job, Attempts(job) - 1);
    }
  }

  // The last attempt made is the one with the given ending.
  ghost predicate StopsWith(job: Job, ending: Ending) {
    exists i: nat :: IsMade(job, i) && EndingOf(job, i, Begins(job, i)) == ending
  }

  lemma StopsWithLast(job: Job, ending: Ending)
    requires ending != Retries
    ensures StopsWith(job, ending) <==>
            Attempts(job) > 0 && EndingOf(job, Attempts(job) - 1, Begins(job, Attempts(job) - 1)) == ending
  {
    hide EndingOf, Attempts;
    if Attempts(job) > 0 {
      MadeExactly(job, Attempts(job) - 1);
    }
    if StopsWith(job, ending) {
      var i: nat :| IsMade(job, i) && EndingOf(job, i, Begins(job, i)) == ending;
      MadeExactly(job, i);
    }
  }

  // The run is completed exactly when some attempt, made after only retried ones, passes both
  // checks of the deadline, gets its workspace and its setup, and is answered Completed and not
  // cancelled; and it reports a setup failure exactly when some such attempt throws and the
  // deadline has not passed when that is caught.
  lemma ExitMeaning(job: Job)
    ensures var exit := Whole(job).exit;
            && (exit.Escaped? <==> StopsWith(job, Escapes))
            && (exit.Returned? ==>
                  && (exit.result.completed <==> StopsWith(job, Wins))
                  && (exit.result.reason == SetupFailed <==> StopsWith(job, Breaks))
                  && (exit.result.reason == WorkerCancelled <==> StopsWith(job, IsCancelled))
                  && (exit.result.reason == ProviderFailed <==> StopsWith(job, IsRefused))
                  && (exit.result.timedOut <==> StopsWith(job, TimesOut))
                  && (exit.result.reason == AllProvidersFailed <==>
                      && Attempts(job) == |job.chain|
                      && (job.chain == [] || EndingOf(job, |job.chain| - 1, Begins(job, |job.chain| - 1)) == Retries)))
  {
    hide EndingOf, Attempts, StopsWith, Reach;
    RunMeaning(job);
    StopsWithLast(job, Escapes);
    StopsWithLast(job, Wins);
    StopsWithLast(job, Breaks);
    StopsWithLast(job, IsCancelled);
    StopsWithLast(job, IsRefused);
    StopsWithLast(job, TimesOut);
  }

  // The winning attempt, spelled out.
  lemma WinsExactlyWhen(job: Job, i: nat, before: int)
    requires i < |job.chain|
    ensures var e, made := job.env(i), before + job.env(i).beforeCheck + job.env(i).makeWorkspace;
            EndingOf(job, i, before) == Wins <==>
            && before + e.beforeCheck < Deadline(job) && !e.workspaceFails && made < Deadline(job) && !e.setupFails
            && !e.cancelled && Outcome(e, Timeout(job, i, before), job.chain[i]).Some?
            && Outcome(e, Timeout(job, i, before), job.chain[i]).value.status == Completed
  {
  }

  // The attempt that ends in a setup failure, spelled out.
  lemma BreaksExactlyWhen(job: Job, i: nat, before: int)
    requires i < |job.chain|
    ensures var e, made := job.env(i), before + job.env(i).beforeCheck + job.env(i).makeWorkspace;
            EndingOf(job, i, before) == Breaks <==>
            && before + e.beforeCheck < Deadline(job) && !e.workspaceFails && made < Deadline(job)
            && (e.setupFails || Outcome(e, Timeout(job, i, before), job.chain[i]).None?)
            && CaughtAt(job, i, before) < Deadline(job)
  {
  }

  lemma OneCall(job: Job, i: nat, before: int)
    requires i < |job.chain|
    ensures forall s | s in SpansOf(job, i, before) :: s.attempt == i
    ensures forall s | s in SpansOf(job, i, before) && s.Call? :: CallsProvider(job, i, before) && s == SpansOf(job, i, before)[0]
    ensures CallsProvider(job, i, before) ==> exists s :: s in SpansOf(job, i, before) && s.Call?
  {
    hide FixedAt, CallsProvider, Pauses, CallLength, CleanedAt, WokenAt;
    if CallsProvider(job, i, before) {
      assert SpansOf(job, i, before)[0] in SpansOf(job, i, before);
    }
  }

  // Each attempt that is made has exactly one call if it calls its provider and none otherwise.
  lemma {:induction false} CallsOf(job: Job, n: nat, i: nat)
    requires n <= |job.chain|
    ensures (exists s :: s in AllSpans(job, n) && s.Call? && s.attempt == i) <==> i < n && CallsProvider(job, i, Begins(job, i))
    ensures forall s :: s in AllSpans(job, n) && s.Call? && s.attempt == i ==>
                          i < n && s == SpansOf(job, i, Begins(job, i))[0]
  {
    hide Reach, SpansOf, CallsProvider;
    if n > 0 {
      CallsOf(job, n - 1, i);
      var last := SpansOf(job, n - 1, Begins(job, n - 1));
      OneCall(job, n - 1, Begins(job, n - 1));
      assert forall s :: s in AllSpans(job, n) <==> s in AllSpans(job, n - 1) || s in last;
    }
  }
}
