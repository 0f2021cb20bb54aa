// What one controller cycle comes to, in terms of the worker's outcome and the stored rows alone
// (executeCycle in src/office/autonomous-execution-controller.ts).
module CycleMeaning {
  import opened Wrappers
  import opened MissionLoop
  import opened MissionController
  import opened MissionRuns
  import opened MissionCrashes
  import opened MissionRecovery

  predicate HasStatus(caps: Capabilities, t: string, status: CapabilityStatus) {
    t in caps && caps[t].status == status
  }

  // An update sets one status. A registered capability keeps its other fields; an unregistered one
  // becomes execution work without dependencies.
  lemma UpdateIsExact(caps: Capabilities, t: string, status: CapabilityStatus)
    ensures var after := ApplyStateUpdate(caps, t, status);
            && after.Keys == caps.Keys + {t} && HasStatus(after, t, status)
            && (forall k | k in caps && k != t :: after[k] == caps[k])
            && (if t in caps then after[t].id == caps[t].id && after[t].category == caps[t].category
                                  && after[t].dependencies == caps[t].dependencies
                else after[t].id == t && after[t].category == Execution && after[t].dependencies == [])
  {
  }

  // ---------- A cycle that calls the worker ----------

  // The target is verified afterwards exactly when the worker completed, a finalizer, if there is
  // one, completed without failed tests, error message or validation errors, and there is a file,
  // a commit or a snippet to show. It is marked partial exactly when the worker failed or completed
  // without that, and left alone when the worker was blocked.
  lemma VerifiedExactlyWhen(m: Mission, n: nat, state: SystemState, env: Env)
    requires WellKeyed(state.capabilities) && PlanFresh(m, n, state, env).workerCalled
    requires NextAction(state.capabilities, m.targets).target != ""
    ensures var t, o := NextAction(state.capabilities, m.targets).target, env.outcome;
            var next := PlanFresh(m, n, state, env).nextState.capabilities;
            && !HasStatus(state.capabilities, t, Verified)
            && (HasStatus(next, t, Verified) <==>
                && o.status == OutcomeCompleted
                && (o.finalize.None? || (
                      && o.finalize.value.status == FinalizeCompleted && o.finalize.value.testsPassed != Some(false)
                      && o.finalize.value.errorMessage in {None, Some("")}
                      && o.finalize.value.validationErrors in {None, Some([])}))
                && (|| o.changedFiles !in {None, Some([])}
                    || (o.finalize.Some? && o.finalize.value.commitSha !in {None, Some("")})
                    || o.evidenceSnippet !in {None, Some("")}))
            && (if o.status == OutcomeBlocked then next == state.capabilities
                else HasStatus(next, t, Verified) || HasStatus(next, t, Partial))
            && (forall k | k in state.capabilities && k != t :: k in next && next[k] == state.capabilities[k])
  {
    ActionMeaning(state.capabilities, m.targets);
    var t := NextAction(state.capabilities, m.targets).target;
    UpdateIsExact(state.capabilities, t, Verified);
    UpdateIsExact(state.capabilities, t, Partial);
    AcceptedOutcome(env.outcome);
    hide NextAction, ApplyStateUpdate, WellKeyed, Verifies;
  }

  // What such a cycle reports and stores.
  lemma ExecutionReport(m: Mission, n: nat, state: SystemState, env: Env)
    requires PlanFresh(m, n, state, env).workerCalled && NextAction(state.capabilities, m.targets).target != ""
    ensures var t, o := NextAction(state.capabilities, m.targets).target, env.outcome;
            var plan := PlanFresh(m, n, state, env);
            && plan.missionStatus == m.status && plan.result.taskId == Some(env.taskId)
            && (o.status == OutcomeBlocked ==>
                  plan.result == CycleResult(ExecBlocked, BlockedValidation, Some(env.taskId), None, true, Some(EnvironmentBlocked)))
            && (o.status == OutcomeFailed ==>
                  && plan.result.execution == ExecFailed && plan.result.validation == FailedValidation
                  && plan.result.updated == Some(t)
                  && plan.result.stopReason == if m.riskPolicy == Strict then Some(UnrecoverableFailure) else None)
            && (o.status == OutcomeCompleted ==>
                  && plan.result.execution == ExecCompleted && plan.result.updated == Some(t) && plan.result.stopReason == None
                  && plan.result.validation == if HasStatus(plan.nextState.capabilities, t, Verified) then Passed else FailedValidation)
  {
    var t := NextAction(state.capabilities, m.targets).target;
    UpdateIsExact(state.capabilities, t, Verified);
    UpdateIsExact(state.capabilities, t, Partial);
    hide NextAction, ApplyStateUpdate;
  }

  // The record of a new cycle once all is written: COMPLETED exactly when the target was verified.
  lemma ExecutionRecord(m: Mission, init: SystemState, d: Durable, n: nat, env: Env)
    requires Current(m, init, d).missionId == m.id && (m.id, n) !in d.cycles
    requires PlanFresh(m, n, Current(m, init, d), env).workerCalled
    requires NextAction(Current(m, init, d).capabilities, m.targets).target != ""
    ensures var t := NextAction(Current(m, init, d).capabilities, m.targets).target;
            var plan := PlanFresh(m, n, Current(m, init, d), env);
            var left := ApplyAll(d, plan.writes);
            && Current(m, init, left) == plan.nextState && (m.id, n) in left.cycles
            && var rec := left.cycles[(m.id, n)];
            && rec.target == Some(t) && rec.taskId == Some(env.taskId)
            && rec.execution == Some(plan.result.execution) && rec.validation == Some(plan.result.validation)
            && rec.stopReason == plan.result.stopReason
            && rec.status == if env.outcome.status == OutcomeBlocked then CycleBlocked
                             else if HasStatus(plan.nextState.capabilities, t, Verified) then CycleCompleted
                             else CycleFailed
  {
    var s := Current(m, init, d);
    var t := NextAction(s.capabilities, m.targets).target;
    FreshExecution(m, n, s, env);
    StageReached(m, init, d, n, t, env, 8);
    AllWrites(m, n, s, t, env);
    ExecutionReport(m, n, s, env);
    VerifiedRecord(m, s, t, env.outcome);
    hide NextAction, ApplyStateUpdate, ExecuteWrites, ApplyAll, PlanFresh, HasStatus, StateAfter;
  }

  lemma FreshExecution(m: Mission, n: nat, s: SystemState, env: Env)
    requires PlanFresh(m, n, s, env).workerCalled
    ensures PlanFresh(m, n, s, env) == PlanExecution(m, n, s, NextAction(s.capabilities, m.targets).target, env)
  {
    hide NextAction, PlanExecution;
  }

  lemma AllWrites(m: Mission, n: nat, s: SystemState, t: string, env: Env)
    ensures ExecuteWrites(m, n, s, t, env)[..8] == ExecuteWrites(m, n, s, t, env)
  {
    hide StateAfter, FinalPatch;
  }

  lemma VerifiedRecord(m: Mission, s: SystemState, t: string, o: Outcome)
    requires t != ""
    ensures HasStatus(StateAfter(s, t, o).capabilities, t, Verified) && o.status == OutcomeCompleted <==> Verifies(o)
    ensures FinalPatch(m, o).status == Some(if o.status == OutcomeBlocked then CycleBlocked
                                            else if Verifies(o) then CycleCompleted else CycleFailed)
  {
    UpdateIsExact(s.capabilities, t, Verified);
    UpdateIsExact(s.capabilities, t, Partial);
    hide ApplyStateUpdate;
  }

  // ---------- A cycle that does not ----------

  // Which of the four other ways a fresh cycle takes.
  lemma FreshExits(m: Mission, n: nat, state: SystemState, env: Env)
    requires WellKeyed(state.capabilities)
    ensures var caps := state.capabilities;
            var plan := PlanFresh(m, n, state, env);
            var open := exists t :: t in m.targets && !HasStatus(caps, t, Verified);
            var stuck := forall t | t in m.targets :: !ReadyToAdvance(caps, t);
            var t := NextAction(caps, m.targets);
            var foundation := t.Advance? && t.target in caps && caps[t.target].category in {Foundation, Context};
            && (n > m.maxCycles ==>
                  plan.result == CycleResult(ExecBlocked, NotRun, None, None, true, Some(MaxCyclesReached))
                  && plan.missionStatus == MissionPaused
                  && plan.writes == [UpdateMission(m.id, MissionPaused)])
            && (n <= m.maxCycles && !open ==>
                  plan.result == CycleResult(ExecCompleted, Passed, None, None, true, Some(AllTargetsVerified))
                  && plan.missionStatus == MissionFinished
                  && plan.writes == [UpdateMission(m.id, MissionFinished)])
            && (n <= m.maxCycles && open && stuck ==>
                  plan.result == CycleResult(ExecBlocked, BlockedValidation, None, None, true, Some(NoActionableGap))
                  && plan.missionStatus == MissionBlocked
                  && plan.writes == [UpdateMission(m.id, MissionBlocked)])
            && (n <= m.maxCycles && open && !stuck && foundation ==>
                  plan.result == CycleResult(ExecWaiting, NotRun, None, None, true, Some(AwaitingApproval))
                  && plan.missionStatus == m.status && !plan.workerCalled)
            && (plan.workerCalled <==> n <= m.maxCycles && open && !stuck && !foundation)
            && (!plan.workerCalled ==> plan.result.stopped && plan.nextState == state && plan.result.updated == None)
  {
    ActionMeaning(state.capabilities, m.targets);
    hide NextAction, ReadyToAdvance, WellKeyed;
  }

  // A cycle that needs approval is stored WAITING_APPROVAL, and from then on every call of it
  // answers so without writing anything.
  lemma WaitsForApproval(m: Mission, init: SystemState, d: Durable, n: nat, env: Env, later: Env)
    requires (m.id, n) !in d.cycles
    requires PlanFresh(m, n, Current(m, init, d), env).result.stopReason == Some(AwaitingApproval)
    ensures var left := ApplyAll(d, PlanFresh(m, n, Current(m, init, d), env).writes);
            && (m.id, n) in left.cycles && left.cycles[(m.id, n)].status == CycleWaiting
            && left.cycles[(m.id, n)].stopReason == Some(AwaitingApproval)
            && left.cycles[(m.id, n)].execution == Some(ExecWaiting) && left.cycles[(m.id, n)].validation == Some(NotRun)
            && left.cycles[(m.id, n)].target == Some(NextAction(Current(m, init, d).capabilities, m.targets).target)
            && left.states == d.states
            && CyclePlanOf(m, init, left, n, later).writes == [] && !CyclePlanOf(m, init, left, n, later).workerCalled
            && CyclePlanOf(m, init, left, n, later).result == CycleResult(ExecWaiting, NotRun, None, None, true, Some(AwaitingApproval))
  {
    var ws := PlanFresh(m, n, Current(m, init, d), env).writes;
    NeedsTwoWrites(m, n, Current(m, init, d), env);
    assert ws == [ws[0], ws[1]];
    TwoApplied(d, ws[0], ws[1]);
    hide NextAction, PlanFresh, ApplyAll, PlanRecovery, PlanReplay, PlanDuplicate, Truthy;
  }

  lemma NeedsTwoWrites(m: Mission, n: nat, state: SystemState, env: Env)
    requires PlanFresh(m, n, state, env).result.stopReason == Some(AwaitingApproval)
    ensures var ws := PlanFresh(m, n, state, env).writes;
            |ws| == 2 && ws[1] == UpdateCycle((m.id, n), WaitingPatch)
            && ws[0] == AcquireCycle((m.id, n), NextAction(state.capabilities, m.targets).target)
  {
    hide NextAction, Verifies;
  }

  // ---------- A cycle found RUNNING after a crash ----------

  lemma RecoveredWrites(m: Mission, init: SystemState, d: Durable, n: nat, t: string, env: Env)
    requires (m.id, n) in d.cycles && d.cycles[(m.id, n)].status == CycleRunning && d.cycles[(m.id, n)].target == Some(t)
    requires t != "" && Current(m, init, d).missionId == m.id && RowVerified(d, d.cycles[(m.id, n)].taskId)
    ensures var plan := CyclePlanOf(m, init, d, n, env);
            var left := ApplyAll(d, plan.writes);
            && !plan.workerCalled && Current(m, init, left) == plan.nextState && (m.id, n) in left.cycles
            && plan.nextState.capabilities == ApplyStateUpdate(Current(m, init, d).capabilities, t, Verified)
            && plan.result == CycleResult(ExecCompleted, Passed, d.cycles[(m.id, n)].taskId, Some(t), false, None)
            && left.cycles[(m.id, n)] == d.cycles[(m.id, n)].(status := CycleCompleted, execution := Some(ExecCompleted),
                                                              validation := Some(Passed))
  {
    var s := Current(m, init, d);
    var next := s.(capabilities := ApplyStateUpdate(s.capabilities, t, Verified));
    RecoveredPlan(m, init, d, n, t, env);
    TwoApplied(d, SaveState(next), UpdateCycle((m.id, n), RecoveredPatch));
    hide ApplyStateUpdate, ApplyAll, RowVerified, CyclePlanOf;
  }

  lemma RecoveredPlan(m: Mission, init: SystemState, d: Durable, n: nat, t: string, env: Env)
    requires (m.id, n) in d.cycles && d.cycles[(m.id, n)].status == CycleRunning && d.cycles[(m.id, n)].target == Some(t)
    requires t != "" && RowVerified(d, d.cycles[(m.id, n)].taskId)
    ensures var plan, s := CyclePlanOf(m, init, d, n, env), Current(m, init, d);
            && plan.nextState == s.(capabilities := ApplyStateUpdate(s.capabilities, t, Verified))
            && plan.writes == [SaveState(plan.nextState), UpdateCycle((m.id, n), RecoveredPatch)]
            && !plan.workerCalled
            && plan.result == CycleResult(ExecCompleted, Passed, d.cycles[(m.id, n)].taskId, Some(t), false, None)
  {
    hide ApplyStateUpdate, RowVerified;
  }

  lemma TwoApplied(d: Durable, first: Write, second: Write)
    ensures ApplyAll(d, [first, second]) == Apply(Apply(d, first), second)
  {
    NothingApplied(d);
    ApplyAllMore(d, [], first);
    ApplyAllMore(d, [] + [first], second);
    assert [] + [first] + [second] == [first, second];
    hide ApplyAll, Apply;
  }

  lemma NothingApplied(d: Durable)
    ensures ApplyAll(d, []) == d
  {
  }

  lemma FailedWrites(m: Mission, init: SystemState, d: Durable, n: nat, env: Env)
    requires (m.id, n) in d.cycles && d.cycles[(m.id, n)].status == CycleRunning && !RowVerified(d, d.cycles[(m.id, n)].taskId)
    ensures var plan := CyclePlanOf(m, init, d, n, env);
            var left := ApplyAll(d, plan.writes);
            && !plan.workerCalled && plan.nextState == Current(m, init, d) && Current(m, init, left) == plan.nextState
            && (m.id, n) in left.cycles
            && left.cycles[(m.id, n)] == d.cycles[(m.id, n)].(status := CycleFailed, execution := Some(ExecFailed),
                                                              validation := Some(FailedValidation),
                                                              stopReason := Some(CrashRecoveryRequired))
            && plan.result == CycleResult(ExecFailed, FailedValidation,
                                          if d.cycles[(m.id, n)].taskId in {None, Some("")} then None else d.cycles[(m.id, n)].taskId,
                                          None, true, Some(CrashRecoveryRequired))
  {
    PresentText(d.cycles[(m.id, n)].taskId);
    NothingApplied(d);
    ApplyAllMore(d, [], UpdateCycle((m.id, n), CrashedPatch));
    assert [] + [UpdateCycle((m.id, n), CrashedPatch)] == [UpdateCycle((m.id, n), CrashedPatch)];
    hide ApplyAll, RowVerified;
  }

  // Recovery verifies the target, and stores the cycle COMPLETED, exactly when the task row is
  // completed, a finalizer, if there is one, completed without failed tests or error message, and
  // the row has a file or a commit to show. Otherwise it stores FAILED and changes no state.
  lemma RecoveredExactlyWhen(m: Mission, init: SystemState, d: Durable, n: nat, t: string, env: Env)
    requires (m.id, n) in d.cycles && d.cycles[(m.id, n)].status == CycleRunning && d.cycles[(m.id, n)].target == Some(t)
    requires t != "" && Current(m, init, d).missionId == m.id && !HasStatus(Current(m, init, d).capabilities, t, Verified)
    ensures var plan := CyclePlanOf(m, init, d, n, env);
            var left := ApplyAll(d, plan.writes);
            var taskId := d.cycles[(m.id, n)].taskId;
            && !plan.workerCalled && Current(m, init, left) == plan.nextState && (m.id, n) in left.cycles
            && (HasStatus(plan.nextState.capabilities, t, Verified) <==>
                && taskId.Some? && taskId.value != "" && taskId.value in d.tasks
                && var row := d.tasks[taskId.value];
                && row.completed
                && (row.finalize.None? || (
                      && row.finalize.value.status == FinalizeCompleted && row.finalize.value.testsPassed != Some(false)
                      && row.finalize.value.errorMessage in {None, Some("")}))
                && (|| (row.finalize.Some? && row.finalize.value.changedFiles !in {None, Some([])})
                    || row.commitSha !in {None, Some("")}
                    || row.resultChangedFiles !in {None, Some([])}))
            && (if HasStatus(plan.nextState.capabilities, t, Verified)
                then
                  && plan.result == CycleResult(ExecCompleted, Passed, taskId, Some(t), false, None)
                  && left.cycles[(m.id, n)] == d.cycles[(m.id, n)].(status := CycleCompleted, execution := Some(ExecCompleted),
                                                                    validation := Some(Passed))
                else
                  && plan.nextState == Current(m, init, d)
                  && plan.result == CycleResult(ExecFailed, FailedValidation, if taskId in {None, Some("")} then None else taskId,
                                                None, true, Some(CrashRecoveryRequired))
                  && left.cycles[(m.id, n)] == d.cycles[(m.id, n)].(status := CycleFailed, execution := Some(ExecFailed),
                                                                    validation := Some(FailedValidation),
                                                                    stopReason := Some(CrashRecoveryRequired)))
  {
    var taskId := d.cycles[(m.id, n)].taskId;
    PresentText(taskId);
    if taskId.Some? && taskId.value in d.tasks {
      AcceptedRow(d.tasks[taskId.value]);
    }
    UpdateIsExact(Current(m, init, d).capabilities, t, Verified);
    hide ApplyStateUpdate, ApplyAll, RecoveryVerifies, Truthy, HasStatus, CyclePlanOf;
    if RowVerified(d, taskId) {
      RecoveredWrites(m, init, d, n, t, env);
    } else {
      FailedWrites(m, init, d, n, env);
    }
  }

  // ---------- The worker adapter ----------

  lemma AdapterFields(executed: bool, row: Option<TaskRow>)
    ensures var o := AdapterOutcome(executed, row);
            && (o.status == OutcomeBlocked <==> !executed)
            && (o.status == OutcomeCompleted <==> executed && row.Some? && row.value.completed)
            && (executed && row.Some? ==>
                  && o.finalize == row.value.finalize
                  && (o.evidenceSnippet !in {None, Some("")} <==> row.value.commitSha !in {None, Some("")})
                  && (o.changedFiles !in {None, Some([])} <==>
                      if row.value.finalize.Some? && row.value.finalize.value.changedFiles.Some?
                      then row.value.finalize.value.changedFiles != Some([])
                      else if row.value.finalize.Some? && row.value.finalize.value.declaredChangedFiles.Some?
                      then row.value.finalize.value.declaredChangedFiles != Some([])
                      else row.value.resultChangedFiles !in {None, Some([])}))
  {
    if executed && row.Some? {
      var o := AdapterOutcome(executed, row);
      PresentText(row.value.commitSha);
      PresentText(o.evidenceSnippet);
      assert o.evidenceSnippet.Some? ==> |o.evidenceSnippet.value| >= |"Commit SHA: "| > 0;
    }
  }

  // A cycle whose outcome the adapter derives from the worker's row verifies its target exactly
  // when the worker ran, the row is completed, the finalizer is as above, and there is a commit or
  // a changed file in the first list present: the finalizer's, the declared ones, the result's.
  lemma AdapterVerifiesExactlyWhen(m: Mission, n: nat, state: SystemState, env: Env, executed: bool, row: Option<TaskRow>)
    requires WellKeyed(state.capabilities) && PlanFresh(m, n, state, env).workerCalled
    requires NextAction(state.capabilities, m.targets).target != "" && env.outcome == AdapterOutcome(executed, row)
    ensures var t := NextAction(state.capabilities, m.targets).target;
            var plan := PlanFresh(m, n, state, env);
            && (plan.result.execution == ExecBlocked <==> !executed)
            && (HasStatus(plan.nextState.capabilities, t, Verified) <==>
                && executed && row.Some? && row.value.completed
                && (row.value.finalize.None? || (
                      var f := row.value.finalize.value;
                      && f.status == FinalizeCompleted && f.testsPassed != Some(false)
                      && f.errorMessage in {None, Some("")} && f.validationErrors in {None, Some([])}))
                && (|| row.value.commitSha !in {None, Some("")}
                    || (row.value.finalize.Some? && row.value.finalize.value.commitSha !in {None, Some("")})
                    || (if row.value.finalize.Some? && row.value.finalize.value.changedFiles.Some?
                        then row.value.finalize.value.changedFiles != Some([])
                        else if row.value.finalize.Some? && row.value.finalize.value.declaredChangedFiles.Some?
                        then row.value.finalize.value.declaredChangedFiles != Some([])
                        else row.value.resultChangedFiles !in {None, Some([])})))
  {
    VerifiedExactlyWhen(m, n, state, env);
    ExecutionReport(m, n, state, env);
    AdapterFields(executed, row);
    hide PlanFresh, NextAction, WellKeyed, HasStatus, AdapterOutcome;
  }

  // ---------- A cycle stored COMPLETED ----------

  // It is answered from the store, with the last saved state if there is one, also while it is being
  // executed.
  lemma ReplayedAnswer(m: Mission, d: Durable, rec: CycleRecord, active: bool, n: nat, state: SystemState, env: Env)
    requires rec.status == CycleCompleted
    ensures var plan := Plan(m, d, Some(rec), active, n, state, env);
            && plan.nextState == (if m.id in d.states then d.states[m.id] else state)
            && plan.writes == [] && plan.missionStatus == m.status && !plan.workerCalled
            && plan.result.execution == (if rec.execution.Some? then rec.execution.value else ExecCompleted)
            && plan.result.validation == (if rec.validation.Some? then rec.validation.value else Passed)
            && plan.result.taskId == (if rec.taskId in {None, Some("")} then None else rec.taskId)
            && plan.result.stopReason == rec.stopReason && plan.result.updated == None
            && (plan.result.stopped <==> rec.stopReason.Some?)
  {
    PresentText(rec.taskId);
  }

  // ---------- The continuous loop ----------

  // It ends with the first cycle that stops, or after its limit.
  lemma {:induction false} EndsWithFirstStop(m: Mission, durable: bool, d: Durable, n: nat, max: nat, state: SystemState, env: nat -> Env)
    requires n <= max
    ensures var cycles := Loop(m, durable, d, n, max, state, env).cycles;
            && 0 < |cycles| <= max + 1 - n
            && (forall i | 0 <= i < |cycles| - 1 :: !cycles[i].stopped)
            && (|cycles| < max + 1 - n ==> cycles[|cycles| - 1].stopped)
    decreases max - n
  {
    hide Loop, Kept, ApplyAll, LoopPlan;
    var plan := LoopPlan(m, durable, d, n, state, env);
    var next, world := m.(status := plan.missionStatus), ApplyAll(d, Kept(durable, plan.writes));
    LoopStep(m, durable, d, n, max, state, env);
    if !plan.result.stopped {
      if n < max {
        EndsWithFirstStop(next, durable, world, n + 1, max, plan.nextState, env);
      } else {
        LoopEnd(next, durable, world, n + 1, max, plan.nextState, env);
      }
    }
  }

  // The limit is the caller's, else the mission's, else five.
  lemma AtMostSoManyCycles(m: Mission, durable: bool, d: Durable, maxOption: nat, state: SystemState, env: nat -> Env)
    ensures var cycles := Loop(m, durable, d, 1, CycleLimit(m, maxOption), state, env).cycles;
            var limit := if maxOption > 0 then maxOption else if m.maxCycles > 0 then m.maxCycles else 5;
            0 < |cycles| <= limit && (|cycles| < limit ==> cycles[|cycles| - 1].stopped)
  {
    hide Loop;
    EndsWithFirstStop(m, durable, d, 1, CycleLimit(m, maxOption), state, env);
  }

  // ---------- A second call at the same time ----------

  // While a cycle is being executed, another call of it that is not answered from the store is
  // refused without touching anything.
  lemma SecondCallIsRefused(m: Mission, d: Durable, existing: Option<CycleRecord>, n: nat, state: SystemState, env: Env)
    requires existing.Some? ==> existing.value.status !in {CycleCompleted, CycleWaiting}
    ensures var plan := Plan(m, d, existing, true, n, state, env);
            && plan.writes == [] && !plan.workerCalled && plan.nextState == state && plan.missionStatus == m.status
            && plan.result == CycleResult(ExecBlocked, NotRun, None, None, true, Some(DuplicateCycleCall))
  {
  }
}
