// Whole missions: what no cycle loses, when a mission ends, and what a crash between any two
// writes leaves behind.
module MissionRuns {
  import opened Wrappers
  import opened Graphs
  import opened MissionLoop
  import opened MissionController

  // ---------- Every cycle, whatever the worker does ----------

  // One fresh cycle: no verified capability is lost, closure is kept, and a failed validation
  // leaves the same capability selected.
  lemma CycleKeepsVerified(m: Mission, n: nat, state: SystemState, env: Env)
    requires WellKeyed(state.capabilities)
    ensures var next := PlanFresh(m, n, state, env).nextState.capabilities;
            && WellKeyed(next) && VerifiedIds(state.capabilities) <= VerifiedIds(next)
            && (DependencyClosed(state.capabilities) ==> DependencyClosed(next))
    ensures var plan := PlanFresh(m, n, state, env);
            plan.workerCalled && plan.result.validation == FailedValidation && NextAction(state.capabilities, m.targets).target != "" ==>
              Selects(plan.nextState.capabilities, m.targets, NextAction(state.capabilities, m.targets).target)
  {
    var caps := state.capabilities;
    var plan := PlanFresh(m, n, state, env);
    if plan.workerCalled {
      var t := NextAction(caps, m.targets).target;
      ActionMeaning(caps, m.targets);
      if Verifies(env.outcome) && t != "" {
        UpdateKeepsVerified(caps, t, Verified);
        if DependencyClosed(caps) {
          UpdateKeepsClosed(caps, t, Verified);
        }
      } else if ValidationOf(env.outcome) == FailedValidation && t != "" {
        UpdateKeepsVerified(caps, t, Partial);
        FailureIsRetried(caps, m.targets);
        if DependencyClosed(caps) {
          UpdateKeepsClosed(caps, t, Partial);
        }
      }
    }
  }

  ghost predicate Selects(caps: Capabilities, targets: seq<string>, t: string) {
    NextAction(caps, targets).Advance? && NextAction(caps, targets).target == t
  }

  // The whole continuous loop without a repository.
  lemma {:induction false} LoopKeepsVerified(m: Mission, d: Durable, n: nat, max: nat, state: SystemState, env: nat -> Env)
    requires WellKeyed(state.capabilities)
    ensures var final := Loop(m, false, d, n, max, state, env).state.capabilities;
            && WellKeyed(final) && VerifiedIds(state.capabilities) <= VerifiedIds(final)
            && (DependencyClosed(state.capabilities) ==> DependencyClosed(final))
    decreases max + 1 - n
  {
    hide DependencyClosed, WellKeyed, VerifiedIds, ApplyAll, Loop, PlanFresh, NextAction;
    if n > max {
      LoopEnd(m, false, d, n, max, state, env);
    } else {
      var plan := LoopPlan(m, false, d, n, state, env);
      CycleKeepsVerified(m, n, state, env(n));
      LoopStep(m, false, d, n, max, state, env);
      if !plan.result.stopped {
        LoopKeepsVerified(m.(status := plan.missionStatus), ApplyAll(d, Kept(false, plan.writes)), n + 1, max, plan.nextState,
                          env);
      }
    }
  }

  // What a cycle of the loop leaves behind when its validation failed: the next one, if there is
  // one, works on the same capability or stops.
  ghost predicate RetriesFailures(cycles: seq<CycleResult>) {
    forall i :: 0 <= i < |cycles| - 1 && cycles[i].validation == FailedValidation && cycles[i].updated.Some?
                ==> cycles[i + 1].updated == cycles[i].updated || (cycles[i + 1].updated == None && cycles[i + 1].stopped)
  }

  lemma NextCycleRetries(m: Mission, n: nat, state: SystemState, env: Env, later: Env)
    requires WellKeyed(state.capabilities)
    ensures var first := PlanFresh(m, n, state, env);
            var second := PlanFresh(m.(status := first.missionStatus), n + 1, first.nextState, later).result;
            first.result.validation == FailedValidation && first.result.updated.Some? ==>
              second.updated == first.result.updated || (second.updated == None && second.stopped)
  {
    hide Verifies, NextAction, ApplyStateUpdate, WellKeyed, VerifiedIds;
    CycleKeepsVerified(m, n, state, env);
    WorkerWasCalled(m, n, state, env);
  }

  lemma WorkerWasCalled(m: Mission, n: nat, state: SystemState, env: Env)
    ensures var plan := PlanFresh(m, n, state, env);
            plan.result.updated.Some? ==>
              plan.workerCalled && plan.result.updated == Some(NextAction(state.capabilities, m.targets).target)
              && NextAction(state.capabilities, m.targets).target != ""
  {
    hide NextAction, Verifies;
  }

  lemma RetriesMore(first: CycleResult, rest: seq<CycleResult>)
    requires RetriesFailures(rest)
    requires rest != [] && first.validation == FailedValidation && first.updated.Some? ==>
               rest[0].updated == first.updated || (rest[0].updated == None && rest[0].stopped)
    ensures RetriesFailures([first] + rest)
  {
    var all := [first] + rest;
    assert forall i :: 0 < i < |all| ==> all[i] == rest[i - 1];
  }

  // Over the whole loop without a repository, every failed validation is retried next.
  lemma {:induction false} LoopRetriesFailures(m: Mission, d: Durable, n: nat, max: nat, state: SystemState, env: nat -> Env)
    requires WellKeyed(state.capabilities)
    ensures RetriesFailures(Loop(m, false, d, n, max, state, env).cycles)
    decreases max + 1 - n
  {
    hide RetriesFailures, WellKeyed, VerifiedIds, ApplyAll, Loop, PlanFresh, NextAction;
    NoneRetried();
    if n > max {
      LoopEnd(m, false, d, n, max, state, env);
    } else {
      var plan := LoopPlan(m, false, d, n, state, env);
      var m', d' := m.(status := plan.missionStatus), ApplyAll(d, Kept(false, plan.writes));
      FreshPlan(m, false, d, n, state, env);
      CycleKeepsVerified(m, n, state, env(n));
      LoopStep(m, false, d, n, max, state, env);
      if plan.result.stopped {
        RetriesMore(plan.result, []);
      } else {
        LoopRetriesFailures(m', d', n + 1, max, plan.nextState, env);
        FirstOfLoop(m', d', n + 1, max, plan.nextState, env);
        NextCycleRetries(m, n, state, env(n), env(n + 1));
        RetriesMore(plan.result, Loop(m', false, d', n + 1, max, plan.nextState, env).cycles);
      }
    }
  }

  lemma NoneRetried()
    ensures RetriesFailures([])
  {
  }

  lemma FirstOfLoop(m: Mission, d: Durable, n: nat, max: nat, state: SystemState, env: nat -> Env)
    ensures var cycles := Loop(m, false, d, n, max, state, env).cycles;
            cycles != [] ==> cycles[0] == PlanFresh(m, n, state, env(n)).result
  {
    hide PlanFresh, ApplyAll, Loop;
    FreshPlan(m, false, d, n, state, env);
    if n > max {
      LoopEnd(m, false, d, n, max, state, env);
    } else {
      LoopStep(m, false, d, n, max, state, env);
    }
  }

  // ---------- Termination with an exact count ----------

  // No record is stored for cycle n or a later one of the mission.
  ghost predicate Unused(m: Mission, d: Durable, n: nat) {
    forall k: nat :: k >= n ==> (m.id, k) !in d.cycles
  }

  ghost predicate AlwaysSucceeds(env: nat -> Env) {
    forall n :: Verifies(env(n).outcome)
  }

  lemma FinishedCycle(m: Mission, n: nat, state: SystemState, env: Env)
    requires WellKeyed(state.capabilities) && n <= m.maxCycles && OpenTargets(state.capabilities, m.targets) == {}
    ensures PlanFresh(m, n, state, env).result == Stop(ExecCompleted, Passed, None, AllTargetsVerified)
    ensures PlanFresh(m, n, state, env).result.stopped
    ensures PlanFresh(m, n, state, env).missionStatus == MissionFinished && PlanFresh(m, n, state, env).nextState == state
  {
    ActionMeaning(state.capabilities, m.targets);
    assert forall t :: t in m.targets ==> t !in OpenTargets(state.capabilities, m.targets);
  }

  lemma SuccessfulCycle(m: Mission, n: nat, state: SystemState, env: Env)
    requires Solvable(state.capabilities, m.targets) && "" !in m.targets && n <= m.maxCycles
    requires OpenTargets(state.capabilities, m.targets) != {} && Verifies(env.outcome)
    ensures var plan := PlanFresh(m, n, state, env);
            && !plan.result.stopped && plan.result.validation == Passed && plan.missionStatus == m.status && plan.workerCalled
            && Solvable(plan.nextState.capabilities, m.targets)
            && plan.result.updated.Some? && plan.result.updated.value in OpenTargets(state.capabilities, m.targets)
            && OpenTargets(plan.nextState.capabilities, m.targets)
               == OpenTargets(state.capabilities, m.targets) - {plan.result.updated.value}
  {
    SolvableAdvances(state.capabilities, m.targets);
    VerifyingKeepsSolvable(state.capabilities, m.targets, NextAction(state.capabilities, m.targets).target);
  }

  // Without a stored record the loop plans its cycle afresh.
  lemma FreshPlan(m: Mission, durable: bool, d: Durable, n: nat, state: SystemState, env: nat -> Env)
    requires durable ==> Unused(m, d, n)
    ensures LoopPlan(m, durable, d, n, state, env) == PlanFresh(m, n, state, env(n))
  {
  }

  predicate OnlyKey(ws: seq<Write>, key: CycleKey) {
    forall w | w in ws :: (w.AcquireCycle? || w.UpdateCycle?) ==> w.key == key
  }

  lemma FreshWritesItsKey(m: Mission, n: nat, state: SystemState, env: Env)
    ensures OnlyKey(PlanFresh(m, n, state, env).writes, (m.id, n))
  {
    hide NextAction, Verifies, StateAfter;
  }

  lemma {:induction false} OtherKeysStay(d: Durable, ws: seq<Write>, key: CycleKey)
    requires OnlyKey(ws, key)
    ensures ApplyAll(d, ws).cycles.Keys <= d.cycles.Keys + {key}
  {
    if ws != [] {
      OtherKeysStay(d, ws[..|ws| - 1], key);
      assert ws[|ws| - 1] in ws;
    }
  }

  lemma StillUnused(m: Mission, d: Durable, n: nat, state: SystemState, env: Env)
    requires Unused(m, d, n)
    ensures Unused(m, ApplyAll(d, PlanFresh(m, n, state, env).writes), n + 1)
  {
    hide PlanFresh, ApplyAll;
    FreshWritesItsKey(m, n, state, env);
    OtherKeysStay(d, PlanFresh(m, n, state, env).writes, (m.id, n));
  }

  // With n open targets the mission is completed by exactly n + 1 cycles, with a repository that
  // holds no record of these cycles yet or without one: n that each verify one new target, and one
  // that finds nothing left to do.
  lemma {:induction false} ExactCycleCount(m: Mission, durable: bool, d: Durable, n: nat, max: nat, state: SystemState,
                                           env: nat -> Env)
    requires Solvable(state.capabilities, m.targets) && "" !in m.targets && AlwaysSucceeds(env)
    requires durable ==> Unused(m, d, n)
    requires n + |OpenTargets(state.capabilities, m.targets)| <= max
    requires n + |OpenTargets(state.capabilities, m.targets)| <= m.maxCycles
    ensures var run := Loop(m, durable, d, n, max, state, env);
            var open := |OpenTargets(state.capabilities, m.targets)|;
            && |run.cycles| == open + 1
            && run.mission.status == MissionFinished
            && OpenTargets(run.state.capabilities, m.targets) == {}
            && run.cycles[open] == Stop(ExecCompleted, Passed, None, AllTargetsVerified)
            && (forall i :: 0 <= i < open ==> run.cycles[i].validation == Passed && run.cycles[i].updated.Some?)
    decreases |OpenTargets(state.capabilities, m.targets)|
  {
    hide Plan, LoopPlan, PlanFresh, Loop, ApplyAll, Verifies, OpenTargets, Unused, Solvable;
    var open := OpenTargets(state.capabilities, m.targets);
    var plan := LoopPlan(m, durable, d, n, state, env);
    FreshPlan(m, durable, d, n, state, env);
    LoopStep(m, durable, d, n, max, state, env);
    if open == {} {
      SolvableIsWellKeyed(state.capabilities, m.targets);
      FinishedCycle(m, n, state, env(n));
    } else {
      SuccessfulCycle(m, n, state, env(n));
      var t := plan.result.updated.value;
      assert |open - {t}| == |open| - 1;
      assert m.(status := plan.missionStatus) == m;
      if durable {
        StillUnused(m, d, n, state, env(n));
      }
      ExactCycleCount(m, durable, ApplyAll(d, Kept(durable, plan.writes)), n + 1, max, plan.nextState, env);
    }
  }

  lemma SolvableIsWellKeyed(caps: Capabilities, targets: seq<string>)
    requires Solvable(caps, targets)
    ensures WellKeyed(caps)
  {
  }

  // The mission started by executeMissionContinuously: cycle numbers start at one.
  lemma MissionCompletes(m: Mission, durable: bool, d: Durable, maxOption: nat, state: SystemState, env: nat -> Env)
    requires Solvable(state.capabilities, m.targets) && "" !in m.targets && AlwaysSucceeds(env)
    requires durable ==> Unused(m, d, 1)
    requires |OpenTargets(state.capabilities, m.targets)| + 1 <= CycleLimit(m, maxOption)
    requires |OpenTargets(state.capabilities, m.targets)| + 1 <= m.maxCycles
    ensures var run := Loop(m, durable, d, 1, CycleLimit(m, maxOption), state, env);
            && run.mission.status == MissionFinished
            && |run.cycles| == |OpenTargets(state.capabilities, m.targets)| + 1
            && forall t :: t in m.targets ==> IsVerified(run.state.capabilities, t)
  {
    hide Solvable, Loop, Unused;
    var one: nat := 1;
    ExactCycleCount(m, durable, d, one, CycleLimit(m, maxOption), state, env);
    var final := Loop(m, durable, d, one, CycleLimit(m, maxOption), state, env).state.capabilities;
    assert forall t :: t in m.targets ==> t !in OpenTargets(final, m.targets);
  }

  // ---------- The two evidence rules ----------

  // For a row the adapter reports on, recovery accepts what the normal path accepted exactly
  // when the row itself, not only the finalizer's commit or declared files, carries evidence.
  lemma RecoveryAcceptsVerified(row: TaskRow)
    requires Verifies(AdapterOutcome(true, Some(row)))
    ensures RecoveryVerifies(row) <==>
            (row.finalize.Some? && NonEmpty(row.finalize.value.changedFiles)) || Truthy(row.commitSha) || NonEmpty(row.resultChangedFiles)
  {
  }

  // In particular when the row carries the finalizer's commit, unless declared files were the only evidence.
  lemma SameCommitIsRecovered(row: TaskRow)
    requires Verifies(AdapterOutcome(true, Some(row)))
    requires row.finalize.Some? ==> row.commitSha == row.finalize.value.commitSha
    requires row.finalize.Some? && NonEmpty(row.finalize.value.declaredChangedFiles) ==>
               row.finalize.value.changedFiles.Some? || Truthy(row.commitSha) || NonEmpty(row.resultChangedFiles)
    ensures RecoveryVerifies(row)
  {
    RecoveryAcceptsVerified(row);
  }

  // Conversely recovery is more lenient: it accepts a row that the normal path refuses exactly
  // when there are validation errors, or the file list that proves the work is hidden behind an
  // earlier empty list and no commit is recorded.
  lemma NormalAcceptsRecovered(row: TaskRow)
    requires RecoveryVerifies(row)
    ensures Verifies(AdapterOutcome(true, Some(row))) <==>
            && (row.finalize.Some? ==> !NonEmpty(row.finalize.value.validationErrors))
            && (Truthy(row.commitSha) || (row.finalize.Some? && Truthy(row.finalize.value.commitSha))
                || NonEmpty(AdapterOutcome(true, Some(row)).changedFiles))
  {
  }

  // The rules disagree both ways: a task with validation errors is refused by the normal path and
  // verified by recovery; a task whose only evidence is the finalizer's commit, not copied to the
  // row, is verified by the normal path and refused by recovery.
  lemma RulesDisagreeExample()
    ensures exists row :: RecoveryVerifies(row) && !Verifies(AdapterOutcome(true, Some(row)))
    ensures exists row :: !RecoveryVerifies(row) && Verifies(AdapterOutcome(true, Some(row)))
  {
    var f := Finalize(FinalizeCompleted, Some(true), None, Some(["lint"]), Some(["a.ts"]), None, Some("c0ffee"));
    var row := TaskRow(true, Some("c0ffee"), Some(f), None);
    assert RecoveryVerifies(row) && !Verifies(AdapterOutcome(true, Some(row)));
    var g := Finalize(FinalizeCompleted, Some(true), None, None, None, None, Some("c0ffee"));
    var bare := TaskRow(true, None, Some(g), None);
    assert !RecoveryVerifies(bare) && Verifies(AdapterOutcome(true, Some(bare)));
  }
}
