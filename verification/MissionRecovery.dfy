// Crash transparency of one cycle: once the worker has finished, any number of crashes and
// restarts leads to the statuses of the run without a crash, and the worker is not called again.
module MissionRecovery {
  import opened Wrappers
  import opened MissionLoop
  import opened MissionController
  import opened MissionRuns
  import opened MissionCrashes

  // captureStateSnapshot
  function Statuses(caps: Capabilities): map<string, CapabilityStatus> {
    map k | k in caps :: caps[k].status
  }

  // Cycle n of the mission, working on t, either waits for recovery with a finished task that
  // recovery accepts, or is stored completed with the goal saved.
  ghost predicate Recoverable(m: Mission, init: SystemState, d: Durable, n: nat, t: string, goal: map<string, CapabilityStatus>) {
    var s := Current(m, init, d);
    && t != "" && s.missionId == m.id && (m.id, n) in d.cycles
    && var rec := d.cycles[(m.id, n)];
    && rec.target == Some(t) && rec.stopReason.None?
    && match rec.status
       case CycleRunning => RowVerified(d, rec.taskId) && Statuses(ApplyStateUpdate(s.capabilities, t, Verified)) == goal
       case CycleCompleted => rec.execution == Some(ExecCompleted) && Statuses(s.capabilities) == goal
       case _ => false
  }

  lemma VerifyTwice(caps: Capabilities, t: string)
    ensures Statuses(ApplyStateUpdate(ApplyStateUpdate(caps, t, Verified), t, Verified)) == Statuses(ApplyStateUpdate(caps, t, Verified))
  {
  }

  // The durable state if the execution of cycle n crashes after k of its writes.
  function Crashed(m: Mission, init: SystemState, d: Durable, n: nat, t: string, env: Env, k: nat): Durable
    requires k <= 8
  {
    ApplyAll(d, ExecuteWrites(m, n, Current(m, init, d), t, env)[..k])
  }

  lemma OneMoreWrite(m: Mission, init: SystemState, d: Durable, n: nat, t: string, env: Env, k: nat)
    requires k < 8
    ensures Crashed(m, init, d, n, t, env, k + 1)
            == Apply(Crashed(m, init, d, n, t, env, k), ExecuteWrites(m, n, Current(m, init, d), t, env)[k])
  {
    hide ApplyAll, StateAfter, FinalPatch;
    var ws := ExecuteWrites(m, n, Current(m, init, d), t, env);
    assert ws[..k + 1] == ws[..k] + [ws[k]];
    ApplyAllMore(d, ws[..k], ws[k]);
  }

  // What an execution has left behind after k of its writes, once it has acquired the cycle.
  ghost predicate Stage(m: Mission, init: SystemState, d: Durable, n: nat, t: string, env: Env, k: nat, left: Durable) {
    var s := Current(m, init, d);
    var started := CycleRecord(CycleRunning, Some(t), Some(env.taskId), None, None, None);
    && Current(m, init, left) == (if k < 7 then s else StateAfter(s, t, env.outcome))
    && (m.id, n) in left.cycles
    && left.cycles[(m.id, n)] == (if k < 5 then CycleRecord(CycleRunning, Some(t), None, None, None, None)
                                  else if k < 8 then started
                                  else Patched(started, FinalPatch(m, env.outcome)))
    && (k >= 4 ==> env.taskId in left.tasks && left.tasks[env.taskId] == if k < 6 then QueuedRow else env.row)
  }

  lemma Acquired(m: Mission, init: SystemState, d: Durable, n: nat, t: string, env: Env)
    requires Current(m, init, d).missionId == m.id && (m.id, n) !in d.cycles
    ensures Stage(m, init, d, n, t, env, 3, Crashed(m, init, d, n, t, env, 3))
  {
    var ws := ExecuteWrites(m, n, Current(m, init, d), t, env);
    assert ws[..0] == [] && Crashed(m, init, d, n, t, env, 0) == d;
    hide Crashed, ApplyAll, StateAfter, FinalPatch;
    OneMoreWrite(m, init, d, n, t, env, 0);
    OneMoreWrite(m, init, d, n, t, env, 1);
    OneMoreWrite(m, init, d, n, t, env, 2);
  }

  lemma {:induction false} StageReached(m: Mission, init: SystemState, d: Durable, n: nat, t: string, env: Env, k: nat)
    requires Current(m, init, d).missionId == m.id && (m.id, n) !in d.cycles && 3 <= k <= 8
    ensures Stage(m, init, d, n, t, env, k, Crashed(m, init, d, n, t, env, k))
  {
    hide Crashed, StateAfter, FinalPatch;
    if k == 3 {
      Acquired(m, init, d, n, t, env);
    } else {
      StageReached(m, init, d, n, t, env, k - 1);
      OneMoreWrite(m, init, d, n, t, env, k - 1);
      SameMission(Current(m, init, d), t, env.outcome);
    }
  }

  lemma SameMission(s: SystemState, t: string, o: Outcome)
    ensures StateAfter(s, t, o).missionId == s.missionId
  {
  }

  // A crash after the worker has left its row, before or after either closing write.
  lemma CrashAfterWorker(m: Mission, init: SystemState, d: Durable, n: nat, t: string, env: Env, k: nat)
    requires t != "" && env.taskId != "" && Current(m, init, d).missionId == m.id && (m.id, n) !in d.cycles
    requires Verifies(env.outcome) && 6 <= k <= 8 && (k == 8 || RecoveryVerifies(env.row))
    ensures var goal := Statuses(StateAfter(Current(m, init, d), t, env.outcome).capabilities);
            Recoverable(m, init, Crashed(m, init, d, n, t, env, k), n, t, goal)
  {
    hide Crashed, Statuses, ApplyStateUpdate, RecoveryVerifies;
    StageReached(m, init, d, n, t, env, k);
    VerifyTwice(Current(m, init, d).capabilities, t);
    SameMission(Current(m, init, d), t, env.outcome);
  }

  // One restarted life: no worker, the goal reached, and still recoverable if it crashes too.
  lemma RecoveringLife(m: Mission, init: SystemState, d: Durable, n: nat, t: string, goal: map<string, CapabilityStatus>,
                       env: Env, k: nat)
    requires Recoverable(m, init, d, n, t, goal)
    requires k <= |CyclePlanOf(m, init, d, n, env).writes|
    ensures var plan := CyclePlanOf(m, init, d, n, env);
            && !plan.workerCalled && !plan.result.stopped && plan.result.execution == ExecCompleted
            && Statuses(plan.nextState.capabilities) == goal
            && Recoverable(m, init, ApplyAll(d, plan.writes[..k]), n, t, goal)
            && (k == |plan.writes| ==> ApplyAll(d, plan.writes[..k]).cycles[(m.id, n)].status == CycleCompleted)
  {
    var s := Current(m, init, d);
    var ws := CyclePlanOf(m, init, d, n, env).writes;
    assert ws[..0] == [];
    if d.cycles[(m.id, n)].status == CycleRunning {
      var next := s.(capabilities := ApplyStateUpdate(s.capabilities, t, Verified));
      VerifyTwice(s.capabilities, t);
      assert ws == [SaveState(next), UpdateCycle((m.id, n), RecoveredPatch)];
      assert ws[..1] == [] + [ws[0]] && ws[..2] == ws[..1] + [ws[1]];
      ApplyAllMore(d, [], ws[0]);
      ApplyAllMore(d, ws[..1], ws[1]);
      assert Recoverable(m, init, ApplyAll(d, ws[..1]), n, t, goal);
      assert Recoverable(m, init, ApplyAll(d, ws[..2]), n, t, goal);
    }
  }

  function Min(a: nat, b: nat): nat {
    if a <= b then a else b
  }

  // Restarts that each crash after at most the given number of writes; envs(i) is the world of restart i.
  function Lives(m: Mission, init: SystemState, d: Durable, n: nat, envs: nat -> Env, crashes: seq<nat>): Durable {
    if crashes == [] then d
    else
      var before := Lives(m, init, d, n, envs, crashes[..|crashes| - 1]);
      var ws := CyclePlanOf(m, init, before, n, envs(|crashes| - 1)).writes;
      ApplyAll(before, ws[..Min(crashes[|crashes| - 1], |ws|)])
  }

  lemma {:induction false} LivesRecoverable(m: Mission, init: SystemState, d: Durable, n: nat, t: string,
                                            goal: map<string, CapabilityStatus>, envs: nat -> Env, crashes: seq<nat>)
    requires Recoverable(m, init, d, n, t, goal)
    ensures Recoverable(m, init, Lives(m, init, d, n, envs, crashes), n, t, goal)
  {
    hide Recoverable, CyclePlanOf, ApplyAll;
    if crashes != [] {
      var before := Lives(m, init, d, n, envs, crashes[..|crashes| - 1]);
      LivesRecoverable(m, init, d, n, t, goal, envs, crashes[..|crashes| - 1]);
      var ws := CyclePlanOf(m, init, before, n, envs(|crashes| - 1)).writes;
      RecoveringLife(m, init, before, n, t, goal, envs(|crashes| - 1), Min(crashes[|crashes| - 1], |ws|));
    }
  }

  // No restart called the worker, and the one that gets through returns the goal and stores it.
  ghost predicate Transparent(m: Mission, init: SystemState, d: Durable, n: nat, goal: map<string, CapabilityStatus>,
                              envs: nat -> Env, crashes: seq<nat>, last: Env)
  {
    var restarted := Lives(m, init, d, n, envs, crashes);
    var final := CyclePlanOf(m, init, restarted, n, last);
    && Statuses(final.nextState.capabilities) == goal
    && CompletedIn(m, ApplyAll(restarted, final.writes), n)
    && !final.workerCalled
    && forall i :: 0 <= i < |crashes| ==> !CyclePlanOf(m, init, Lives(m, init, d, n, envs, crashes[..i]), n, envs(i)).workerCalled
  }

  predicate CompletedIn(m: Mission, d: Durable, n: nat) {
    (m.id, n) in d.cycles && d.cycles[(m.id, n)].status == CycleCompleted
  }

  lemma RestartsReachGoal(m: Mission, init: SystemState, d: Durable, n: nat, t: string, goal: map<string, CapabilityStatus>,
                          envs: nat -> Env, crashes: seq<nat>, last: Env)
    requires Recoverable(m, init, d, n, t, goal)
    ensures Transparent(m, init, d, n, goal, envs, crashes, last)
  {
    hide Recoverable, CyclePlanOf, ApplyAll, Statuses, Lives;
    forall i | 0 <= i < |crashes|
      ensures !CyclePlanOf(m, init, Lives(m, init, d, n, envs, crashes[..i]), n, envs(i)).workerCalled
    {
      LivesRecoverable(m, init, d, n, t, goal, envs, crashes[..i]);
      RecoveringLife(m, init, Lives(m, init, d, n, envs, crashes[..i]), n, t, goal, envs(i), 0);
    }
    LivesRecoverable(m, init, d, n, t, goal, envs, crashes);
    FinalLife(m, init, Lives(m, init, d, n, envs, crashes), n, t, goal, last);
  }

  lemma FinalLife(m: Mission, init: SystemState, d: Durable, n: nat, t: string, goal: map<string, CapabilityStatus>, env: Env)
    requires Recoverable(m, init, d, n, t, goal)
    ensures var plan := CyclePlanOf(m, init, d, n, env);
            && Statuses(plan.nextState.capabilities) == goal && !plan.workerCalled
            && CompletedIn(m, ApplyAll(d, plan.writes), n)
  {
    var ws := CyclePlanOf(m, init, d, n, env).writes;
    RecoveringLife(m, init, d, n, t, goal, env, |ws|);
    assert ws[..|ws|] == ws;
  }

  // The cycle verifies t, crashes at any point after the worker finished, and each restart may
  // crash again anywhere. The life that gets through returns exactly the statuses of the run
  // without a crash, has the cycle stored COMPLETED, and no restart called the worker.
  lemma CrashTransparency(m: Mission, init: SystemState, d: Durable, n: nat, t: string, env: Env,
                          first: nat, envs: nat -> Env, crashes: seq<nat>, last: Env)
    requires t != "" && env.taskId != "" && Current(m, init, d).missionId == m.id && (m.id, n) !in d.cycles
    requires Verifies(env.outcome) && 6 <= first <= 8 && (first == 8 || RecoveryVerifies(env.row))
    ensures var plan := PlanExecution(m, n, Current(m, init, d), t, env);
            Transparent(m, init, ApplyAll(d, plan.writes[..first]), n, Statuses(plan.nextState.capabilities), envs, crashes, last)
  {
    hide Recoverable, Transparent, ApplyAll;
    CrashAfterWorker(m, init, d, n, t, env, first);
    RestartsReachGoal(m, init, Crashed(m, init, d, n, t, env, first), n, t,
                      Statuses(StateAfter(Current(m, init, d), t, env.outcome).capabilities), envs, crashes, last);
  }

  ghost predicate AlwaysTransparent(m: Mission, init: SystemState, d: Durable, n: nat, goal: map<string, CapabilityStatus>) {
    forall envs: nat -> Env, crashes: seq<nat>, last: Env :: Transparent(m, init, d, n, goal, envs, crashes, last)
  }

  // Recovery's own evidence rule is the exact condition. For a crash at any point from the
  // acquisition of the cycle on, every sequence of restarts is transparent if and only if the
  // cycle was closed already, or the worker had finished and that rule accepts its row.
  lemma TransparentExactlyWhen(m: Mission, init: SystemState, d: Durable, n: nat, t: string, env: Env, first: nat)
    requires t != "" && env.taskId != "" && Current(m, init, d).missionId == m.id && (m.id, n) !in d.cycles
    requires Verifies(env.outcome) && 3 <= first <= 8
    ensures var plan := PlanExecution(m, n, Current(m, init, d), t, env);
            AlwaysTransparent(m, init, ApplyAll(d, plan.writes[..first]), n, Statuses(plan.nextState.capabilities))
            <==> first == 8 || (first >= 6 && RecoveryVerifies(env.row))
  {
    hide Transparent, ApplyAll, Verifies, RecoveryVerifies;
    var plan := PlanExecution(m, n, Current(m, init, d), t, env);
    var goal := Statuses(plan.nextState.capabilities);
    if first == 8 || (first >= 6 && RecoveryVerifies(env.row)) {
      forall envs: nat -> Env, crashes: seq<nat>, last: Env
        ensures Transparent(m, init, ApplyAll(d, plan.writes[..first]), n, goal, envs, crashes, last)
      {
        CrashTransparency(m, init, d, n, t, env, first, envs, crashes, last);
      }
    } else {
      RestartFails(m, init, d, n, t, env, first, _ => env, env, goal);
    }
  }

  // Otherwise the very next restart closes the cycle as failed.
  lemma RestartFails(m: Mission, init: SystemState, d: Durable, n: nat, t: string, env: Env, first: nat, envs: nat -> Env, last: Env,
                     goal: map<string, CapabilityStatus>)
    requires Current(m, init, d).missionId == m.id && (m.id, n) !in d.cycles
    requires 3 <= first <= 7 && (first < 6 || !RecoveryVerifies(env.row))
    ensures !Transparent(m, init, Crashed(m, init, d, n, t, env, first), n, goal, envs, [], last)
    ensures var restart := CyclePlanOf(m, init, Crashed(m, init, d, n, t, env, first), n, last);
            restart.nextState == Current(m, init, Crashed(m, init, d, n, t, env, first)) && restart.result.stopped
  {
    hide Crashed, Statuses, StateAfter;
    var left := Crashed(m, init, d, n, t, env, first);
    StageReached(m, init, d, n, t, env, first);
    assert !RowVerified(left, left.cycles[(m.id, n)].taskId);
    NotRecovered(m, init, left, n, last);
    assert Lives(m, init, left, n, envs, []) == left;
  }

  // The statuses alone are reached a write earlier, although the cycle may be closed as failed.
  lemma StatusesReachedExactlyWhen(m: Mission, init: SystemState, d: Durable, n: nat, t: string, env: Env, first: nat, last: Env)
    requires t != "" && env.taskId != "" && Current(m, init, d).missionId == m.id && (m.id, n) !in d.cycles
    requires Verifies(env.outcome) && !IsVerified(Current(m, init, d).capabilities, t) && 3 <= first <= 8
    ensures var plan := PlanExecution(m, n, Current(m, init, d), t, env);
            var restart := CyclePlanOf(m, init, ApplyAll(d, plan.writes[..first]), n, last);
            Statuses(restart.nextState.capabilities) == Statuses(plan.nextState.capabilities)
            <==> first >= 7 || (first == 6 && RecoveryVerifies(env.row))
  {
    hide ApplyAll, CyclePlanOf, Recoverable, RecoveryVerifies;
    var s := Current(m, init, d);
    var goal := Statuses(StateAfter(s, t, env.outcome).capabilities);
    assert t in goal && goal[t] == Verified && goal != Statuses(s.capabilities);
    if first == 8 || (first >= 6 && RecoveryVerifies(env.row)) {
      CrashAfterWorker(m, init, d, n, t, env, first);
      FinalLife(m, init, Crashed(m, init, d, n, t, env, first), n, t, goal, last);
    } else {
      StageReached(m, init, d, n, t, env, first);
      RestartFails(m, init, d, n, t, env, first, _ => env, last, goal);
    }
  }

  lemma NotRecovered(m: Mission, init: SystemState, d: Durable, n: nat, env: Env)
    requires (m.id, n) in d.cycles && d.cycles[(m.id, n)].status == CycleRunning && !RowVerified(d, d.cycles[(m.id, n)].taskId)
    ensures var plan := CyclePlanOf(m, init, d, n, env);
            && plan.nextState == Current(m, init, d) && plan.result.stopReason == Some(CrashRecoveryRequired) && plan.result.stopped
            && !CompletedIn(m, ApplyAll(d, plan.writes), n)
  {
    ApplyAllMore(d, [], UpdateCycle((m.id, n), CrashedPatch));
    assert [] + [UpdateCycle((m.id, n), CrashedPatch)] == [UpdateCycle((m.id, n), CrashedPatch)];
  }

  // With the adapter the outcome comes from the same row, and the condition is whether the row
  // itself carries evidence.
  lemma AdapterTransparentExactlyWhen(m: Mission, init: SystemState, d: Durable, n: nat, t: string, env: Env, first: nat)
    requires t != "" && env.taskId != "" && Current(m, init, d).missionId == m.id && (m.id, n) !in d.cycles
    requires env.outcome == AdapterOutcome(true, Some(env.row)) && Verifies(env.outcome) && 6 <= first <= 8
    ensures var plan := PlanExecution(m, n, Current(m, init, d), t, env);
            AlwaysTransparent(m, init, ApplyAll(d, plan.writes[..first]), n, Statuses(plan.nextState.capabilities))
            <==> || first == 8 || Truthy(env.row.commitSha) || NonEmpty(env.row.resultChangedFiles)
                 || (env.row.finalize.Some? && NonEmpty(env.row.finalize.value.changedFiles))
  {
    TransparentExactlyWhen(m, init, d, n, t, env, first);
    hide AlwaysTransparent, ApplyAll, Statuses, PlanExecution, AdapterOutcome, Verifies, RecoveryVerifies;
    RecoveryAcceptsVerified(env.row);
  }

  // ---------- Cycles stored as failed or blocked ----------

  predicate EndedBadly(m: Mission, d: Durable, n: nat) {
    (m.id, n) in d.cycles && d.cycles[(m.id, n)].status in {CycleFailed, CycleBlocked}
  }

  // No recovery applies to them: each restart plans the cycle afresh.
  lemma EndedBadlyRunsAfresh(m: Mission, init: SystemState, d: Durable, n: nat, env: Env)
    requires EndedBadly(m, d, n)
    ensures CyclePlanOf(m, init, d, n, env) == PlanFresh(m, n, Current(m, init, d), env)
  {
  }

  // So such a cycle is not crash transparent at all: if it calls the worker, every restart after a
  // crash before its closing writes calls the worker again, also when the worker had finished.
  lemma EndedBadlyCallsAgain(m: Mission, init: SystemState, d: Durable, n: nat, env: Env, k: nat, last: Env)
    requires EndedBadly(m, d, n) && Current(m, init, d).missionId == m.id
    requires CyclePlanOf(m, init, d, n, env).workerCalled && k <= 6
    ensures CyclePlanOf(m, init, ApplyAll(d, CyclePlanOf(m, init, d, n, env).writes[..k]), n, last).workerCalled
  {
    var s := Current(m, init, d);
    EndedBadlyRunsAfresh(m, init, d, n, env);
    var t := NextAction(s.capabilities, m.targets).target;
    StillEndedBadly(m, init, d, n, t, env, k);
    EndedBadlyRunsAfresh(m, init, Crashed(m, init, d, n, t, env, k), n, last);
  }

  lemma EarlyWrite(m: Mission, init: SystemState, left: Durable, n: nat, s: SystemState, t: string, env: Env, i: nat)
    requires EndedBadly(m, left, n) && s.missionId == m.id && Current(m, init, left) == s && i < 6
    ensures var next := Apply(left, ExecuteWrites(m, n, s, t, env)[i]);
            EndedBadly(m, next, n) && Current(m, init, next) == s
  {
    hide StateAfter, FinalPatch;
  }

  lemma {:induction false} StillEndedBadly(m: Mission, init: SystemState, d: Durable, n: nat, t: string, env: Env, k: nat)
    requires EndedBadly(m, d, n) && Current(m, init, d).missionId == m.id && k <= 6
    ensures var left := Crashed(m, init, d, n, t, env, k);
            EndedBadly(m, left, n) && Current(m, init, left) == Current(m, init, d)
  {
    if k == 0 {
      assert ExecuteWrites(m, n, Current(m, init, d), t, env)[..0] == [];
    } else {
      hide Crashed;
      StillEndedBadly(m, init, d, n, t, env, k - 1);
      OneMoreWrite(m, init, d, n, t, env, k - 1);
      EarlyWrite(m, init, Crashed(m, init, d, n, t, env, k - 1), n, Current(m, init, d), t, env, k - 1);
    }
  }
}
