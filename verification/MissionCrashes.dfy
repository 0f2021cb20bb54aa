// The durable controller under crashes. One controller process runs the mission loop; it may
// stop after any write and is restarted on the saved state, any number of times.
module MissionCrashes {
  import opened Wrappers
  import opened MissionLoop
  import opened MissionController
  import opened MissionRuns

  // The state a restarted controller works on: the saved one, or the initial one before any save.
  function Current(m: Mission, init: SystemState, d: Durable): SystemState {
    if m.id in d.states then d.states[m.id] else init
  }

  // Either the capability is verified, or it is the one the mission would work on next.
  ghost predicate Accounted(m: Mission, caps: Capabilities, t: string) {
    IsVerified(caps, t) || Selects(caps, m.targets, t)
  }

  // What every durable state satisfies, also the ones between two writes of a cycle.
  ghost predicate Consistent(m: Mission, init: SystemState, d: Durable) {
    var s := Current(m, init, d);
    && s.missionId == m.id && WellKeyed(s.capabilities) && DependencyClosed(s.capabilities)
    && forall n: nat :: (m.id, n) in d.cycles ==> RecordConsistent(m, s.capabilities, d.cycles[(m.id, n)])
  }

  ghost predicate RecordConsistent(m: Mission, caps: Capabilities, rec: CycleRecord) {
    && rec.target.Some? && rec.target.value != "" && Accounted(m, caps, rec.target.value)
    && (rec.status == CycleCompleted ==> IsVerified(caps, rec.target.value))
  }

  // Nothing verified is lost and no completed cycle is reopened.
  ghost predicate Grows(m: Mission, init: SystemState, d: Durable, later: Durable) {
    && VerifiedIds(Current(m, init, d).capabilities) <= VerifiedIds(Current(m, init, later).capabilities)
    && forall n: nat :: (m.id, n) in d.cycles && d.cycles[(m.id, n)].status == CycleCompleted
                        ==> (m.id, n) in later.cycles && later.cycles[(m.id, n)] == d.cycles[(m.id, n)]
  }

  lemma GrowsTransitive(m: Mission, init: SystemState, a: Durable, b: Durable, c: Durable)
    requires Grows(m, init, a, b) && Grows(m, init, b, c)
    ensures Grows(m, init, a, c)
  {
  }

  // ---------- One write at a time ----------

  ghost predicate StepKeeps(m: Mission, init: SystemState, d: Durable, w: Write) {
    Consistent(m, init, Apply(d, w)) && Grows(m, init, d, Apply(d, w))
  }

  // Writes to missions and tasks do not concern the invariant.
  lemma OtherWrite(m: Mission, init: SystemState, d: Durable, w: Write)
    requires Consistent(m, init, d) && (w.CreateMission? || w.UpdateMission? || w.WriteTask?)
    ensures StepKeeps(m, init, d, w) && Current(m, init, Apply(d, w)) == Current(m, init, d)
    ensures Apply(d, w).cycles == d.cycles
  {
  }

  lemma AcquireStep(m: Mission, init: SystemState, d: Durable, n: nat, t: string)
    requires Consistent(m, init, d) && t != "" && Selects(Current(m, init, d).capabilities, m.targets, t)
    ensures StepKeeps(m, init, d, AcquireCycle((m.id, n), t))
    ensures Current(m, init, Apply(d, AcquireCycle((m.id, n), t))) == Current(m, init, d)
  {
    hide DependencyClosed, WellKeyed, Selects, VerifiedIds;
  }

  lemma UpdateStep(m: Mission, init: SystemState, d: Durable, n: nat, p: CyclePatch)
    requires Consistent(m, init, d) && (m.id, n) in d.cycles && d.cycles[(m.id, n)].status != CycleCompleted
    requires p.status == Some(CycleCompleted) ==> IsVerified(Current(m, init, d).capabilities, d.cycles[(m.id, n)].target.value)
    ensures StepKeeps(m, init, d, UpdateCycle((m.id, n), p))
    ensures Current(m, init, Apply(d, UpdateCycle((m.id, n), p))) == Current(m, init, d)
  {
    hide DependencyClosed, WellKeyed, Selects, VerifiedIds;
    var d' := Apply(d, UpdateCycle((m.id, n), p));
    var caps := Current(m, init, d).capabilities;
    forall k: nat | (m.id, k) in d'.cycles
      ensures RecordConsistent(m, caps, d'.cycles[(m.id, k)])
    {
      assert RecordConsistent(m, caps, d.cycles[(m.id, k)]);
    }
  }

  lemma SaveSame(m: Mission, init: SystemState, d: Durable)
    requires Consistent(m, init, d)
    ensures StepKeeps(m, init, d, SaveState(Current(m, init, d)))
    ensures Current(m, init, Apply(d, SaveState(Current(m, init, d)))) == Current(m, init, d)
  {
  }

  // Saving the state with the accounted capability verified settles every record of the mission.
  lemma SaveVerified(m: Mission, init: SystemState, d: Durable, t: string)
    requires Consistent(m, init, d) && Accounted(m, Current(m, init, d).capabilities, t)
    ensures var s := Current(m, init, d);
            var next := s.(capabilities := ApplyStateUpdate(s.capabilities, t, Verified));
            && StepKeeps(m, init, d, SaveState(next)) && Current(m, init, Apply(d, SaveState(next))) == next
            && (Selects(s.capabilities, m.targets, t) ==>
                  forall n: nat :: (m.id, n) in d.cycles ==> IsVerified(next.capabilities, d.cycles[(m.id, n)].target.value))
  {
    var s := Current(m, init, d);
    var next := s.(capabilities := ApplyStateUpdate(s.capabilities, t, Verified));
    var caps := next.capabilities;
    ActionMeaning(s.capabilities, m.targets);
    UpdateKeepsVerified(s.capabilities, t, Verified);
    UpdateKeepsClosed(s.capabilities, t, Verified);
    if IsVerified(s.capabilities, t) {
      assert caps == s.capabilities;
    }
    forall n: nat | (m.id, n) in d.cycles
      ensures RecordConsistent(m, caps, d.cycles[(m.id, n)])
    {
      assert RecordConsistent(m, s.capabilities, d.cycles[(m.id, n)]);
    }
  }

  // Saving a failed validation keeps the selection, so every record stays accounted for.
  lemma SavePartial(m: Mission, init: SystemState, d: Durable, t: string)
    requires Consistent(m, init, d) && Selects(Current(m, init, d).capabilities, m.targets, t)
    ensures var s := Current(m, init, d);
            var next := s.(capabilities := ApplyStateUpdate(s.capabilities, t, Partial));
            StepKeeps(m, init, d, SaveState(next)) && Current(m, init, Apply(d, SaveState(next))) == next
  {
    var s := Current(m, init, d);
    var next := s.(capabilities := ApplyStateUpdate(s.capabilities, t, Partial));
    var caps := next.capabilities;
    ActionMeaning(s.capabilities, m.targets);
    UpdateKeepsVerified(s.capabilities, t, Partial);
    UpdateKeepsClosed(s.capabilities, t, Partial);
    FailureIsRetried(s.capabilities, m.targets);
    forall n: nat | (m.id, n) in d.cycles
      ensures RecordConsistent(m, caps, d.cycles[(m.id, n)])
    {
      assert RecordConsistent(m, s.capabilities, d.cycles[(m.id, n)]);
    }
  }

  // ---------- All the writes of a cycle ----------

  // Every prefix of the writes leaves a consistent state that has lost nothing.
  ghost predicate Safe(m: Mission, init: SystemState, d: Durable, ws: seq<Write>) {
    && (forall k :: 0 <= k <= |ws| ==> Consistent(m, init, ApplyAll(d, ws[..k])))
    && (forall k :: 0 <= k < |ws| ==> Grows(m, init, ApplyAll(d, ws[..k]), ApplyAll(d, ws[..k + 1])))
  }

  lemma SafeNone(m: Mission, init: SystemState, d: Durable)
    requires Consistent(m, init, d)
    ensures Safe(m, init, d, [])
  {
  }

  lemma ApplyAllMore(d: Durable, ws: seq<Write>, w: Write)
    ensures ApplyAll(d, ws + [w]) == Apply(ApplyAll(d, ws), w)
  {
    assert (ws + [w])[..|ws|] == ws;
  }

  // One more write that keeps the invariant.
  lemma SafeMore(m: Mission, init: SystemState, d: Durable, ws: seq<Write>, w: Write)
    requires Safe(m, init, d, ws) && StepKeeps(m, init, ApplyAll(d, ws), w)
    ensures Safe(m, init, d, ws + [w]) && ApplyAll(d, ws + [w]) == Apply(ApplyAll(d, ws), w)
  {
    hide Consistent, Apply, Grows;
    ApplyAllMore(d, ws, w);
    assert ws[..|ws|] == ws;
    var all := ws + [w];
    assert all[..|all|] == all;
    assert forall k :: 0 <= k <= |ws| ==> all[..k] == ws[..k];
    forall k | 0 <= k <= |all|
      ensures Consistent(m, init, ApplyAll(d, all[..k]))
    {
    }
    forall k | 0 <= k < |all|
      ensures Grows(m, init, ApplyAll(d, all[..k]), ApplyAll(d, all[..k + 1]))
    {
      if k < |ws| {
        assert Grows(m, init, ApplyAll(d, ws[..k]), ApplyAll(d, ws[..k + 1]));
      } else {
        assert all[..k] == ws && all[..k + 1] == all;
      }
    }
  }

  // Midway through an execution that started in d with t selected: nothing has changed yet but
  // the bookkeeping, and the cycle's record is open.
  ghost predicate Midway(m: Mission, init: SystemState, d: Durable, ws: seq<Write>, n: nat) {
    && Safe(m, init, d, ws) && Consistent(m, init, ApplyAll(d, ws))
    && Current(m, init, ApplyAll(d, ws)) == Current(m, init, d)
    && ((m.id, n) in ApplyAll(d, ws).cycles ==> ApplyAll(d, ws).cycles[(m.id, n)].status != CycleCompleted)
  }

  lemma MidwayOther(m: Mission, init: SystemState, d: Durable, ws: seq<Write>, n: nat, w: Write)
    requires Midway(m, init, d, ws, n) && (w.CreateMission? || w.UpdateMission? || w.WriteTask?)
    ensures Midway(m, init, d, ws + [w], n)
    ensures ApplyAll(d, ws + [w]).cycles == ApplyAll(d, ws).cycles
  {
    OtherWrite(m, init, ApplyAll(d, ws), w);
    SafeMore(m, init, d, ws, w);
  }

  lemma MidwaySave(m: Mission, init: SystemState, d: Durable, ws: seq<Write>, n: nat)
    requires Midway(m, init, d, ws, n)
    ensures Midway(m, init, d, ws + [SaveState(Current(m, init, d))], n)
  {
    SaveSame(m, init, ApplyAll(d, ws));
    SafeMore(m, init, d, ws, SaveState(Current(m, init, d)));
  }

  lemma MidwayAcquire(m: Mission, init: SystemState, d: Durable, ws: seq<Write>, n: nat, t: string)
    requires Midway(m, init, d, ws, n) && t != "" && Selects(Current(m, init, d).capabilities, m.targets, t)
    ensures Midway(m, init, d, ws + [AcquireCycle((m.id, n), t)], n)
    ensures (m.id, n) in ApplyAll(d, ws + [AcquireCycle((m.id, n), t)]).cycles
  {
    AcquireStep(m, init, ApplyAll(d, ws), n, t);
    SafeMore(m, init, d, ws, AcquireCycle((m.id, n), t));
  }

  lemma MidwayUpdate(m: Mission, init: SystemState, d: Durable, ws: seq<Write>, n: nat, p: CyclePatch)
    requires Midway(m, init, d, ws, n) && (m.id, n) in ApplyAll(d, ws).cycles && p.status != Some(CycleCompleted)
    ensures Midway(m, init, d, ws + [UpdateCycle((m.id, n), p)], n)
    ensures (m.id, n) in ApplyAll(d, ws + [UpdateCycle((m.id, n), p)]).cycles
  {
    UpdateStep(m, init, ApplyAll(d, ws), n, p);
    SafeMore(m, init, d, ws, UpdateCycle((m.id, n), p));
  }

  // The last two writes of an execution: the new state and the final record.
  lemma ClosingSafe(m: Mission, init: SystemState, d: Durable, ws: seq<Write>, n: nat, t: string, o: Outcome)
    requires Midway(m, init, d, ws, n) && (m.id, n) in ApplyAll(d, ws).cycles
    requires t != "" && Selects(Current(m, init, d).capabilities, m.targets, t)
    ensures var next := StateAfter(Current(m, init, d), t, o);
            var all := ws + [SaveState(next)] + [UpdateCycle((m.id, n), FinalPatch(m, o))];
            Safe(m, init, d, all) && Current(m, init, ApplyAll(d, all)) == next
  {
    var s := Current(m, init, d);
    var next := StateAfter(s, t, o);
    var d6 := ApplyAll(d, ws);
    SaveOutcome(m, init, d6, n, t, o);
    SafeMore(m, init, d, ws, SaveState(next));
    var d7 := Apply(d6, SaveState(next));
    UpdateStep(m, init, d7, n, FinalPatch(m, o));
    SafeMore(m, init, d, ws + [SaveState(next)], UpdateCycle((m.id, n), FinalPatch(m, o)));
  }

  lemma SaveOutcome(m: Mission, init: SystemState, d: Durable, n: nat, t: string, o: Outcome)
    requires Consistent(m, init, d) && (m.id, n) in d.cycles
    requires t != "" && Selects(Current(m, init, d).capabilities, m.targets, t)
    ensures var next := StateAfter(Current(m, init, d), t, o);
            && StepKeeps(m, init, d, SaveState(next)) && Current(m, init, Apply(d, SaveState(next))) == next
            && (FinalStatus(o) == CycleCompleted ==> IsVerified(next.capabilities, d.cycles[(m.id, n)].target.value))
  {
    hide ApplyStateUpdate, StepKeeps, Selects, IsVerified;
    if Verifies(o) {
      SaveVerified(m, init, d, t);
    } else if ValidationOf(o) == FailedValidation {
      SavePartial(m, init, d, t);
    } else {
      SaveSame(m, init, d);
    }
  }

  lemma ExecutionSafe(m: Mission, init: SystemState, d: Durable, n: nat, t: string, env: Env)
    requires Consistent(m, init, d) && t != "" && Selects(Current(m, init, d).capabilities, m.targets, t)
    requires (m.id, n) in d.cycles ==> d.cycles[(m.id, n)].status != CycleCompleted
    ensures var plan := PlanExecution(m, n, Current(m, init, d), t, env);
            Safe(m, init, d, plan.writes) && Current(m, init, ApplyAll(d, plan.writes)) == plan.nextState
  {
    hide Midway, Safe, Consistent, Selects, Apply, ApplyAll, StateAfter;
    var s, key := Current(m, init, d), (m.id, n);
    MidwayStart(m, init, d, n);
    var w1 := [] + [CreateMission(m)];
    MidwayOther(m, init, d, [], n, CreateMission(m));
    var w2 := w1 + [SaveState(s)];
    MidwaySave(m, init, d, w1, n);
    var w3 := w2 + [AcquireCycle(key, t)];
    MidwayAcquire(m, init, d, w2, n, t);
    var w4 := w3 + [WriteTask(env.taskId, QueuedRow)];
    MidwayOther(m, init, d, w3, n, WriteTask(env.taskId, QueuedRow));
    var w5 := w4 + [UpdateCycle(key, OnlyTask(env.taskId))];
    MidwayUpdate(m, init, d, w4, n, OnlyTask(env.taskId));
    var w6 := w5 + [WriteTask(env.taskId, env.row)];
    MidwayOther(m, init, d, w5, n, WriteTask(env.taskId, env.row));
    ClosingSafe(m, init, d, w6, n, t, env.outcome);
    assert ExecuteWrites(m, n, s, t, env)
        == w6 + [SaveState(StateAfter(s, t, env.outcome))] + [UpdateCycle(key, FinalPatch(m, env.outcome))];
  }

  lemma MidwayStart(m: Mission, init: SystemState, d: Durable, n: nat)
    requires Consistent(m, init, d) && ((m.id, n) in d.cycles ==> d.cycles[(m.id, n)].status != CycleCompleted)
    ensures Midway(m, init, d, [], n)
  {
    SafeNone(m, init, d);
  }

  // The approval branch: the record is acquired and then set to wait.
  lemma ApprovalSafe(m: Mission, init: SystemState, d: Durable, n: nat, t: string)
    requires Consistent(m, init, d) && t != "" && Selects(Current(m, init, d).capabilities, m.targets, t)
    requires (m.id, n) in d.cycles ==> d.cycles[(m.id, n)].status != CycleCompleted
    ensures var ws := [AcquireCycle((m.id, n), t), UpdateCycle((m.id, n), WaitingPatch)];
            Safe(m, init, d, ws) && Current(m, init, ApplyAll(d, ws)) == Current(m, init, d)
  {
    MidwayStart(m, init, d, n);
    MidwayAcquire(m, init, d, [], n, t);
    MidwayUpdate(m, init, d, [] + [AcquireCycle((m.id, n), t)], n, WaitingPatch);
    assert [] + [AcquireCycle((m.id, n), t)] + [UpdateCycle((m.id, n), WaitingPatch)]
        == [AcquireCycle((m.id, n), t), UpdateCycle((m.id, n), WaitingPatch)];
  }

  lemma RecoverySafe(m: Mission, init: SystemState, d: Durable, n: nat)
    requires Consistent(m, init, d) && (m.id, n) in d.cycles && d.cycles[(m.id, n)].status == CycleRunning
    ensures var plan := PlanRecovery(m, d, n, Current(m, init, d), d.cycles[(m.id, n)]);
            Safe(m, init, d, plan.writes) && Current(m, init, ApplyAll(d, plan.writes)) == plan.nextState
  {
    var s, rec := Current(m, init, d), d.cycles[(m.id, n)];
    assert RecordConsistent(m, s.capabilities, rec);
    MidwayStart(m, init, d, n);
    if RowVerified(d, rec.taskId) {
      var t := rec.target.value;
      var next := s.(capabilities := ApplyStateUpdate(s.capabilities, t, Verified));
      SaveVerified(m, init, d, t);
      SafeMore(m, init, d, [], SaveState(next));
      var d1 := Apply(d, SaveState(next));
      UpdateKeepsVerified(s.capabilities, t, Verified);
      UpdateStep(m, init, d1, n, RecoveredPatch);
      SafeMore(m, init, d, [] + [SaveState(next)], UpdateCycle((m.id, n), RecoveredPatch));
      assert [] + [SaveState(next)] + [UpdateCycle((m.id, n), RecoveredPatch)]
          == [SaveState(next)] + [UpdateCycle((m.id, n), RecoveredPatch)];
    } else {
      MidwayUpdate(m, init, d, [], n, CrashedPatch);
      assert [] + [UpdateCycle((m.id, n), CrashedPatch)] == [UpdateCycle((m.id, n), CrashedPatch)];
    }
  }

  lemma MissionUpdateSafe(m: Mission, init: SystemState, d: Durable, status: MissionStatus)
    requires Consistent(m, init, d)
    ensures Safe(m, init, d, [UpdateMission(m.id, status)])
    ensures Current(m, init, ApplyAll(d, [UpdateMission(m.id, status)])) == Current(m, init, d)
  {
    SafeNone(m, init, d);
    OtherWrite(m, init, d, UpdateMission(m.id, status));
    SafeMore(m, init, d, [], UpdateMission(m.id, status));
    assert [] + [UpdateMission(m.id, status)] == [UpdateMission(m.id, status)];
  }

  function CyclePlanOf(m: Mission, init: SystemState, d: Durable, n: nat, env: Env): CyclePlan {
    Plan(m, d, Existing(d, (m.id, n)), false, n, Current(m, init, d), env)
  }

  // A cycle run on the saved state keeps the invariant at each of its writes, whichever branch
  // it takes and whatever the worker does, and ends with the state it returns saved.
  lemma CycleSafe(m: Mission, init: SystemState, d: Durable, n: nat, env: Env)
    requires Consistent(m, init, d) && "" !in m.targets
    ensures var plan := CyclePlanOf(m, init, d, n, env);
            Safe(m, init, d, plan.writes) && Current(m, init, ApplyAll(d, plan.writes)) == plan.nextState
  {
    hide Safe;
    var s, existing := Current(m, init, d), Existing(d, (m.id, n));
    SafeNone(m, init, d);
    if existing.Some? && (existing.value.status == CycleCompleted || existing.value.status == CycleWaiting) {
    } else if existing.Some? && existing.value.status == CycleRunning {
      RecoverySafe(m, init, d, n);
    } else if n > m.maxCycles {
      MissionUpdateSafe(m, init, d, MissionPaused);
    } else {
      ActionMeaning(s.capabilities, m.targets);
      match NextAction(s.capabilities, m.targets)
      case CompleteMission => MissionUpdateSafe(m, init, d, MissionFinished);
      case BlockedReview => MissionUpdateSafe(m, init, d, MissionBlocked);
      case Advance(t, _, _, risk) =>
        if risk == HighRisk || risk == CriticalRisk {
          ApprovalSafe(m, init, d, n, t);
        } else {
          ExecutionSafe(m, init, d, n, t, env);
        }
    }
  }

  // ---------- Runs with crashes ----------

  // A running process is inside cycle n: the durable state in which the cycle started, what it
  // writes, and how many of the writes have been issued.
  datatype Process = Process(n: nat, start: Durable, plan: CyclePlan, issued: nat)

  // A crash, like the end of the mission loop, leaves only the durable part.
  datatype Config = Config(durable: Durable, process: Option<Process>)

  datatype Event =
    | Boot(env: Env)
    | Issue
    | NextCycle(env: Env)
    | Crash
    | TaskChanges(taskId: string, row: TaskRow)

  predicate Enabled(m: Mission, max: nat, c: Config, e: Event) {
    match e
    case Boot(_) => c.process.None?
    case Issue => c.process.Some? && c.process.value.issued < |c.process.value.plan.writes|
    case NextCycle(_) =>
      && c.process.Some? && c.process.value.issued == |c.process.value.plan.writes|
      && !c.process.value.plan.result.stopped && c.process.value.n < max
    case Crash => true
    case TaskChanges(_, _) => true
  }

  function Begin(m: Mission, d: Durable, n: nat, state: SystemState, env: Env): Process {
    Process(n, d, Plan(m, d, Existing(d, (m.id, n)), false, n, state, env), 0)
  }

  function Next(m: Mission, init: SystemState, max: nat, c: Config, e: Event): Config
    requires Enabled(m, max, c, e)
  {
    match e
    case Boot(env) => c.(process := Some(Begin(m, c.durable, 1, Current(m, init, c.durable), env)))
    case Issue =>
      var p := c.process.value;
      Config(Apply(c.durable, p.plan.writes[p.issued]), Some(p.(issued := p.issued + 1)))
    case NextCycle(env) =>
      var p := c.process.value;
      c.(process := Some(Begin(m, c.durable, p.n + 1, p.plan.nextState, env)))
    case Crash => c.(process := None)
    case TaskChanges(id, row) => c.(durable := c.durable.(tasks := c.durable.tasks[id := row]))
  }

  ghost predicate SameMission(a: Durable, b: Durable) {
    a.states == b.states && a.cycles == b.cycles
  }

  // The process has issued a prefix of a safe cycle; task rows may have changed meanwhile.
  ghost predicate ProcessSound(m: Mission, init: SystemState, d: Durable, p: Process) {
    && p.issued <= |p.plan.writes|
    && Safe(m, init, p.start, p.plan.writes)
    && Current(m, init, ApplyAll(p.start, p.plan.writes)) == p.plan.nextState
    && SameMission(d, ApplyAll(p.start, p.plan.writes[..p.issued]))
  }

  ghost predicate Sound(m: Mission, init: SystemState, c: Config) {
    && "" !in m.targets && Consistent(m, init, c.durable)
    && (c.process.Some? ==> ProcessSound(m, init, c.durable, c.process.value))
  }

  lemma SameMissionSameFacts(m: Mission, init: SystemState, a: Durable, b: Durable)
    requires SameMission(a, b)
    ensures Consistent(m, init, a) <==> Consistent(m, init, b)
    ensures Current(m, init, a) == Current(m, init, b)
  {
    hide RecordConsistent, DependencyClosed, WellKeyed;
  }

  lemma SameMissionApply(a: Durable, b: Durable, w: Write)
    requires SameMission(a, b)
    ensures SameMission(Apply(a, w), Apply(b, w))
  {
  }

  lemma BeginSound(m: Mission, init: SystemState, d: Durable, n: nat, env: Env)
    requires Consistent(m, init, d) && "" !in m.targets
    ensures ProcessSound(m, init, d, Begin(m, d, n, Current(m, init, d), env))
  {
    hide Safe, Plan, Consistent;
    CycleSafe(m, init, d, n, env);
    var ws := Plan(m, d, Existing(d, (m.id, n)), false, n, Current(m, init, d), env).writes;
    assert ws[..0] == [];
  }

  lemma IssueSound(m: Mission, init: SystemState, d: Durable, p: Process)
    requires ProcessSound(m, init, d, p) && p.issued < |p.plan.writes|
    ensures var d' := Apply(d, p.plan.writes[p.issued]);
            Consistent(m, init, d') && ProcessSound(m, init, d', p.(issued := p.issued + 1))
  {
    var ws, k := p.plan.writes, p.issued;
    assert ws[..k + 1] == ws[..k] + [ws[k]];
    ApplyAllMore(p.start, ws[..k], ws[k]);
    SameMissionApply(d, ApplyAll(p.start, ws[..k]), ws[k]);
    SameMissionSameFacts(m, init, Apply(d, ws[k]), ApplyAll(p.start, ws[..k + 1]));
  }

  lemma StepSound(m: Mission, init: SystemState, max: nat, c: Config, e: Event)
    requires Sound(m, init, c) && Enabled(m, max, c, e)
    ensures Sound(m, init, Next(m, init, max, c, e))
  {
    hide Consistent, Safe, Plan, Apply, ApplyAll, Current;
    match e
    case Boot(env) => BeginSound(m, init, c.durable, 1, env);
    case Issue => IssueSound(m, init, c.durable, c.process.value);
    case NextCycle(env) =>
      var p := c.process.value;
      assert p.plan.writes[..p.issued] == p.plan.writes;
      SameMissionSameFacts(m, init, c.durable, ApplyAll(p.start, p.plan.writes));
      BeginSound(m, init, c.durable, p.n + 1, env);
    case Crash =>
    case TaskChanges(id, row) =>
      SameMissionSameFacts(m, init, c.durable, c.durable.(tasks := c.durable.tasks[id := row]));
  }

  predicate Runs(m: Mission, init: SystemState, max: nat, c: Config, es: seq<Event>)
    decreases |es|
  {
    es == [] || (Enabled(m, max, c, es[0]) && Runs(m, init, max, Next(m, init, max, c, es[0]), es[1..]))
  }

  function After(m: Mission, init: SystemState, max: nat, c: Config, es: seq<Event>): Config
    requires Runs(m, init, max, c, es)
    decreases |es|
  {
    if es == [] then c else After(m, init, max, Next(m, init, max, c, es[0]), es[1..])
  }

  // What has been written so far in a cycle is a growing sequence of durable states.
  lemma StepGrows(m: Mission, init: SystemState, max: nat, c: Config, e: Event)
    requires Sound(m, init, c) && Enabled(m, max, c, e)
    ensures Grows(m, init, c.durable, Next(m, init, max, c, e).durable)
  {
    if e.Issue? {
      var p := c.process.value;
      var ws, k := p.plan.writes, p.issued;
      assert ws[..k + 1] == ws[..k] + [ws[k]];
      ApplyAllMore(p.start, ws[..k], ws[k]);
      SameMissionSameFacts(m, init, c.durable, ApplyAll(p.start, ws[..k]));
      SameMissionApply(c.durable, ApplyAll(p.start, ws[..k]), ws[k]);
      assert Grows(m, init, ApplyAll(p.start, ws[..k]), ApplyAll(p.start, ws[..k + 1]));
    }
  }

  // Over any run with any number of crashes and restarts, every durable state is consistent: a
  // cycle stored COMPLETED has its target verified in the saved state, and nothing verified or
  // completed is ever lost.
  lemma {:induction false} CrashSafety(m: Mission, init: SystemState, max: nat, c: Config, es: seq<Event>)
    requires Sound(m, init, c) && Runs(m, init, max, c, es)
    ensures Sound(m, init, After(m, init, max, c, es))
    ensures Grows(m, init, c.durable, After(m, init, max, c, es).durable)
    decreases |es|
  {
    if es != [] {
      var c1 := Next(m, init, max, c, es[0]);
      StepSound(m, init, max, c, es[0]);
      StepGrows(m, init, max, c, es[0]);
      CrashSafety(m, init, max, c1, es[1..]);
      GrowsTransitive(m, init, c.durable, c1.durable, After(m, init, max, c, es).durable);
    }
  }

  lemma FreshStart(m: Mission, init: SystemState)
    requires "" !in m.targets && init.missionId == m.id && WellKeyed(init.capabilities) && DependencyClosed(init.capabilities)
    ensures Sound(m, init, Config(Durable(map[], map[], map[], map[]), None))
  {
  }

  // Once a cycle is stored COMPLETED, beginning it again after any further run calls no worker
  // and writes nothing.
  lemma CompletedCycleNeverReruns(m: Mission, init: SystemState, max: nat, c: Config, es: seq<Event>, n: nat,
                                  state: SystemState, env: Env)
    requires Sound(m, init, c) && Runs(m, init, max, c, es)
    requires (m.id, n) in c.durable.cycles && c.durable.cycles[(m.id, n)].status == CycleCompleted
    ensures var p := Begin(m, After(m, init, max, c, es).durable, n, state, env);
            !p.plan.workerCalled && p.plan.writes == []
  {
    CrashSafety(m, init, max, c, es);
  }
}
