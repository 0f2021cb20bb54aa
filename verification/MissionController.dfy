// One cycle of the autonomous controller and the continuous mission loop
// (src/office/autonomous-execution-controller.ts), over the in-memory semantics of the
// durable state repository (src/office/autonomy-state-repository.ts).
module MissionController {
  import opened Wrappers
  import opened MissionLoop

  // ---------- What the worker leaves behind ----------

  datatype FinalizeStatus = FinalizeCompleted | FinalizeFailed | FinalizeBlocked

  datatype Finalize = Finalize(
    status: FinalizeStatus, testsPassed: Option<bool>, errorMessage: Option<string>,
    validationErrors: Option<seq<string>>, changedFiles: Option<seq<string>>,
    declaredChangedFiles: Option<seq<string>>, commitSha: Option<string>)

  datatype TaskRow = TaskRow(
    completed: bool, commitSha: Option<string>, finalize: Option<Finalize>, resultChangedFiles: Option<seq<string>>)

  const QueuedRow := TaskRow(false, None, None, None)

  datatype OutcomeStatus = OutcomeCompleted | OutcomeFailed | OutcomeBlocked

  datatype Outcome = Outcome(
    status: OutcomeStatus, finalize: Option<Finalize>, changedFiles: Option<seq<string>>, evidenceSnippet: Option<string>)

  predicate Truthy(s: Option<string>) {
    s.Some? && s.value != ""
  }

  predicate NonEmpty(files: Option<seq<string>>) {
    files.Some? && |files.value| > 0
  }

  // The || of two optional lists: a present list wins even if it is empty.
  function FirstPresent(a: Option<seq<string>>, b: Option<seq<string>>): Option<seq<string>> {
    if a.Some? then a else b
  }

  predicate FinalizerPassed(f: Finalize) {
    f.status == FinalizeCompleted && f.testsPassed != Some(false) && !Truthy(f.errorMessage)
  }

  // The evidence rule of the normal path.
  predicate Verifies(o: Outcome) {
    && o.status == OutcomeCompleted
    && (o.finalize.Some? ==> FinalizerPassed(o.finalize.value) && !NonEmpty(o.finalize.value.validationErrors))
    && (NonEmpty(o.changedFiles) || (o.finalize.Some? && Truthy(o.finalize.value.commitSha)) || Truthy(o.evidenceSnippet))
  }

  // The evidence rule of crash recovery, which reads the task row.
  predicate RecoveryVerifies(row: TaskRow) {
    && row.completed
    && (row.finalize.Some? ==> FinalizerPassed(row.finalize.value))
    && ((row.finalize.Some? && NonEmpty(row.finalize.value.changedFiles)) || Truthy(row.commitSha) || NonEmpty(row.resultChangedFiles))
  }

  // Both rules in the fields: what is missing or empty counts as absent.
  lemma PresentText(s: Option<string>)
    ensures Truthy(s) <==> s !in {None, Some("")}
  {
  }

  lemma PresentFiles(files: Option<seq<string>>)
    ensures NonEmpty(files) <==> files !in {None, Some([])}
  {
  }

  lemma AcceptedOutcome(o: Outcome)
    ensures Verifies(o) <==>
            && o.status == OutcomeCompleted
            && (o.finalize.None? || (
                  && o.finalize.value.status == FinalizeCompleted && o.finalize.value.testsPassed != Some(false)
                  && o.finalize.value.errorMessage in {None, Some("")}
                  && o.finalize.value.validationErrors in {None, Some([])}))
            && (|| o.changedFiles !in {None, Some([])}
                || (o.finalize.Some? && o.finalize.value.commitSha !in {None, Some("")})
                || o.evidenceSnippet !in {None, Some("")})
  {
    hide Truthy, NonEmpty;
    PresentFiles(o.changedFiles);
    PresentText(o.evidenceSnippet);
    if o.finalize.Some? {
      PresentText(o.finalize.value.errorMessage);
      PresentFiles(o.finalize.value.validationErrors);
      PresentText(o.finalize.value.commitSha);
    }
  }

  lemma AcceptedRow(row: TaskRow)
    ensures RecoveryVerifies(row) <==>
            && row.completed
            && (row.finalize.None? || (
                  && row.finalize.value.status == FinalizeCompleted && row.finalize.value.testsPassed != Some(false)
                  && row.finalize.value.errorMessage in {None, Some("")}))
            && (|| (row.finalize.Some? && row.finalize.value.changedFiles !in {None, Some([])})
                || row.commitSha !in {None, Some("")}
                || row.resultChangedFiles !in {None, Some([])})
  {
    hide Truthy, NonEmpty;
    PresentText(row.commitSha);
    PresentFiles(row.resultChangedFiles);
    if row.finalize.Some? {
      PresentText(row.finalize.value.errorMessage);
      PresentFiles(row.finalize.value.changedFiles);
    }
  }

  // WorkerRuntimeAdapter.execute: the outcome it derives from the row after the worker ran.
  function AdapterOutcome(executed: bool, row: Option<TaskRow>): Outcome {
    if !executed then Outcome(OutcomeBlocked, None, None, None)
    else if row.None? then Outcome(OutcomeFailed, None, None, None)
    else
      var r := row.value;
      Outcome(if r.completed then OutcomeCompleted else OutcomeFailed,
              r.finalize,
              if r.finalize.Some?
              then FirstPresent(r.finalize.value.changedFiles, FirstPresent(r.finalize.value.declaredChangedFiles, r.resultChangedFiles))
              else r.resultChangedFiles,
              if Truthy(r.commitSha) then Some("Commit SHA: " + r.commitSha.value) else None)
  }

  // ---------- Durable records ----------

  datatype RiskPolicy = Strict | Standard | Autonomous

  datatype MissionStatus = MissionActive | MissionFinished | MissionPaused | MissionBlocked

  datatype Mission = Mission(id: string, targets: seq<string>, riskPolicy: RiskPolicy, maxCycles: nat, status: MissionStatus)

  datatype SystemState = SystemState(missionId: string, capabilities: Capabilities)

  datatype CycleStatus = CycleRunning | CycleCompleted | CycleFailed | CycleBlocked | CycleWaiting

  datatype StopReason =
    | DuplicateCycleCall | CrashRecoveryRequired | MaxCyclesReached | AllTargetsVerified
    | NoActionableGap | AwaitingApproval | EnvironmentBlocked | UnrecoverableFailure

  datatype ExecutionStatus = ExecCompleted | ExecFailed | ExecBlocked | ExecWaiting

  datatype ValidationStatus = NotRun | Passed | FailedValidation | BlockedValidation

  datatype CycleRecord = CycleRecord(
    status: CycleStatus, target: Option<string>, taskId: Option<string>,
    execution: Option<ExecutionStatus>, validation: Option<ValidationStatus>, stopReason: Option<StopReason>)

  // The fields of an update; an absent field is left as it is. stopReason distinguishes "not
  // mentioned" from "set to undefined", which overwrites.
  datatype CyclePatch = CyclePatch(
    status: Option<CycleStatus>, taskId: Option<string>, execution: Option<ExecutionStatus>,
    validation: Option<ValidationStatus>, stopReason: Option<Option<StopReason>>)

  type CycleKey = (string, nat)

  datatype Durable = Durable(
    missions: map<string, Mission>, states: map<string, SystemState>,
    cycles: map<CycleKey, CycleRecord>, tasks: map<string, TaskRow>)

  datatype Write =
    | CreateMission(mission: Mission)
    | UpdateMission(id: string, status: MissionStatus)
    | SaveState(state: SystemState)
    | AcquireCycle(key: CycleKey, target: string)
    | UpdateCycle(key: CycleKey, patch: CyclePatch)
    | WriteTask(taskId: string, row: TaskRow)

  function Patched(rec: CycleRecord, p: CyclePatch): CycleRecord {
    CycleRecord(
      p.status.GetOr(rec.status), rec.target,
      if p.taskId.Some? then p.taskId else rec.taskId,
      if p.execution.Some? then p.execution else rec.execution,
      if p.validation.Some? then p.validation else rec.validation,
      p.stopReason.GetOr(rec.stopReason))
  }

  function Apply(d: Durable, w: Write): Durable {
    match w
    case CreateMission(m) => d.(missions := d.missions[m.id := m])
    case UpdateMission(id, status) =>
      if id in d.missions then d.(missions := d.missions[id := d.missions[id].(status := status)]) else d
    case SaveState(s) => d.(states := d.states[s.missionId := s])
    case AcquireCycle(key, target) =>
      if key in d.cycles then d
      else d.(cycles := d.cycles[key := CycleRecord(CycleRunning, Some(target), None, None, None, None)])
    case UpdateCycle(key, patch) =>
      if key in d.cycles then d.(cycles := d.cycles[key := Patched(d.cycles[key], patch)]) else d
    case WriteTask(id, row) => d.(tasks := d.tasks[id := row])
  }

  function ApplyAll(d: Durable, ws: seq<Write>): Durable {
    if ws == [] then d else Apply(ApplyAll(d, ws[..|ws| - 1]), ws[|ws| - 1])
  }

  lemma {:induction false} ApplyAllAppend(d: Durable, a: seq<Write>, b: seq<Write>)
    ensures ApplyAll(d, a + b) == ApplyAll(ApplyAll(d, a), b)
  {
    if b == [] {
      assert a + b == a;
    } else {
      assert (a + b)[..|a + b| - 1] == a + b[..|b| - 1];
      ApplyAllAppend(d, a, b[..|b| - 1]);
    }
  }

  // ---------- What one cycle writes, in order, and what it returns ----------

  datatype CycleResult = CycleResult(
    execution: ExecutionStatus, validation: ValidationStatus, taskId: Option<string>,
    updated: Option<string>, stopped: bool, stopReason: Option<StopReason>)

  datatype CyclePlan = CyclePlan(
    writes: seq<Write>, result: CycleResult, nextState: SystemState, missionStatus: MissionStatus, workerCalled: bool)

  // What the outside world does in one cycle: the id of the queued task, the row that the
  // worker leaves, and the outcome it reports.
  datatype Env = Env(taskId: string, row: TaskRow, outcome: Outcome)

  function Stop(e: ExecutionStatus, v: ValidationStatus, taskId: Option<string>, why: StopReason): CycleResult {
    CycleResult(e, v, taskId, None, true, Some(why))
  }

  function ValidationOf(o: Outcome): ValidationStatus {
    match o.status
    case OutcomeCompleted => if Verifies(o) then Passed else FailedValidation
    case OutcomeBlocked => BlockedValidation
    case OutcomeFailed => FailedValidation
  }

  function StateAfter(state: SystemState, target: string, o: Outcome): SystemState {
    if Verifies(o) && target != "" then
      state.(capabilities := ApplyStateUpdate(state.capabilities, target, Verified))
    else if ValidationOf(o) == FailedValidation && target != "" then
      state.(capabilities := ApplyStateUpdate(state.capabilities, target, Partial))
    else state
  }

  function StopReasonOf(m: Mission, o: Outcome): Option<StopReason> {
    if o.status == OutcomeBlocked then Some(EnvironmentBlocked)
    else if o.status == OutcomeFailed && m.riskPolicy == Strict then Some(UnrecoverableFailure)
    else None
  }

  function ExecutionOf(o: Outcome): ExecutionStatus {
    match o.status
    case OutcomeCompleted => ExecCompleted
    case OutcomeFailed => ExecFailed
    case OutcomeBlocked => ExecBlocked
  }

  function FinalStatus(o: Outcome): CycleStatus {
    match o.status
    case OutcomeCompleted => if Verifies(o) then CycleCompleted else CycleFailed
    case OutcomeBlocked => CycleBlocked
    case OutcomeFailed => CycleFailed
  }

  const OnlyTask := (id: string) => CyclePatch(None, Some(id), None, None, None)

  function FinalPatch(m: Mission, o: Outcome): CyclePatch {
    CyclePatch(Some(FinalStatus(o)), None, Some(ExecutionOf(o)), Some(ValidationOf(o)), Some(StopReasonOf(m, o)))
  }

  function ExecuteWrites(m: Mission, n: nat, state: SystemState, target: string, env: Env): seq<Write> {
    var key := (m.id, n);
    [CreateMission(m), SaveState(state), AcquireCycle(key, target),
     WriteTask(env.taskId, QueuedRow), UpdateCycle(key, OnlyTask(env.taskId)),
     WriteTask(env.taskId, env.row),
     SaveState(StateAfter(state, target, env.outcome)), UpdateCycle(key, FinalPatch(m, env.outcome))]
  }

  function PlanExecution(m: Mission, n: nat, state: SystemState, target: string, env: Env): CyclePlan {
    var o := env.outcome;
    var touched := target != "" && (Verifies(o) || ValidationOf(o) == FailedValidation);
    CyclePlan(ExecuteWrites(m, n, state, target, env),
              CycleResult(ExecutionOf(o), ValidationOf(o), Some(env.taskId), if touched then Some(target) else None,
                          StopReasonOf(m, o).Some?, StopReasonOf(m, o)),
              StateAfter(state, target, o), m.status, true)
  }

  const WaitingPatch := CyclePatch(Some(CycleWaiting), None, Some(ExecWaiting), Some(NotRun), Some(Some(AwaitingApproval)))
  const CrashedPatch := CyclePatch(Some(CycleFailed), None, Some(ExecFailed), Some(FailedValidation), Some(Some(CrashRecoveryRequired)))
  const RecoveredPatch := CyclePatch(Some(CycleCompleted), None, Some(ExecCompleted), Some(Passed), None)

  function PlanFresh(m: Mission, n: nat, state: SystemState, env: Env): CyclePlan {
    if n > m.maxCycles then
      CyclePlan([UpdateMission(m.id, MissionPaused)], Stop(ExecBlocked, NotRun, None, MaxCyclesReached), state, MissionPaused,
                false)
    else
      match NextAction(state.capabilities, m.targets)
      case CompleteMission =>
        CyclePlan([UpdateMission(m.id, MissionFinished)], Stop(ExecCompleted, Passed, None, AllTargetsVerified), state,
                  MissionFinished, false)
      case BlockedReview =>
        CyclePlan([UpdateMission(m.id, MissionBlocked)], Stop(ExecBlocked, BlockedValidation, None, NoActionableGap), state,
                  MissionBlocked, false)
      case Advance(target, _, _, risk) =>
        if risk == HighRisk || risk == CriticalRisk then
          CyclePlan([AcquireCycle((m.id, n), target), UpdateCycle((m.id, n), WaitingPatch)],
                    Stop(ExecWaiting, NotRun, None, AwaitingApproval), state, m.status, false)
        else PlanExecution(m, n, state, target, env)
  }

  predicate RowVerified(d: Durable, taskId: Option<string>) {
    Truthy(taskId) && taskId.value in d.tasks && RecoveryVerifies(d.tasks[taskId.value])
  }

  function PlanRecovery(m: Mission, d: Durable, n: nat, state: SystemState, rec: CycleRecord): CyclePlan {
    if RowVerified(d, rec.taskId) then
      var next := if Truthy(rec.target)
                  then state.(capabilities := ApplyStateUpdate(state.capabilities, rec.target.value, Verified))
                  else state;
      CyclePlan((if Truthy(rec.target) then [SaveState(next)] else []) + [UpdateCycle((m.id, n), RecoveredPatch)],
                CycleResult(ExecCompleted, Passed, rec.taskId, if Truthy(rec.target) then rec.target else None, false, None),
                next, m.status, false)
    else
      CyclePlan([UpdateCycle((m.id, n), CrashedPatch)],
                Stop(ExecFailed, FailedValidation, if Truthy(rec.taskId) then rec.taskId else None, CrashRecoveryRequired),
                state, m.status, false)
  }

  function PlanReplay(m: Mission, d: Durable, state: SystemState, rec: CycleRecord): CyclePlan {
    CyclePlan([],
              CycleResult(rec.execution.GetOr(ExecCompleted), rec.validation.GetOr(Passed),
                          if Truthy(rec.taskId) then rec.taskId else None, None, rec.stopReason.Some?, rec.stopReason),
              if m.id in d.states then d.states[m.id] else state, m.status, false)
  }

  function PlanDuplicate(m: Mission, state: SystemState): CyclePlan {
    CyclePlan([], Stop(ExecBlocked, NotRun, None, DuplicateCycleCall), state, m.status, false)
  }

  // existing is the stored record, absent when there is none or no repository is attached.
  function Plan(m: Mission, d: Durable, existing: Option<CycleRecord>, active: bool, n: nat, state: SystemState, env: Env)
    : CyclePlan
  {
    if existing.Some? && existing.value.status == CycleCompleted then PlanReplay(m, d, state, existing.value)
    else if existing.Some? && existing.value.status == CycleWaiting then
      CyclePlan([], Stop(ExecWaiting, NotRun, if Truthy(existing.value.taskId) then existing.value.taskId else None, AwaitingApproval),
                state, m.status, false)
    else if active then PlanDuplicate(m, state)
    else if existing.Some? && existing.value.status == CycleRunning then PlanRecovery(m, d, n, state, existing.value)
    else PlanFresh(m, n, state, env)
  }

  function Existing(d: Durable, key: CycleKey): Option<CycleRecord> {
    Get(d.cycles, key)
  }

  // Without a repository only the task rows are written.
  function Kept(durable: bool, ws: seq<Write>): seq<Write> {
    if durable || ws == [] then ws
    else
      var last := ws[|ws| - 1];
      Kept(durable, ws[..|ws| - 1]) + if last.WriteTask? then [last] else []
  }

  lemma {:induction false} KeptAppend(durable: bool, a: seq<Write>, b: seq<Write>)
    ensures Kept(durable, a + b) == Kept(durable, a) + Kept(durable, b)
  {
    if b == [] {
      assert a + b == a;
    } else {
      assert (a + b)[..|a + b| - 1] == a + b[..|b| - 1];
      KeptAppend(durable, a, b[..|b| - 1]);
    }
  }

  lemma NothingWritten(d: Durable, durable: bool)
    ensures Kept(durable, []) == [] && ApplyAll(d, []) == d
  {
  }

  lemma AppendWrites(d: Durable, durable: bool, a: seq<Write>, b: seq<Write>)
    ensures ApplyAll(d, Kept(durable, a + b)) == ApplyAll(ApplyAll(d, Kept(durable, a)), Kept(durable, b))
  {
    KeptAppend(durable, a, b);
    ApplyAllAppend(d, Kept(durable, a), Kept(durable, b));
  }

  lemma PersistStep(d: Durable, durable: bool, log: seq<Write>, w: Write)
    ensures ApplyAll(d, Kept(durable, log + [w]))
            == if durable || w.WriteTask? then Apply(ApplyAll(d, Kept(durable, log)), w) else ApplyAll(d, Kept(durable, log))
  {
    AppendWrites(d, durable, log, [w]);
    assert [w][..0] == [];
    if durable || w.WriteTask? {
      assert Kept(durable, [w]) == [w];
    }
  }

  // A cycle stops the mission exactly when it gives a reason.
  lemma StoppedMeansReason(m: Mission, d: Durable, existing: Option<CycleRecord>, active: bool, n: nat, state: SystemState, env: Env)
    ensures var r := Plan(m, d, existing, active, n, state, env).result; r.stopped <==> r.stopReason.Some?
  {
    hide NextAction, ExecuteWrites, StateAfter, RowVerified, ApplyStateUpdate, Verifies, ValidationOf, ExecutionOf, StopReasonOf;
  }

  // ---------- The repositories and the controller ----------

  class AutonomyStateRepository {
    var missions: map<string, Mission>
    var states: map<string, SystemState>
    var cycles: map<CycleKey, CycleRecord>

    constructor ()
      ensures missions == map[] && states == map[] && cycles == map[]
    {
      missions, states, cycles := map[], map[], map[];
    }

    // What is stored, beside the given task rows.
    function View(tasks: map<string, TaskRow>): Durable
      reads this
    {
      Durable(missions, states, cycles, tasks)
    }

    method Create(m: Mission, ghost tasks: map<string, TaskRow>)
      modifies this`missions
      ensures View(tasks) == Apply(old(View(tasks)), CreateMission(m))
    {
      missions := missions[m.id := m];
    }

    method Update(id: string, status: MissionStatus, ghost tasks: map<string, TaskRow>)
      modifies this`missions
      ensures View(tasks) == Apply(old(View(tasks)), UpdateMission(id, status))
    {
      if id !in missions {
        return;
      }
      missions := missions[id := missions[id].(status := status)];
    }

    method SaveCurrentState(s: SystemState, ghost tasks: map<string, TaskRow>)
      modifies this`states
      ensures View(tasks) == Apply(old(View(tasks)), SaveState(s))
    {
      states := states[s.missionId := s];
    }

    method Acquire(key: CycleKey, target: string, ghost tasks: map<string, TaskRow>) returns (acquired: bool)
      modifies this`cycles
      ensures View(tasks) == Apply(old(View(tasks)), AcquireCycle(key, target))
      ensures acquired <==> key !in old(cycles)
    {
      if key in cycles {
        return false;
      }
      cycles := cycles[key := CycleRecord(CycleRunning, Some(target), None, None, None, None)];
      acquired := true;
    }

    method UpdateRecord(key: CycleKey, patch: CyclePatch, ghost tasks: map<string, TaskRow>)
      modifies this`cycles
      ensures View(tasks) == Apply(old(View(tasks)), UpdateCycle(key, patch))
    {
      if key !in cycles {
        return;
      }
      cycles := cycles[key := Patched(cycles[key], patch)];
    }
  }

  class TaskRows {
    var rows: map<string, TaskRow>

    constructor ()
      ensures rows == map[]
    {
      rows := map[];
    }
  }

  class AutonomousExecutionController {
    const stateRepo: AutonomyStateRepository?
    const taskRepo: TaskRows
    var activeCycleKeys: set<CycleKey>
    // The writes issued so far, and what the repositories held before the first of them.
    ghost var log: seq<Write>
    ghost const start: Durable

    constructor (stateRepo: AutonomyStateRepository?, taskRepo: TaskRows)
      ensures this.stateRepo == stateRepo && this.taskRepo == taskRepo
      ensures Valid() && log == [] && activeCycleKeys == {}
    {
      this.stateRepo, this.taskRepo := stateRepo, taskRepo;
      activeCycleKeys, log := {}, [];
      start := if stateRepo == null then Durable(map[], map[], map[], taskRepo.rows) else stateRepo.View(taskRepo.rows);
    }

    ghost function World(): Durable
      reads this, stateRepo, taskRepo
    {
      if stateRepo == null then Durable(map[], map[], map[], taskRepo.rows) else stateRepo.View(taskRepo.rows)
    }

    ghost predicate Valid()
      reads this, stateRepo, taskRepo
    {
      World() == ApplyAll(start, Kept(stateRepo != null, log))
    }

    // One awaited write; writes to the state repository are skipped when there is none.
    method Persist(w: Write)
      requires Valid()
      modifies this`log, stateRepo, taskRepo
      ensures Valid() && log == old(log) + [w]
      ensures w.WriteTask? ==> taskRepo.rows == old(taskRepo.rows)[w.taskId := w.row]
      ensures !w.WriteTask? ==> taskRepo.rows == old(taskRepo.rows)
    {
      PersistStep(start, stateRepo != null, log, w);
      hide ApplyAll, Kept, Patched;
      log := log + [w];
      if w.WriteTask? {
        taskRepo.rows := taskRepo.rows[w.taskId := w.row];
      } else if stateRepo != null {
        match w {
          case CreateMission(m) => stateRepo.Create(m, taskRepo.rows);
          case UpdateMission(id, status) => stateRepo.Update(id, status, taskRepo.rows);
          case SaveState(s) => stateRepo.SaveCurrentState(s, taskRepo.rows);
          case AcquireCycle(key, target) => var acquired := stateRepo.Acquire(key, target, taskRepo.rows);
          case UpdateCycle(key, patch) => stateRepo.UpdateRecord(key, patch, taskRepo.rows);
          case WriteTask(_, _) =>
        }
      }
    }

    ghost function Stored(key: CycleKey): Option<CycleRecord>
      reads this, stateRepo, taskRepo
    {
      if stateRepo == null then None else Existing(World(), key)
    }

    method Recover(mission: Mission, state: SystemState, n: nat, rec: CycleRecord)
      returns (result: CycleResult, nextState: SystemState)
      requires Valid()
      modifies this`log, stateRepo, taskRepo
      ensures Valid()
      ensures var plan := PlanRecovery(mission, old(World()), n, state, rec);
              && log == old(log) + plan.writes && result == plan.result && nextState == plan.nextState
              && plan.missionStatus == mission.status
    {
      hide Valid, ApplyStateUpdate, RecoveryVerifies, ApplyAll, Kept;
      var taskId := if Truthy(rec.taskId) then rec.taskId else None;
      if Truthy(rec.taskId) && rec.taskId.value in taskRepo.rows {
        if RecoveryVerifies(taskRepo.rows[rec.taskId.value]) {
          nextState := state;
          var updated: Option<string> := None;
          if Truthy(rec.target) {
            nextState := state.(capabilities := ApplyStateUpdate(state.capabilities, rec.target.value, Verified));
            updated := rec.target;
            Persist(SaveState(nextState));
          }
          Persist(UpdateCycle((mission.id, n), RecoveredPatch));
          return CycleResult(ExecCompleted, Passed, rec.taskId, updated, false, None), nextState;
        }
      }
      Persist(UpdateCycle((mission.id, n), CrashedPatch));
      return Stop(ExecFailed, FailedValidation, taskId, CrashRecoveryRequired), state;
    }

    // Steps 8 to 10: acquire the cycle, enqueue the task and run the worker, which leaves its row.
    method EnqueueAndRun(mission: Mission, state: SystemState, key: CycleKey, target: string, env: Env) returns (outcome: Outcome)
      requires Valid()
      modifies this`log, stateRepo, taskRepo
      ensures Valid() && outcome == env.outcome
      ensures log == old(log) + [CreateMission(mission), SaveState(state), AcquireCycle(key, target),
                                 WriteTask(env.taskId, QueuedRow), UpdateCycle(key, OnlyTask(env.taskId)),
                                 WriteTask(env.taskId, env.row)]
    {
      hide Valid;
      Persist(CreateMission(mission));
      Persist(SaveState(state));
      Persist(AcquireCycle(key, target));
      Persist(WriteTask(env.taskId, QueuedRow));
      Persist(UpdateCycle(key, OnlyTask(env.taskId)));
      Persist(WriteTask(env.taskId, env.row));
      outcome := env.outcome;
    }

    // Steps 11 and 12: evidence-first validation and the state update.
    method Validate(state: SystemState, target: string, outcome: Outcome)
      returns (isVerified: bool, validation: ValidationStatus, nextState: SystemState, updated: Option<string>)
      ensures validation == ValidationOf(outcome) && nextState == StateAfter(state, target, outcome)
      ensures isVerified <==> Verifies(outcome)
      ensures isVerified <==>
              && outcome.status == OutcomeCompleted
              && (outcome.finalize.None? || (
                    && outcome.finalize.value.status == FinalizeCompleted && outcome.finalize.value.testsPassed != Some(false)
                    && outcome.finalize.value.errorMessage in {None, Some("")}
                    && outcome.finalize.value.validationErrors in {None, Some([])}))
              && (|| outcome.changedFiles !in {None, Some([])}
                  || (outcome.finalize.Some? && outcome.finalize.value.commitSha !in {None, Some("")})
                  || outcome.evidenceSnippet !in {None, Some("")})
      ensures updated == if target != "" && (isVerified || validation == FailedValidation) then Some(target) else None
    {
      AcceptedOutcome(outcome);
      isVerified, validation, nextState, updated := false, NotRun, state, None;
      if outcome.status == OutcomeCompleted {
        var finalizerPassed := outcome.finalize.None?
                               || (FinalizerPassed(outcome.finalize.value) && !NonEmpty(outcome.finalize.value.validationErrors));
        var hasStrongEvidence := NonEmpty(outcome.changedFiles)
                                 || (outcome.finalize.Some? && Truthy(outcome.finalize.value.commitSha))
                                 || Truthy(outcome.evidenceSnippet);
        isVerified := finalizerPassed && hasStrongEvidence;
        validation := if isVerified then Passed else FailedValidation;
      } else if outcome.status == OutcomeBlocked {
        validation := BlockedValidation;
      } else {
        validation := FailedValidation;
      }
      if isVerified && target != "" {
        nextState, updated := state.(capabilities := ApplyStateUpdate(state.capabilities, target, Verified)), Some(target);
      } else if validation == FailedValidation && target != "" {
        nextState, updated := state.(capabilities := ApplyStateUpdate(state.capabilities, target, Partial)), Some(target);
      }
    }

    method Execute(mission: Mission, state: SystemState, n: nat, target: string, env: Env)
      returns (result: CycleResult, nextState: SystemState)
      requires Valid()
      modifies this`log, stateRepo, taskRepo
      ensures Valid()
      ensures var plan := PlanExecution(mission, n, state, target, env);
              log == old(log) + plan.writes && result == plan.result && nextState == plan.nextState
    {
      hide Valid, StateAfter, Verifies, ApplyStateUpdate;
      var key := (mission.id, n);
      var outcome := EnqueueAndRun(mission, state, key, target, env);
      var isVerified, validation, next, updated := Validate(state, target, outcome);
      nextState := next;
      var stopped := outcome.status == OutcomeBlocked || (outcome.status == OutcomeFailed && mission.riskPolicy == Strict);
      var stopReason := if outcome.status == OutcomeBlocked then Some(EnvironmentBlocked)
                        else if stopped then Some(UnrecoverableFailure) else None;
      Persist(SaveState(nextState));
      var status := match outcome.status
                    case OutcomeCompleted => (if isVerified then CycleCompleted else CycleFailed)
                    case OutcomeBlocked => CycleBlocked
                    case OutcomeFailed => CycleFailed;
      Persist(UpdateCycle(key, CyclePatch(Some(status), None, Some(ExecutionOf(outcome)), Some(validation), Some(stopReason))));
      result := CycleResult(ExecutionOf(outcome), validation, Some(env.taskId), updated, stopped, stopReason);
    }

    // Steps 2 to 7: the stop conditions and the approval check.
    method RunFresh(mission: Mission, state: SystemState, n: nat, env: Env)
      returns (result: CycleResult, nextState: SystemState, status: MissionStatus)
      requires Valid()
      modifies this`log, stateRepo, taskRepo
      ensures Valid()
      ensures var plan := PlanFresh(mission, n, state, env);
              log == old(log) + plan.writes && result == plan.result && nextState == plan.nextState && status == plan.missionStatus
    {
      hide Valid, ExecuteWrites, StateAfter, Verifies, ValidationOf, SelectNextBestAction, Gaps;
      nextState, status := state, mission.status;
      if n > mission.maxCycles {
        status := MissionPaused;
        Persist(UpdateMission(mission.id, MissionPaused));
        return Stop(ExecBlocked, NotRun, None, MaxCyclesReached), nextState, status;
      }
      var gaps := AnalyzeGaps(state.capabilities, mission.targets);
      var action := SelectNextBestAction(state.capabilities, gaps);
      match action {
        case CompleteMission =>
          status := MissionFinished;
          Persist(UpdateMission(mission.id, MissionFinished));
          result := Stop(ExecCompleted, Passed, None, AllTargetsVerified);
        case BlockedReview =>
          status := MissionBlocked;
          Persist(UpdateMission(mission.id, MissionBlocked));
          result := Stop(ExecBlocked, BlockedValidation, None, NoActionableGap);
        case Advance(target, _, _, risk) =>
          if risk == HighRisk || risk == CriticalRisk {
            Persist(AcquireCycle((mission.id, n), target));
            Persist(UpdateCycle((mission.id, n), WaitingPatch));
            result := Stop(ExecWaiting, NotRun, None, AwaitingApproval);
          } else {
            result, nextState := Execute(mission, state, n, target, env);
          }
      }
    }

    // The stored result of a completed cycle, with the last saved state.
    method Replay(mission: Mission, state: SystemState, existing: CycleRecord)
      returns (result: CycleResult, nextState: SystemState)
      requires stateRepo != null
      ensures var plan := PlanReplay(mission, World(), state, existing);
              && plan.writes == [] && result == plan.result && nextState == plan.nextState
              && plan.missionStatus == mission.status
    {
      nextState := state;
      var taskId := if Truthy(existing.taskId) then existing.taskId else None;
      if mission.id in stateRepo.states {
        nextState := stateRepo.states[mission.id];
      }
      result := CycleResult(existing.execution.GetOr(ExecCompleted), existing.validation.GetOr(Passed), taskId, None,
                            existing.stopReason.Some?, existing.stopReason);
    }

    method ExecuteCycle(mission: Mission, state: SystemState, n: nat, env: Env)
      returns (result: CycleResult, nextState: SystemState, status: MissionStatus)
      requires Valid()
      modifies this, stateRepo, taskRepo
      ensures Valid() && activeCycleKeys == old(activeCycleKeys)
      ensures var plan := Plan(mission, old(World()), old(Stored((mission.id, n))),
                               (mission.id, n) in old(activeCycleKeys), n, state, env);
              && log == old(log) + plan.writes
              && World() == ApplyAll(old(World()), Kept(stateRepo != null, plan.writes))
              && result == plan.result && nextState == plan.nextState && status == plan.missionStatus
    {
      ghost var writes := Plan(mission, World(), Stored((mission.id, n)), (mission.id, n) in activeCycleKeys, n, state, env).writes;
      AppendWrites(start, stateRepo != null, log, writes);
      NothingWritten(World(), stateRepo != null);
      hide PlanFresh, PlanRecovery, PlanReplay, Kept, ApplyAll, Truthy;
      var key := (mission.id, n);
      nextState, status := state, mission.status;
      if stateRepo != null && key in stateRepo.cycles {
        var existing := stateRepo.cycles[key];
        if existing.status == CycleCompleted {
          result, nextState := Replay(mission, state, existing);
          return;
        }
        if existing.status == CycleWaiting {
          var taskId := if Truthy(existing.taskId) then existing.taskId else None;
          return Stop(ExecWaiting, NotRun, taskId, AwaitingApproval), nextState, status;
        }
        if existing.status == CycleRunning {
          if key in activeCycleKeys {
            return Stop(ExecBlocked, NotRun, None, DuplicateCycleCall), nextState, status;
          }
          result, nextState := Recover(mission, state, n, existing);
          return;
        }
      }
      if key in activeCycleKeys {
        return Stop(ExecBlocked, NotRun, None, DuplicateCycleCall), nextState, status;
      }
      activeCycleKeys := activeCycleKeys + {key};
      result, nextState, status := RunFresh(mission, state, n, env);
      activeCycleKeys := activeCycleKeys - {key};
    }

    // One turn of the continuous loop, outside of which no cycle is active.
    method Turn(m: Mission, state: SystemState, n: nat, ghost env: nat -> Env, e: Env)
      returns (result: CycleResult, nextState: SystemState, after: Mission, stop: bool)
      requires Valid() && activeCycleKeys == {} && e == env(n)
      modifies this, stateRepo, taskRepo
      ensures Valid() && activeCycleKeys == {}
      ensures var plan := LoopPlan(m, stateRepo != null, old(World()), n, state, env);
              && log == old(log) + plan.writes
              && World() == ApplyAll(old(World()), Kept(stateRepo != null, plan.writes))
              && result == plan.result && nextState == plan.nextState
              && after == m.(status := plan.missionStatus) && stop == plan.result.stopped
    {
      StoppedMeansReason(m, World(), Stored((m.id, n)), false, n, state, e);
      var status;
      result, nextState, status := ExecuteCycle(m, state, n, e);
      after := m.(status := status);
      stop := result.stopped || (result.execution == ExecCompleted && result.stopReason == Some(AllTargetsVerified));
    }

    // The continuous loop; env says what happens in each cycle.
    method ExecuteMissionContinuously(mission: Mission, initial: SystemState, maxOption: nat, env: nat -> Env)
      returns (cycles: seq<CycleResult>, finalState: SystemState, status: MissionStatus)
      requires Valid() && activeCycleKeys == {}
      modifies this, stateRepo, taskRepo
      ensures Valid() && activeCycleKeys == {}
      ensures var run := Loop(mission, stateRepo != null, old(World()), 1, CycleLimit(mission, maxOption), initial, env);
              && cycles == run.cycles && finalState == run.state && status == run.mission.status
              && World() == run.world
    {
      hide Plan, LoopPlan, Loop, ApplyAll, Kept;
      cycles, finalState := [], initial;
      var m, cycleCount := mission, 0;
      var max := if maxOption != 0 then maxOption else if mission.maxCycles != 0 then mission.maxCycles else 5;
      ghost var next: nat := cycleCount + 1;
      ghost var whole := Loop(mission, stateRepo != null, World(), next, max, initial, env);
      ghost var rest := whole;
      var stop := false;
      while cycleCount < max && !stop
        invariant Valid() && activeCycleKeys == {} && cycleCount <= max && next == cycleCount + 1
        invariant whole == rest.Behind(cycles)
        invariant rest == if stop then LoopRun([], finalState, m, World())
                          else Loop(m, stateRepo != null, World(), next, max, finalState, env)
        decreases max - cycleCount, !stop
      {
        cycleCount, next := cycleCount + 1, next + 1;
        ghost var before := cycles;
        LoopStep(m, stateRepo != null, World(), cycleCount, max, finalState, env);
        var result;
        result, finalState, m, stop := Turn(m, finalState, cycleCount, env, env(cycleCount));
        rest := if stop then LoopRun([], finalState, m, World())
                else Loop(m, stateRepo != null, World(), next, max, finalState, env);
        rest.BehindMore(before, result);
        cycles := cycles + [result];
      }
      if !stop {
        LoopEnd(m, stateRepo != null, World(), next, max, finalState, env);
      }
      status := m.status;
    }
  }

  function CycleLimit(m: Mission, maxOption: nat): nat {
    if maxOption != 0 then maxOption else if m.maxCycles != 0 then m.maxCycles else 5
  }

  datatype LoopRun = LoopRun(cycles: seq<CycleResult>, state: SystemState, mission: Mission, world: Durable)
  {
    function Behind(earlier: seq<CycleResult>): LoopRun {
      this.(cycles := earlier + cycles)
    }

    lemma BehindMore(earlier: seq<CycleResult>, r: CycleResult)
      ensures Behind([r]).Behind(earlier) == Behind(earlier + [r])
    {
      assert earlier + ([r] + cycles) == (earlier + [r]) + cycles;
    }
  }

  function LoopPlan(m: Mission, durable: bool, d: Durable, n: nat, state: SystemState, env: nat -> Env): CyclePlan {
    Plan(m, d, if durable then Existing(d, (m.id, n)) else None, false, n, state, env(n))
  }

  // Cycles n, n + 1, ... up to max, until one stops the mission.
  function Loop(m: Mission, durable: bool, d: Durable, n: nat, max: nat, state: SystemState, env: nat -> Env): LoopRun
    decreases max + 1 - n
  {
    if n > max then LoopRun([], state, m, d)
    else
      var plan := LoopPlan(m, durable, d, n, state, env);
      var m' := m.(status := plan.missionStatus);
      var d' := ApplyAll(d, Kept(durable, plan.writes));
      (if plan.result.stopped then LoopRun([], plan.nextState, m', d')
       else Loop(m', durable, d', n + 1, max, plan.nextState, env)).Behind([plan.result])
  }

  lemma LoopEnd(m: Mission, durable: bool, d: Durable, n: nat, max: nat, state: SystemState, env: nat -> Env)
    requires n > max
    ensures Loop(m, durable, d, n, max, state, env) == LoopRun([], state, m, d)
  {
  }

  lemma LoopStep(m: Mission, durable: bool, d: Durable, n: nat, max: nat, state: SystemState, env: nat -> Env)
    requires n <= max
    ensures var plan := LoopPlan(m, durable, d, n, state, env);
            var m' := m.(status := plan.missionStatus);
            var d' := ApplyAll(d, Kept(durable, plan.writes));
            Loop(m, durable, d, n, max, state, env)
            == (if plan.result.stopped then LoopRun([], plan.nextState, m', d')
                else Loop(m', durable, d', n + 1, max, plan.nextState, env)).Behind([plan.result])
  {
  }
}
