// The pipeline state machine: ticks, CEO checkpoints and step completion
// (src/office/autonomous-pipeline.ts).
module Pipeline {
  import opened Wrappers
  import opened Graphs
  import opened PipelineDag

  datatype CheckpointStatus = Pending | Granted | Rejected

  datatype StepStatus =
    | NotStarted | WaitingDependency | WaitingCheckpoint | Ready | Assigned | InProgress | Completed | Failed | Skipped

  datatype PipelineStatus = Planning | Running | Paused | WaitingApproval | Done | Broken | Cancelled

  datatype Step = Step(id: string, dependsOn: seq<string>, status: StepStatus, checkpoint: Option<CheckpointStatus>)

  datatype PipelineState = PipelineState(
    tenantId: string, status: PipelineStatus, steps: seq<Step>, totalSteps: nat, completedSteps: nat)

  datatype Error = MissingTitle | NoSteps | CyclicSteps(stepId: string) | PipelineNotFound | StepNotFound

  // ---------- What one tick does ----------

  function CompletedIds(steps: seq<Step>): set<string> {
    set s | s in steps && s.status == Completed :: s.id
  }

  predicate DependenciesDone(step: Step, done: set<string>) {
    forall d :: d in step.dependsOn ==> d in done
  }

  predicate Actionable(step: Step, done: set<string>) {
    step.status != Completed && DependenciesDone(step, done)
  }

  predicate AwaitsCheckpoint(step: Step, done: set<string>) {
    Actionable(step, done) && step.checkpoint == Some(Pending)
  }

  predicate Refused(step: Step, done: set<string>) {
    Actionable(step, done) && step.checkpoint == Some(Rejected)
  }

  function Advance(step: Step, done: set<string>): Step {
    if step.status == Completed then step
    else if !DependenciesDone(step, done) then step.(status := WaitingDependency)
    else if step.checkpoint == Some(Pending) then step.(status := WaitingCheckpoint)
    else if step.checkpoint == Some(Rejected) then step.(status := Failed)
    else if step.status == WaitingDependency || step.status == NotStarted then step.(status := Ready)
    else step
  }

  function AdvanceUpTo(steps: seq<Step>, done: set<string>, n: nat): (r: seq<Step>)
    requires n <= |steps|
    ensures |r| == |steps|
    ensures forall i :: 0 <= i < n ==> r[i] == Advance(steps[i], done)
    ensures forall i :: n <= i < |steps| ==> r[i] == steps[i]
  {
    seq(|steps|, i requires 0 <= i < |steps| => if i < n then Advance(steps[i], done) else steps[i])
  }

  // The position of the first step whose rejected checkpoint ends the tick, or the number of steps.
  function FirstRefused(steps: seq<Step>, done: set<string>): (n: nat)
    ensures n <= |steps|
    ensures n < |steps| ==> Refused(steps[n], done)
    ensures forall i :: 0 <= i < n ==> !Refused(steps[i], done)
  {
    if steps == [] then 0
    else if Refused(steps[0], done) then 0
    else 1 + FirstRefused(steps[1..], done)
  }

  function Count(steps: seq<Step>, f: Step -> bool): nat {
    if steps == [] then 0
    else Count(steps[..|steps| - 1], f) + if f(steps[|steps| - 1]) then 1 else 0
  }

  const IsCompleted := (s: Step) => s.status == Completed
  const IsOpen := (s: Step) => s.status != Completed
  const IsUndecided := (s: Step) => s.status != Completed && s.checkpoint == Some(Pending)

  predicate Terminal(status: PipelineStatus) {
    status == Done || status == Broken || status == Cancelled
  }

  function Tick(p: PipelineState): PipelineState {
    if Terminal(p.status) then p
    else
      var done := CompletedIds(p.steps);
      var n := FirstRefused(p.steps, done);
      if n < |p.steps| then
        p.(steps := AdvanceUpTo(p.steps, done, n + 1), status := Broken)
      else
        var completed := Count(p.steps, IsCompleted);
        p.(steps := AdvanceUpTo(p.steps, done, n),
           completedSteps := completed,
           status := if completed == p.totalSteps then Done
                     else if exists i :: 0 <= i < |p.steps| && AwaitsCheckpoint(p.steps[i], done) then WaitingApproval
                     else Running)
  }

  // Array.find by id: the position of the first match, or the number of steps.
  function Find(steps: seq<Step>, id: string): (n: nat)
    ensures n <= |steps|
    ensures n < |steps| ==> steps[n].id == id
    ensures forall i :: 0 <= i < n ==> steps[i].id != id
  {
    if steps == [] then 0
    else if steps[0].id == id then 0
    else 1 + Find(steps[1..], id)
  }

  function Complete(p: PipelineState, id: string): PipelineState
    requires Find(p.steps, id) < |p.steps|
  {
    var i := Find(p.steps, id);
    Tick(p.(steps := p.steps[i := p.steps[i].(status := Completed)]))
  }

  predicate HasCheckpoint(p: PipelineState, id: string) {
    Find(p.steps, id) < |p.steps| && p.steps[Find(p.steps, id)].checkpoint.Some?
  }

  function Decide(p: PipelineState, id: string, grant: bool): PipelineState
    requires HasCheckpoint(p, id)
  {
    var i := Find(p.steps, id);
    var step := p.steps[i];
    if grant then
      Tick(p.(steps := p.steps[i := step.(checkpoint := Some(Granted), status := Ready)]))
    else
      Tick(p.(steps := p.steps[i := step.(checkpoint := Some(Rejected), status := Failed)], status := Broken))
  }

  // ---------- The engine ----------

  datatype NewStep = NewStep(id: string, dependsOn: seq<string>, hasCheckpoint: bool)

  function InitialStep(s: NewStep): Step {
    Step(s.id, s.dependsOn, if s.dependsOn == [] then Ready else WaitingDependency,
         if s.hasCheckpoint then Some(Pending) else None)
  }

  function InitialPipeline(tenantId: string, steps: seq<NewStep>): PipelineState {
    PipelineState(tenantId, Planning,
                  seq(|steps|, i requires 0 <= i < |steps| => InitialStep(steps[i])), |steps|, 0)
  }

  function Dag(steps: seq<NewStep>): seq<DagStep> {
    seq(|steps|, i requires 0 <= i < |steps| => DagStep(steps[i].id, steps[i].dependsOn))
  }

  class AutonomousPipelineEngine {
    var pipelines: map<string, PipelineState>

    constructor ()
      ensures pipelines == map[]
    {
      pipelines := map[];
    }

    predicate Visible(id: string, tenantId: Option<string>)
      reads this
    {
      id in pipelines && (tenantId.None? || tenantId.value == "" || pipelines[id].tenantId == tenantId.value)
    }

    method CreatePipeline(id: string, tenantId: string, title: string, ceoObjective: string, steps: seq<NewStep>)
      returns (r: Result<PipelineState, Error>)
      modifies this
      ensures r.Success? <==> title != "" && ceoObjective != "" && steps != [] && !Cyclic(DagOf(Dag(steps)))
      ensures r.Success? ==> r.value == InitialPipeline(tenantId, steps) && pipelines == old(pipelines)[id := r.value]
      ensures r.Failure? ==> pipelines == old(pipelines)
    {
      if title == "" || ceoObjective == "" {
        return Failure(MissingTitle);
      }
      if |steps| == 0 {
        return Failure(NoSteps);
      }
      var cyclic := ValidateDAG(Dag(steps));
      if cyclic.Some? {
        return Failure(CyclicSteps(cyclic.value));
      }
      var p := InitialPipeline(tenantId, steps);
      pipelines := pipelines[id := p];
      r := Success(p);
    }

    // The first loop of a tick.
    method CollectCompleted(steps: seq<Step>) returns (completedCount: nat, completedStepIds: set<string>)
      ensures completedCount == Count(steps, IsCompleted)
      ensures completedStepIds == CompletedIds(steps)
    {
      completedCount, completedStepIds := 0, {};
      for i := 0 to |steps|
        invariant completedCount == Count(steps[..i], IsCompleted)
        invariant completedStepIds == CompletedIds(steps[..i])
      {
        assert steps[..i + 1] == steps[..i] + [steps[i]];
        if steps[i].status == Completed {
          completedCount, completedStepIds := completedCount + 1, completedStepIds + {steps[i].id};
        }
      }
      assert steps[..|steps|] == steps;
    }

    // The second loop; it stops early at a step whose checkpoint was rejected.
    method AdvanceSteps(before: seq<Step>, done: set<string>) returns (steps: seq<Step>, isWaitingForApproval: bool, refused: bool)
      ensures refused <==> FirstRefused(before, done) < |before|
      ensures refused ==> steps == AdvanceUpTo(before, done, FirstRefused(before, done) + 1)
      ensures !refused ==> steps == AdvanceUpTo(before, done, |before|)
      ensures !refused ==> (isWaitingForApproval <==> exists j :: 0 <= j < |before| && AwaitsCheckpoint(before[j], done))
    {
      steps, isWaitingForApproval, refused := before, false, false;
      for i := 0 to |before|
        invariant steps == AdvanceUpTo(before, done, i)
        invariant forall j :: 0 <= j < i ==> !Refused(before[j], done)
        invariant isWaitingForApproval <==> exists j :: 0 <= j < i && AwaitsCheckpoint(before[j], done)
      {
        var step := steps[i];
        var status := step.status;
        if step.status != Completed {
          var allDepsDone := forall d :: d in step.dependsOn ==> d in done;
          if !allDepsDone {
            status := WaitingDependency;
          } else if step.checkpoint == Some(Pending) {
            status := WaitingCheckpoint;
            assert AwaitsCheckpoint(before[i], done);
            isWaitingForApproval := true;
          } else if step.checkpoint == Some(Rejected) {
            status := Failed;
          } else if step.status == WaitingDependency || step.status == NotStarted {
            status := Ready;
          }
        }
        steps := steps[i := step.(status := status)];
        assert steps == AdvanceUpTo(before, done, i + 1);
        if Refused(step, done) {
          return steps, isWaitingForApproval, true;
        }
      }
    }

    method TickPipeline(id: string, tenantId: Option<string>) returns (r: Result<PipelineState, Error>)
      modifies this
      ensures r.Success? <==>
              id in old(pipelines) && (tenantId in {None, Some("")} || old(pipelines)[id].tenantId == tenantId.value)
      ensures r.Success? ==> r.value == Tick(old(pipelines)[id]) && pipelines == old(pipelines)[id := r.value]
      ensures r.Failure? ==> pipelines == old(pipelines)
    {
      if !Visible(id, tenantId) {
        return Failure(PipelineNotFound);
      }
      var p := pipelines[id];
      if Terminal(p.status) {
        assert pipelines == pipelines[id := p];
        return Success(p);
      }
      var completedCount, done := CollectCompleted(p.steps);
      var steps, isWaitingForApproval, refused := AdvanceSteps(p.steps, done);
      if refused {
        p := p.(steps := steps, status := Broken);
      } else {
        var status := if completedCount == p.totalSteps then Done
                      else if isWaitingForApproval then WaitingApproval
                      else Running;
        p := p.(steps := steps, completedSteps := completedCount, status := status);
      }
      pipelines := pipelines[id := p];
      r := Success(p);
    }

    method FindStep(p: PipelineState, stepId: string) returns (i: nat)
      ensures i == Find(p.steps, stepId)
    {
      i := 0;
      while i < |p.steps| && p.steps[i].id != stepId
        invariant i <= |p.steps|
        invariant forall j :: 0 <= j < i ==> p.steps[j].id != stepId
      {
        i := i + 1;
      }
    }

    method DecideCheckpoint(id: string, stepId: string, grant: bool, tenantId: Option<string>)
      returns (r: Result<PipelineState, Error>)
      modifies this
      ensures r.Success? <==>
              && id in old(pipelines) && (tenantId in {None, Some("")} || old(pipelines)[id].tenantId == tenantId.value)
              && HasCheckpoint(old(pipelines)[id], stepId)
      ensures r.Success? ==> r.value == Decide(old(pipelines)[id], stepId, grant) && pipelines == old(pipelines)[id := r.value]
      ensures r.Failure? ==> pipelines == old(pipelines)
    {
      hide Tick;
      if !Visible(id, tenantId) {
        return Failure(PipelineNotFound);
      }
      var p := pipelines[id];
      var i := FindStep(p, stepId);
      if i == |p.steps| || p.steps[i].checkpoint.None? {
        return Failure(StepNotFound);
      }
      ghost var before := pipelines;
      if grant {
        p := p.(steps := p.steps[i := p.steps[i].(checkpoint := Some(Granted), status := Ready)]);
      } else {
        p := p.(steps := p.steps[i := p.steps[i].(checkpoint := Some(Rejected), status := Failed)], status := Broken);
      }
      pipelines := pipelines[id := p];
      r := TickPipeline(id, tenantId);
      assert pipelines == before[id := r.value];
    }

    method CompleteStep(id: string, stepId: string, tenantId: Option<string>) returns (r: Result<PipelineState, Error>)
      modifies this
      ensures r.Success? <==>
              && id in old(pipelines) && (tenantId in {None, Some("")} || old(pipelines)[id].tenantId == tenantId.value)
              && Find(old(pipelines)[id].steps, stepId) < |old(pipelines)[id].steps|
      ensures r.Success? ==> r.value == Complete(old(pipelines)[id], stepId) && pipelines == old(pipelines)[id := r.value]
      ensures r.Failure? ==> pipelines == old(pipelines)
    {
      if !Visible(id, tenantId) {
        return Failure(PipelineNotFound);
      }
      var p := pipelines[id];
      var i := FindStep(p, stepId);
      if i == |p.steps| {
        return Failure(StepNotFound);
      }
      ghost var before := pipelines;
      p := p.(steps := p.steps[i := p.steps[i].(status := Completed)]);
      pipelines := pipelines[id := p];
      r := TickPipeline(id, tenantId);
      assert pipelines == before[id := r.value];
    }
  }
}
