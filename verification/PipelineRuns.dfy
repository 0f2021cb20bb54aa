// What every run of a pipeline keeps, when it can move on, and when it ends.
module PipelineRuns {
  import opened Wrappers
  import opened Graphs
  import opened PipelineDag
  import opened Pipeline

  datatype Op = TickOp | CompleteOp(id: string) | GrantOp(id: string) | RejectOp(id: string)

  // An operation that the engine does not answer with an exception.
  predicate Defined(p: PipelineState, op: Op) {
    match op
    case TickOp => true
    case CompleteOp(id) => Find(p.steps, id) < |p.steps|
    case GrantOp(id) => HasCheckpoint(p, id)
    case RejectOp(id) => HasCheckpoint(p, id)
  }

  function Apply(p: PipelineState, op: Op): PipelineState
    requires Defined(p, op)
  {
    match op
    case TickOp => Tick(p)
    case CompleteOp(id) => Complete(p, id)
    case GrantOp(id) => Decide(p, id, true)
    case RejectOp(id) => Decide(p, id, false)
  }

  // Callers complete READY steps and decide steps that wait for their checkpoint.
  predicate Disciplined(p: PipelineState, op: Op) {
    && Defined(p, op)
    && match op
       case TickOp => true
       case CompleteOp(id) => p.steps[Find(p.steps, id)].status == Ready
       case GrantOp(id) => p.steps[Find(p.steps, id)].status == WaitingCheckpoint
       case RejectOp(id) => p.steps[Find(p.steps, id)].status == WaitingCheckpoint
  }

  // ---------- Facts that hold for every caller ----------

  lemma AdvanceTwice(s: Step, done: set<string>)
    ensures Advance(Advance(s, done), done) == Advance(s, done)
    ensures Refused(Advance(s, done), done) == Refused(s, done)
    ensures AwaitsCheckpoint(Advance(s, done), done) == AwaitsCheckpoint(s, done)
    ensures IsCompleted(Advance(s, done)) == IsCompleted(s)
  {
  }

  // Ticking twice is ticking once.
  lemma TickIdempotent(p: PipelineState)
    ensures Tick(Tick(p)) == Tick(p)
  {
    hide Refused, AwaitsCheckpoint, Count, Advance;
    if !Terminal(p.status) && !Terminal(Tick(p).status) {
      var done := CompletedIds(p.steps);
      var q := Tick(p);
      AdvanceKeepsCompleted(p.steps, done, |p.steps|);
      assert FirstRefused(p.steps, done) == |p.steps|;
      forall i | 0 <= i < |p.steps|
        ensures Advance(q.steps[i], done) == q.steps[i] && !Refused(q.steps[i], done)
        ensures AwaitsCheckpoint(q.steps[i], done) == AwaitsCheckpoint(p.steps[i], done)
        ensures IsCompleted(q.steps[i]) == IsCompleted(p.steps[i])
      {
        AdvanceTwice(p.steps[i], done);
      }
      assert FirstRefused(q.steps, done) == |q.steps|;
      assert AdvanceUpTo(q.steps, done, |q.steps|) == q.steps;
      CountSame(p.steps, q.steps, IsCompleted);
    }
  }

  lemma AdvanceKeepsCompleted(steps: seq<Step>, done: set<string>, n: nat)
    requires n <= |steps|
    ensures CompletedIds(AdvanceUpTo(steps, done, n)) == CompletedIds(steps)
  {
  }

  // A tick leaves a pipeline alone that is completed, failed or cancelled, and no other.
  lemma ClosedIsLeftAlone(p: PipelineState)
    ensures p.status in {Done, Broken, Cancelled} ==> Tick(p) == p
    ensures p.status !in {Done, Broken, Cancelled} ==> Tick(p).status in {Done, Broken, WaitingApproval, Running}
  {
  }

  // A failed pipeline stays failed whatever is called on it.
  lemma FailedIsAbsorbing(p: PipelineState, ops: seq<Op>)
    requires p.status == Broken && RunDefined(p, ops)
    ensures Run(p, ops).status == Broken
    decreases |ops|
  {
    if ops != [] {
      assert Apply(p, ops[0]).status == Broken;
      FailedIsAbsorbing(Apply(p, ops[0]), ops[1..]);
    }
  }

  predicate RunDefined(p: PipelineState, ops: seq<Op>)
    decreases |ops|
  {
    ops == [] || (Defined(p, ops[0]) && RunDefined(Apply(p, ops[0]), ops[1..]))
  }

  function Run(p: PipelineState, ops: seq<Op>): PipelineState
    requires RunDefined(p, ops)
    decreases |ops|
  {
    if ops == [] then p else Run(Apply(p, ops[0]), ops[1..])
  }

  ghost predicate RejectedMeansFailed(p: PipelineState) {
    p.status != Broken ==> forall i :: 0 <= i < |p.steps| ==> p.steps[i].checkpoint != Some(Rejected)
  }

  lemma TouchedRejectionFails(p: PipelineState, op: Op)
    requires RejectedMeansFailed(p) && Defined(p, op)
    ensures RejectedMeansFailed(Touched(p, op))
  {
  }

  lemma OpRejectionFails(p: PipelineState, op: Op)
    requires RejectedMeansFailed(p) && Defined(p, op)
    ensures RejectedMeansFailed(Apply(p, op))
  {
    var q := Touched(p, op);
    TouchedRejectionFails(p, op);
    ApplyIsTouchThenTick(p, op);
    TickKeepsDecisions(q);
    FailedStays(q);
    hide Tick, Touched;
  }

  lemma FailedStays(p: PipelineState)
    ensures p.status == Broken ==> Tick(p) == p
    ensures |Tick(p).steps| == |p.steps|
  {
  }

  // A rejected checkpoint is only ever found in a failed pipeline, whatever the callers do.
  lemma {:induction false} RejectionFails(p: PipelineState, ops: seq<Op>)
    requires RejectedMeansFailed(p) && RunDefined(p, ops)
    ensures RejectedMeansFailed(Run(p, ops))
    decreases |ops|
  {
    hide RejectedMeansFailed, Apply;
    if ops != [] {
      OpRejectionFails(p, ops[0]);
      RejectionFails(Apply(p, ops[0]), ops[1..]);
    }
  }

  lemma CreatedNotRejected(tenantId: string, steps: seq<NewStep>)
    ensures RejectedMeansFailed(InitialPipeline(tenantId, steps))
  {
  }

  // ---------- The invariant of disciplined runs ----------

  ghost predicate StepSound(s: Step, done: set<string>, status: PipelineStatus) {
    && (s.checkpoint == Some(Rejected) ==> status == Broken)
    && match s.status
       case Completed => DependenciesDone(s, done)
       case Ready => DependenciesDone(s, done)
       case WaitingCheckpoint => DependenciesDone(s, done) && s.checkpoint == Some(Pending)
       case WaitingDependency => s.checkpoint != Some(Granted)
       case Failed => s.checkpoint == Some(Rejected)
       case _ => false
  }

  ghost predicate Sound(p: PipelineState) {
    && p.totalSteps == |p.steps| > 0
    && (forall i, j :: 0 <= i < j < |p.steps| ==> p.steps[i].id != p.steps[j].id)
    && forall i :: 0 <= i < |p.steps| ==> StepSound(p.steps[i], CompletedIds(p.steps), p.status)
  }

  // Everything that a completed step depends on is completed.
  ghost predicate DependencyClosed(p: PipelineState) {
    forall i, d :: 0 <= i < |p.steps| && p.steps[i].status == Completed && d in p.steps[i].dependsOn
                   ==> d in CompletedIds(p.steps)
  }

  lemma CreatedSound(tenantId: string, steps: seq<NewStep>)
    requires steps != [] && forall i, j :: 0 <= i < j < |steps| ==> steps[i].id != steps[j].id
    ensures Sound(InitialPipeline(tenantId, steps))
  {
  }

  lemma NothingRefused(p: PipelineState)
    requires p.status != Broken && RejectedMeansFailed(p)
    ensures FirstRefused(p.steps, CompletedIds(p.steps)) == |p.steps|
  {
  }

  lemma AdvanceSound(s: Step, done: set<string>, before: PipelineStatus, after: PipelineStatus)
    requires StepSound(s, done, before) && (before == Broken ==> after == Broken) && !Refused(s, done)
    ensures StepSound(Advance(s, done), done, after)
  {
  }

  lemma SoundMeansRejected(p: PipelineState)
    requires Sound(p)
    ensures RejectedMeansFailed(p)
  {
  }

  lemma AdvanceKeepsIds(steps: seq<Step>, done: set<string>)
    ensures forall i :: 0 <= i < |steps| ==> AdvanceUpTo(steps, done, |steps|)[i].id == steps[i].id
  {
  }

  lemma TickSound(p: PipelineState)
    requires Sound(p)
    ensures Sound(Tick(p))
    ensures Tick(p).status == Broken ==> p.status == Broken
  {
    hide Advance, StepSound, Refused, AwaitsCheckpoint, Count;
    if !Terminal(p.status) {
      var done := CompletedIds(p.steps);
      SoundMeansRejected(p);
      NothingRefused(p);
      AdvanceKeepsCompleted(p.steps, done, |p.steps|);
      AdvanceKeepsIds(p.steps, done);
      var q := Tick(p);
      forall i | 0 <= i < |q.steps|
        ensures StepSound(q.steps[i], done, q.status)
      {
        AdvanceSound(p.steps[i], done, p.status, q.status);
      }
    }
  }

  lemma FindIsUnique(steps: seq<Step>, i: nat)
    requires i < |steps| && forall j, k :: 0 <= j < k < |steps| ==> steps[j].id != steps[k].id
    ensures Find(steps, steps[i].id) == i
  {
  }

  lemma CompletedAfterUpdate(steps: seq<Step>, i: nat, s: Step)
    requires i < |steps| && s.id == steps[i].id && steps[i].status != Completed
    ensures CompletedIds(steps[i := s]) == CompletedIds(steps) + if s.status == Completed then {s.id} else {}
  {
    var after := steps[i := s];
    forall id
      ensures id in CompletedIds(after) <==> id in CompletedIds(steps) || (s.status == Completed && id == s.id)
    {
      if id in CompletedIds(steps) {
        var k :| 0 <= k < |steps| && steps[k].status == Completed && steps[k].id == id;
        assert after[k] in after && after[k] == steps[k];
      }
      if id in CompletedIds(after) {
        var k :| 0 <= k < |after| && after[k].status == Completed && after[k].id == id;
        if k != i {
          assert steps[k] in steps;
        }
      }
      if s.status == Completed && id == s.id {
        assert after[i] in after;
      }
    }
  }

  // The state between the caller's change and the tick that follows it.
  function Touched(p: PipelineState, op: Op): PipelineState
    requires Defined(p, op)
  {
    match op
    case TickOp => p
    case CompleteOp(id) =>
      var i := Find(p.steps, id);
      p.(steps := p.steps[i := p.steps[i].(status := Completed)])
    case GrantOp(id) =>
      var i := Find(p.steps, id);
      p.(steps := p.steps[i := p.steps[i].(checkpoint := Some(Granted), status := Ready)])
    case RejectOp(id) =>
      var i := Find(p.steps, id);
      p.(steps := p.steps[i := p.steps[i].(checkpoint := Some(Rejected), status := Failed)], status := Broken)
  }

  lemma ApplyIsTouchThenTick(p: PipelineState, op: Op)
    requires Defined(p, op)
    ensures Apply(p, op) == Tick(Touched(p, op))
  {
  }

  lemma TouchedSound(p: PipelineState, op: Op)
    requires Sound(p) && Disciplined(p, op)
    ensures Sound(Touched(p, op))
    ensures CompletedIds(p.steps) <= CompletedIds(Touched(p, op).steps)
  {
    if !op.TickOp? {
      var i := Find(p.steps, op.id);
      var q := Touched(p, op);
      var done := CompletedIds(p.steps);
      CompletedAfterUpdate(p.steps, i, q.steps[i]);
      forall k | 0 <= k < |q.steps|
        ensures StepSound(q.steps[k], CompletedIds(q.steps), q.status)
      {
        assert StepSound(p.steps[k], done, p.status);
      }
    }
  }

  predicate RunDisciplined(p: PipelineState, ops: seq<Op>)
    decreases |ops|
  {
    ops == [] || (Disciplined(p, ops[0]) && RunDisciplined(Apply(p, ops[0]), ops[1..]))
  }

  lemma {:induction false} DisciplinedIsDefined(p: PipelineState, ops: seq<Op>)
    requires RunDisciplined(p, ops)
    ensures RunDefined(p, ops)
    decreases |ops|
  {
    if ops != [] {
      DisciplinedIsDefined(Apply(p, ops[0]), ops[1..]);
    }
  }

  // In every state of every disciplined run the completed steps are closed under dependencies.
  lemma {:induction false} CompletedStaysClosed(p: PipelineState, ops: seq<Op>)
    requires Sound(p) && RunDisciplined(p, ops)
    ensures RunDefined(p, ops) && Sound(Run(p, ops)) && DependencyClosed(Run(p, ops))
    decreases |ops|
  {
    if ops == [] {
      assert forall i :: 0 <= i < |p.steps| ==> StepSound(p.steps[i], CompletedIds(p.steps), p.status);
    } else {
      ApplyIsTouchThenTick(p, ops[0]);
      TouchedSound(p, ops[0]);
      TickSound(Touched(p, ops[0]));
      CompletedStaysClosed(Apply(p, ops[0]), ops[1..]);
    }
  }

  // ---------- Settled states: a tick has been taken ----------

  predicate Canonical(s: Step, done: set<string>) {
    s.status == if s.status == Completed then Completed
                else if !DependenciesDone(s, done) then WaitingDependency
                else if s.checkpoint == Some(Pending) then WaitingCheckpoint
                else Ready
  }

  // No step was completed while its checkpoint was undecided.
  predicate GateHeld(p: PipelineState) {
    forall i :: 0 <= i < |p.steps| && p.steps[i].status == Completed ==> p.steps[i].checkpoint != Some(Pending)
  }

  ghost predicate Settled(p: PipelineState) {
    && Sound(p)
    && (forall i :: 0 <= i < |p.steps| ==> Canonical(p.steps[i], CompletedIds(p.steps)))
    && p.completedSteps == Count(p.steps, IsCompleted)
    && p.status == if p.completedSteps == |p.steps| then Done
                   else if exists i :: 0 <= i < |p.steps| && p.steps[i].status == WaitingCheckpoint then WaitingApproval
                   else Running
  }

  lemma AdvanceCanonical(p: PipelineState, i: nat)
    requires Sound(p) && !Terminal(p.status) && i < |p.steps|
    ensures var s := Advance(p.steps[i], CompletedIds(p.steps));
            && Canonical(s, CompletedIds(p.steps))
            && (s.status == Completed <==> p.steps[i].status == Completed)
            && s.checkpoint == p.steps[i].checkpoint
            && (s.status == WaitingCheckpoint <==> AwaitsCheckpoint(p.steps[i], CompletedIds(p.steps)))
  {
    assert StepSound(p.steps[i], CompletedIds(p.steps), p.status);
  }

  lemma TickSettles(p: PipelineState)
    requires Sound(p) && !Terminal(p.status)
    ensures Settled(Tick(p)) && (GateHeld(p) ==> GateHeld(Tick(p)))
    ensures Remaining(Tick(p)) == Remaining(p)
  {
    var done := CompletedIds(p.steps);
    NothingRefused(p);
    AdvanceKeepsCompleted(p.steps, done, |p.steps|);
    TickSound(p);
    var q := Tick(p);
    forall i | 0 <= i < |q.steps|
      ensures Canonical(q.steps[i], CompletedIds(q.steps))
      ensures q.steps[i].status == WaitingCheckpoint <==> AwaitsCheckpoint(p.steps[i], done)
      ensures q.steps[i].status == Completed <==> p.steps[i].status == Completed
      ensures q.steps[i].checkpoint == p.steps[i].checkpoint
    {
      AdvanceCanonical(p, i);
    }
    TickCounts(p, q);
  }

  lemma TickCounts(p: PipelineState, q: PipelineState)
    requires |p.steps| == |q.steps|
    requires forall i :: 0 <= i < |q.steps| ==> (q.steps[i].status == Completed <==> p.steps[i].status == Completed)
                                                && q.steps[i].checkpoint == p.steps[i].checkpoint
    ensures Remaining(q) == Remaining(p) && Count(q.steps, IsCompleted) == Count(p.steps, IsCompleted)
  {
    CountSame(p.steps, q.steps, IsCompleted);
    CountSame(p.steps, q.steps, IsOpen);
    CountSame(p.steps, q.steps, IsUndecided);
  }

  // The first tick of a created pipeline settles it.
  lemma FirstTickSettles(tenantId: string, steps: seq<NewStep>)
    requires steps != [] && forall i, j :: 0 <= i < j < |steps| ==> steps[i].id != steps[j].id
    ensures Settled(Tick(InitialPipeline(tenantId, steps)))
    ensures Remaining(Tick(InitialPipeline(tenantId, steps))) == |steps| + Checkpoints(steps)
  {
    var p := InitialPipeline(tenantId, steps);
    CreatedSound(tenantId, steps);
    TickSettles(p);
    CreatedRemaining(tenantId, steps);
  }

  function Checkpoints(steps: seq<NewStep>): nat {
    if steps == [] then 0
    else Checkpoints(steps[..|steps| - 1]) + if steps[|steps| - 1].hasCheckpoint then 1 else 0
  }

  // Steps still to complete plus checkpoints of such steps still to decide.
  function Remaining(p: PipelineState): nat {
    Count(p.steps, IsOpen) + Count(p.steps, IsUndecided)
  }

  lemma {:induction false} CreatedRemaining(tenantId: string, steps: seq<NewStep>)
    ensures Remaining(InitialPipeline(tenantId, steps)) == |steps| + Checkpoints(steps)
  {
    if steps != [] {
      var front := steps[..|steps| - 1];
      CreatedRemaining(tenantId, front);
      var p := InitialPipeline(tenantId, steps);
      assert p.steps[..|steps| - 1] == InitialPipeline(tenantId, front).steps;
      assert p.steps[|steps| - 1] == InitialStep(steps[|steps| - 1]);
    }
  }

  // What a change of one open step uses up: the step if it is completed, and its checkpoint if
  // that was undecided.
  lemma TouchCounts(p: PipelineState, op: Op)
    requires Defined(p, op) && (op.CompleteOp? || op.GrantOp?) && p.steps[Find(p.steps, op.id)].status != Completed
    ensures var s := p.steps[Find(p.steps, op.id)];
            Remaining(Touched(p, op))
            == Remaining(p) - (if op.CompleteOp? then 1 else 0) - (if s.checkpoint == Some(Pending) then 1 else 0)
  {
    hide Find;
    var i := Find(p.steps, op.id);
    var q := Touched(p, op);
    assert q.steps == p.steps[i := q.steps[i]];
    CountUpdate(p.steps, i, q.steps[i], IsOpen);
    CountUpdate(p.steps, i, q.steps[i], IsUndecided);
  }

  // In a settled pipeline a ready step is past its checkpoint, and a waiting one is at it.
  lemma SettledStep(p: PipelineState, i: nat)
    requires Settled(p) && i < |p.steps|
    ensures p.steps[i].status == Ready ==> p.steps[i].checkpoint != Some(Pending)
    ensures p.steps[i].status == WaitingCheckpoint ==> p.steps[i].checkpoint == Some(Pending)
  {
    assert Canonical(p.steps[i], CompletedIds(p.steps));
    assert StepSound(p.steps[i], CompletedIds(p.steps), p.status);
  }

  // Each completion and each grant uses up exactly one of what remains.
  lemma OpSettles(p: PipelineState, op: Op)
    requires Settled(p) && Disciplined(p, op) && (op.CompleteOp? || op.GrantOp?)
    ensures Settled(Apply(p, op)) && Remaining(Apply(p, op)) == Remaining(p) - 1
    ensures GateHeld(p) ==> GateHeld(Apply(p, op))
  {
    hide Find, Remaining, Tick, Canonical, StepSound, CompletedIds, Count;
    var i := Find(p.steps, op.id);
    ApplyIsTouchThenTick(p, op);
    SettledStep(p, i);
    OpenMeansNotDone(p, i);
    TouchedSound(p, op);
    TouchCounts(p, op);
    TickSettles(Touched(p, op));
  }

  lemma OpenMeansNotDone(p: PipelineState, i: nat)
    requires Settled(p) && i < |p.steps| && p.steps[i].status != Completed
    ensures p.status == Running || p.status == WaitingApproval
  {
    CountComplement(p.steps);
    CountZero(p.steps, IsOpen);
  }

  ghost predicate KnownDependencies(p: PipelineState) {
    forall i, d :: 0 <= i < |p.steps| && d in p.steps[i].dependsOn ==> exists j :: 0 <= j < |p.steps| && p.steps[j].id == d
  }

  function DagView(p: PipelineState): seq<DagStep> {
    seq(|p.steps|, i requires 0 <= i < |p.steps| => DagStep(p.steps[i].id, p.steps[i].dependsOn))
  }

  // In an admitted pipeline some open step has all its dependencies completed.
  lemma SomeStepCanMove(p: PipelineState) returns (i: nat)
    requires Sound(p) && KnownDependencies(p) && !Cyclic(DagOf(DagView(p)))
    requires exists k :: 0 <= k < |p.steps| && p.steps[k].status != Completed
    ensures i < |p.steps| && p.steps[i].status != Completed && DependenciesDone(p.steps[i], CompletedIds(p.steps))
  {
    hide Cyclic, StepSound;
    var dag := DagView(p);
    var known := Known(dag);
    StepGraphNodes(dag, known);
    var open := set k | 0 <= k < |p.steps| && p.steps[k].status != Completed :: p.steps[k].id;
    forall id | id in open
      ensures id in DagOf(dag)
    {
      var k :| 0 <= k < |p.steps| && p.steps[k].id == id;
      assert dag[k].id == id && dag[k] in dag;
    }
    var k0 :| 0 <= k0 < |p.steps| && p.steps[k0].status != Completed;
    assert p.steps[k0].id in open;
    var id := AcyclicHasSource(DagOf(dag), open);
    i :| 0 <= i < |p.steps| && p.steps[i].status != Completed && p.steps[i].id == id;
    assert dag[i].id == id;
    StepGraphEdges(dag, known, i);
    forall d | d in p.steps[i].dependsOn
      ensures d in CompletedIds(p.steps)
    {
      var j :| 0 <= j < |p.steps| && p.steps[j].id == d;
      assert dag[j].id == d && dag[j] in dag;
      assert d in DagOf(dag)[id];
      assert p.steps[j].status == Completed;
      assert p.steps[j] in p.steps;
    }
  }

  // No deadlock: a pipeline left running has a ready step, one left waiting has a step that
  // awaits its checkpoint, and any other settled pipeline is completed.
  lemma Progress(p: PipelineState)
    requires Settled(p) && KnownDependencies(p) && !Cyclic(DagOf(DagView(p)))
    ensures p.status == Running ==> exists i :: 0 <= i < |p.steps| && p.steps[i].status == Ready
    ensures p.status == WaitingApproval ==> exists i :: 0 <= i < |p.steps| && p.steps[i].status == WaitingCheckpoint
    ensures p.status == Running || p.status == WaitingApproval || p.status == Done
  {
    if p.status == Running {
      CountComplement(p.steps);
      CountZero(p.steps, IsOpen);
      var k :| 0 <= k < |p.steps| && IsOpen(p.steps[k]);
      assert p.steps[k].status != Completed;
      var i := SomeStepCanMove(p);
      assert Canonical(p.steps[i], CompletedIds(p.steps));
    }
  }

  lemma DoneIffNothingRemains(p: PipelineState)
    requires Settled(p)
    ensures p.status == Done <==> Remaining(p) == 0
  {
    CountComplement(p.steps);
    if p.status == Done {
      CountZero(p.steps, IsOpen);
      CountZero(p.steps, IsUndecided);
      forall i | 0 <= i < |p.steps|
        ensures !IsUndecided(p.steps[i])
      {
        assert !IsOpen(p.steps[i]);
      }
    }
  }

  ghost predicate SameShape(p: PipelineState, q: PipelineState) {
    |p.steps| == |q.steps|
    && forall i :: 0 <= i < |p.steps| ==> p.steps[i].id == q.steps[i].id && p.steps[i].dependsOn == q.steps[i].dependsOn
  }

  lemma ShapeMatters(p: PipelineState, q: PipelineState)
    requires SameShape(p, q)
    ensures DagView(q) == DagView(p)
    ensures KnownDependencies(p) ==> KnownDependencies(q)
  {
  }

  lemma TickKeepsShape(p: PipelineState)
    ensures SameShape(p, Tick(p))
  {
  }

  lemma ShapeKept(p: PipelineState, op: Op)
    requires Defined(p, op)
    ensures DagView(Apply(p, op)) == DagView(p)
    ensures KnownDependencies(p) ==> KnownDependencies(Apply(p, op))
  {
    ApplyIsTouchThenTick(p, op);
    TickKeepsShape(Touched(p, op));
    assert SameShape(p, Touched(p, op));
    ShapeMatters(p, Apply(p, op));
  }

  predicate OnlyCompletionsAndGrants(ops: seq<Op>) {
    forall i :: 0 <= i < |ops| ==> ops[i].CompleteOp? || ops[i].GrantOp?
  }

  lemma AnotherIsPossible(p: PipelineState)
    requires Settled(p) && KnownDependencies(p) && !Cyclic(DagOf(DagView(p)))
    ensures p.status != Done ==> exists op: Op :: (op.CompleteOp? || op.GrantOp?) && Disciplined(p, op)
  {
    Progress(p);
    if p.status == Running {
      var i :| 0 <= i < |p.steps| && p.steps[i].status == Ready;
      FindIsUnique(p.steps, i);
      assert Disciplined(p, CompleteOp(p.steps[i].id));
    } else if p.status == WaitingApproval {
      var i :| 0 <= i < |p.steps| && p.steps[i].status == WaitingCheckpoint;
      FindIsUnique(p.steps, i);
      assert StepSound(p.steps[i], CompletedIds(p.steps), p.status);
      assert Disciplined(p, GrantOp(p.steps[i].id));
    }
  }

  // Whatever the order, k completions and grants leave exactly k fewer things to do, the
  // pipeline is completed exactly when nothing is left, and until then another one is possible.
  lemma {:induction false} ExactRun(p: PipelineState, ops: seq<Op>)
    requires Settled(p) && KnownDependencies(p) && !Cyclic(DagOf(DagView(p)))
    requires RunDisciplined(p, ops) && OnlyCompletionsAndGrants(ops)
    ensures RunDefined(p, ops)
    ensures |ops| <= Remaining(p)
    ensures Run(p, ops).status == Done <==> |ops| == Remaining(p)
    ensures Run(p, ops).status != Done ==> exists op: Op :: (op.CompleteOp? || op.GrantOp?) && Disciplined(Run(p, ops), op)
    ensures GateHeld(p) ==> GateHeld(Run(p, ops))
    decreases |ops|
  {
    hide Cyclic, KnownDependencies, Settled, Apply;
    if ops == [] {
      DoneIffNothingRemains(p);
      AnotherIsPossible(p);
    } else {
      assert ops[0].CompleteOp? || ops[0].GrantOp?;
      OpSettles(p, ops[0]);
      ShapeKept(p, ops[0]);
      ExactRun(Apply(p, ops[0]), ops[1..]);
    }
  }

  // From creation: one tick, then exactly one operation per step and one per checkpoint.
  lemma CreatedRunsToCompletion(tenantId: string, steps: seq<NewStep>, ops: seq<Op>)
    requires steps != [] && forall i, j :: 0 <= i < j < |steps| ==> steps[i].id != steps[j].id
    requires forall i, d :: 0 <= i < |steps| && d in steps[i].dependsOn ==> exists j :: 0 <= j < |steps| && steps[j].id == d
    requires !Cyclic(DagOf(Dag(steps)))
    requires RunDisciplined(Tick(InitialPipeline(tenantId, steps)), ops) && OnlyCompletionsAndGrants(ops)
    ensures RunDefined(Tick(InitialPipeline(tenantId, steps)), ops)
    ensures |ops| <= |steps| + Checkpoints(steps)
    ensures Run(Tick(InitialPipeline(tenantId, steps)), ops).status == Done <==> |ops| == |steps| + Checkpoints(steps)
  {
    hide Settled, Tick, Checkpoints, CompletedIds;
    var p := InitialPipeline(tenantId, steps);
    FirstTickSettles(tenantId, steps);
    assert KnownDependencies(p) by {
      forall i, d | 0 <= i < |p.steps| && d in p.steps[i].dependsOn
        ensures exists j :: 0 <= j < |p.steps| && p.steps[j].id == d
      {
        assert d in steps[i].dependsOn;
        var j :| 0 <= j < |steps| && steps[j].id == d;
        assert p.steps[j].id == d;
      }
    }
    assert DagView(p) == Dag(steps);
    ShapeKept(p, TickOp);
    ExactRun(Tick(p), ops);
  }

  predicate HasGate(steps: seq<NewStep>, id: string) {
    exists i :: 0 <= i < |steps| && steps[i].id == id && steps[i].hasCheckpoint
  }

  // Operations straight after creation, before any tick, that begin by completing a step with a
  // checkpoint: that one operation uses up the step and its checkpoint.
  predicate StartsThroughGate(steps: seq<NewStep>, ops: seq<Op>) {
    ops != [] && ops[0].CompleteOp? && HasGate(steps, ops[0].id)
  }

  function ToDo(steps: seq<NewStep>, ops: seq<Op>): int {
    |steps| + Checkpoints(steps) - if StartsThroughGate(steps, ops) then 1 else 0
  }

  lemma FirstOpSettles(tenantId: string, steps: seq<NewStep>, op: Op)
    requires steps != [] && forall i, j :: 0 <= i < j < |steps| ==> steps[i].id != steps[j].id
    requires Disciplined(InitialPipeline(tenantId, steps), op) && (op.CompleteOp? || op.GrantOp?)
    ensures var q := Apply(InitialPipeline(tenantId, steps), op);
            Settled(q) && Remaining(q) == ToDo(steps, [op]) - 1
  {
    hide Remaining, Tick, StepSound, CompletedIds, Count, Checkpoints, Settled;
    var p := InitialPipeline(tenantId, steps);
    var i := Find(p.steps, op.id);
    CreatedSound(tenantId, steps);
    CreatedRemaining(tenantId, steps);
    ApplyIsTouchThenTick(p, op);
    TouchedSound(p, op);
    assert p.steps[i] == InitialStep(steps[i]);
    assert HasGate(steps, op.id) <==> steps[i].hasCheckpoint;
    TouchCounts(p, op);
    TickSettles(Touched(p, op));
  }

  lemma NothingDone(steps: seq<NewStep>)
    requires steps != []
    ensures ToDo(steps, []) > 0
  {
  }

  // The same without a tick first: one operation less if the run starts through a gate.
  lemma UntickedRunsToCompletion(tenantId: string, steps: seq<NewStep>, ops: seq<Op>)
    requires steps != [] && forall i, j :: 0 <= i < j < |steps| ==> steps[i].id != steps[j].id
    requires KnownDependencies(InitialPipeline(tenantId, steps)) && !Cyclic(DagOf(Dag(steps)))
    requires RunDisciplined(InitialPipeline(tenantId, steps), ops) && OnlyCompletionsAndGrants(ops)
    ensures RunDefined(InitialPipeline(tenantId, steps), ops)
    ensures |ops| <= ToDo(steps, ops)
    ensures Run(InitialPipeline(tenantId, steps), ops).status == Done <==> |ops| == ToDo(steps, ops)
  {
    hide Settled, Apply, Cyclic, Remaining, KnownDependencies, Checkpoints;
    var p := InitialPipeline(tenantId, steps);
    if ops != [] {
      var op := ops[0];
      assert op.CompleteOp? || op.GrantOp?;
      FirstOpSettles(tenantId, steps, op);
      assert ToDo(steps, ops) == ToDo(steps, [op]);
      ShapeKept(p, op);
      assert DagView(p) == Dag(steps);
      ExactRun(Apply(p, op), ops[1..]);
    } else {
      NothingDone(steps);
    }
  }

  // The checkpoint gate has one hole: before the first tick a step without dependencies is
  // READY even if its checkpoint is undecided, and completing it then passes the gate by.
  lemma GateBypassedExactlyWhen(tenantId: string, steps: seq<NewStep>, id: string)
    requires steps != [] && forall i, j :: 0 <= i < j < |steps| ==> steps[i].id != steps[j].id
    requires Disciplined(InitialPipeline(tenantId, steps), CompleteOp(id))
    ensures !GateHeld(Apply(InitialPipeline(tenantId, steps), CompleteOp(id)))
            <==> exists i :: 0 <= i < |steps| && steps[i].id == id && steps[i].hasCheckpoint
  {
    var p := InitialPipeline(tenantId, steps);
    var i := Find(p.steps, id);
    var q := Touched(p, CompleteOp(id));
    ApplyIsTouchThenTick(p, CompleteOp(id));
    TickKeepsDecisions(q);
    FailedStays(q);
    OnlyOneCompleted(tenantId, steps, id);
    hide Tick, Touched, InitialPipeline, InitialStep, Find, Apply;
    assert q.steps[i].checkpoint == if steps[i].hasCheckpoint then Some(Pending) else None;
    assert Tick(q).steps[i].status == Completed;
  }

  lemma OnlyOneCompleted(tenantId: string, steps: seq<NewStep>, id: string)
    requires Disciplined(InitialPipeline(tenantId, steps), CompleteOp(id))
    ensures var i, q := Find(InitialPipeline(tenantId, steps).steps, id), Touched(InitialPipeline(tenantId, steps), CompleteOp(id));
            && i < |steps| == |q.steps| && steps[i].id == id && q.steps[i].status == Completed
            && (forall k :: 0 <= k < |steps| && k != i ==> q.steps[k].status != Completed)
            && q.steps[i].checkpoint == if steps[i].hasCheckpoint then Some(Pending) else None
  {
  }

  lemma TickKeepsDecisions(p: PipelineState)
    ensures forall k :: 0 <= k < |p.steps| ==> Tick(p).steps[k].checkpoint == p.steps[k].checkpoint
                                               && (Tick(p).steps[k].status == Completed <==> p.steps[k].status == Completed)
  {
  }

  lemma GateBypassExample()
    ensures var p := InitialPipeline("t", [NewStep("deploy", [], true)]);
            Disciplined(p, CompleteOp("deploy")) && Apply(p, CompleteOp("deploy")).status == Done
            && !GateHeld(Apply(p, CompleteOp("deploy")))
  {
    var p := InitialPipeline("t", [NewStep("deploy", [], true)]);
    assert p.steps[0] == Step("deploy", [], Ready, Some(Pending));
    FindIsUnique(p.steps, 0);
    var q := Touched(p, CompleteOp("deploy"));
    assert q.steps == [Step("deploy", [], Completed, Some(Pending))];
    assert Count(q.steps[..0], IsCompleted) == 0;
    NothingRefused(q);
    assert AdvanceUpTo(q.steps, CompletedIds(q.steps), 1)[0] == q.steps[0];
  }

  // ---------- A tick in the fields ----------

  predicate DependenciesCompleted(p: PipelineState, i: nat)
    requires i < |p.steps|
  {
    forall d | d in p.steps[i].dependsOn :: exists k :: 0 <= k < |p.steps| && p.steps[k].id == d && p.steps[k].status == Completed
  }

  // The step is open, has nothing to wait for, and its checkpoint was rejected.
  predicate IsRefused(p: PipelineState, i: nat)
    requires i < |p.steps|
  {
    p.steps[i].status != Completed && DependenciesCompleted(p, i) && p.steps[i].checkpoint == Some(Rejected)
  }

  lemma CompletedMeansDone(p: PipelineState, i: nat)
    requires i < |p.steps|
    ensures DependenciesDone(p.steps[i], CompletedIds(p.steps)) <==> DependenciesCompleted(p, i)
    ensures Refused(p.steps[i], CompletedIds(p.steps)) <==> IsRefused(p, i)
  {
    forall d
      ensures d in CompletedIds(p.steps) <==> exists k :: 0 <= k < |p.steps| && p.steps[k].id == d && p.steps[k].status == Completed
    {
      if k :| 0 <= k < |p.steps| && p.steps[k].id == d && p.steps[k].status == Completed {
        assert p.steps[k] in p.steps;
      }
    }
    hide CompletedIds;
  }

  function CompletedPlaces(steps: seq<Step>): set<nat> {
    set i | 0 <= i < |steps| && steps[i].status == Completed
  }

  lemma OneMorePlace(front: seq<Step>, last: Step)
    ensures CompletedPlaces(front + [last]) == CompletedPlaces(front) + if last.status == Completed then {|front|} else {}
    ensures |CompletedPlaces(front + [last])| == |CompletedPlaces(front)| + if last.status == Completed then 1 else 0
  {
    assert |front| !in CompletedPlaces(front);
  }

  lemma {:induction false} CountIsSize(steps: seq<Step>)
    ensures Count(steps, IsCompleted) == |CompletedPlaces(steps)|
  {
    hide CompletedPlaces;
    if steps == [] {
      NoPlace();
    } else {
      var front, last := steps[..|steps| - 1], steps[|steps| - 1];
      assert steps == front + [last];
      CountIsSize(front);
      OneMorePlace(front, last);
    }
  }

  lemma NoPlace()
    ensures CompletedPlaces([]) == {}
  {
  }

  // Where a tick takes each step, and the pipeline, if no open step was rejected.
  lemma TickMeaning(p: PipelineState)
    requires p.status !in {Done, Broken, Cancelled} && forall i | 0 <= i < |p.steps| :: !IsRefused(p, i)
    ensures var q := Tick(p);
            && |q.steps| == |p.steps|
            && (forall i | 0 <= i < |p.steps| ::
                  q.steps[i] == p.steps[i].(status :=
                    if p.steps[i].status == Completed then Completed
                    else if !DependenciesCompleted(p, i) then WaitingDependency
                    else if p.steps[i].checkpoint == Some(Pending) then WaitingCheckpoint
                    else if p.steps[i].status in {WaitingDependency, NotStarted} then Ready
                    else p.steps[i].status))
            && q.completedSteps == |CompletedPlaces(p.steps)|
            && (q.status == Done <==> q.completedSteps == p.totalSteps)
            && (q.status == WaitingApproval <==>
                && q.status != Done
                && exists i :: && 0 <= i < |p.steps| && p.steps[i].status != Completed && DependenciesCompleted(p, i)
                               && p.steps[i].checkpoint == Some(Pending))
            && q.status in {Done, WaitingApproval, Running}
  {
    CountIsSize(p.steps);
    forall i | 0 <= i < |p.steps|
      ensures DependenciesDone(p.steps[i], CompletedIds(p.steps)) <==> DependenciesCompleted(p, i)
      ensures !Refused(p.steps[i], CompletedIds(p.steps))
    {
      CompletedMeansDone(p, i);
    }
    hide DependenciesCompleted, DependenciesDone, CompletedIds, Count;
    assert FirstRefused(p.steps, CompletedIds(p.steps)) == |p.steps|;
  }

  // If one was, the first such step and the pipeline fail, and the steps after it are not looked at.
  lemma RefusedTick(p: PipelineState, i: nat)
    requires p.status !in {Done, Broken, Cancelled} && i < |p.steps| && IsRefused(p, i)
    requires forall k | 0 <= k < i :: !IsRefused(p, k)
    ensures var q := Tick(p);
            && q.status == Broken && |q.steps| == |p.steps| && q.steps[i] == p.steps[i].(status := Failed)
            && q.completedSteps == p.completedSteps && forall k | i < k < |p.steps| :: q.steps[k] == p.steps[k]
  {
    forall k | 0 <= k <= i
      ensures Refused(p.steps[k], CompletedIds(p.steps)) <==> k == i
    {
      CompletedMeansDone(p, k);
    }
    hide CompletedIds, Count;
    assert FirstRefused(p.steps, CompletedIds(p.steps)) == i;
  }

  // ---------- What creation, a decision and a completion leave behind ----------

  // A new pipeline is being planned, has completed nothing, and holds the steps as given: ready if
  // they depend on nothing, and undecided if they have a checkpoint.
  lemma CreatedFields(tenantId: string, steps: seq<NewStep>)
    ensures var p := InitialPipeline(tenantId, steps);
            && p.tenantId == tenantId && p.status == Planning && p.totalSteps == |p.steps| == |steps| && p.completedSteps == 0
            && forall i | 0 <= i < |steps| ::
                 && p.steps[i].id == steps[i].id && p.steps[i].dependsOn == steps[i].dependsOn
                 && p.steps[i].status == (if steps[i].dependsOn == [] then Ready else WaitingDependency)
                 && p.steps[i].checkpoint == if steps[i].hasCheckpoint then Some(Pending) else None
  {
  }

  lemma TickKeepsRest(p: PipelineState, i: nat)
    requires i < |p.steps|
    ensures |Tick(p).steps| == |p.steps|
    ensures var s, t := p.steps[i], Tick(p).steps[i]; t.id == s.id && t.dependsOn == s.dependsOn && t.checkpoint == s.checkpoint
    ensures p.steps[i].status == Completed ==> Tick(p).steps[i].status == Completed
    ensures p.steps[i].status == Ready && p.steps[i].checkpoint == Some(Granted) ==>
              Tick(p).steps[i].status == Ready
              || (Tick(p).steps[i].status == WaitingDependency && exists d :: d in p.steps[i].dependsOn && d !in CompletedIds(p.steps))
  {
    hide CompletedIds, Count;
  }

  // A rejection is recorded on its step, which fails, and fails the pipeline; nothing else changes.
  lemma RejectionRecorded(p: PipelineState, id: string, i: nat)
    requires HasCheckpoint(p, id) && i < |p.steps| && p.steps[i].id == id && forall j | 0 <= j < i :: p.steps[j].id != id
    ensures var q := Decide(p, id, false);
            && q.status == Broken && |q.steps| == |p.steps|
            && q.steps[i].checkpoint == Some(Rejected) && q.steps[i].status == Failed && q.steps[i].id == id
            && q.completedSteps == p.completedSteps && forall k | 0 <= k < |p.steps| && k != i :: q.steps[k] == p.steps[k]
  {
    assert Find(p.steps, id) == i;
  }

  // A grant is recorded on its step, which is ready, or waits again if some dependency is open.
  lemma GrantRecorded(p: PipelineState, id: string, i: nat)
    requires HasCheckpoint(p, id) && i < |p.steps| && p.steps[i].id == id && forall j | 0 <= j < i :: p.steps[j].id != id
    ensures var q := Decide(p, id, true);
            && |q.steps| == |p.steps| && q.steps[i].checkpoint == Some(Granted) && q.steps[i].id == id
            && (q.steps[i].status == Ready || q.steps[i].status == WaitingDependency)
            && forall k | 0 <= k < |p.steps| && k != i :: q.steps[k].checkpoint == p.steps[k].checkpoint
  {
    assert Find(p.steps, id) == i;
    var touched := p.(steps := p.steps[i := p.steps[i].(checkpoint := Some(Granted), status := Ready)]);
    forall k | 0 <= k < |p.steps|
      ensures |Tick(touched).steps| == |p.steps| && Tick(touched).steps[k].checkpoint == touched.steps[k].checkpoint
              && Tick(touched).steps[k].id == touched.steps[k].id
    {
      TickKeepsRest(touched, k);
    }
    TickKeepsRest(touched, i);
    hide Tick;
  }

  // A completion is recorded on its step, and no decision changes.
  lemma CompletionRecorded(p: PipelineState, id: string, i: nat)
    requires i < |p.steps| && p.steps[i].id == id && forall j | 0 <= j < i :: p.steps[j].id != id
    ensures var q := Complete(p, id);
            && |q.steps| == |p.steps| && q.steps[i].status == Completed && q.steps[i].id == id
            && forall k | 0 <= k < |p.steps| :: q.steps[k].checkpoint == p.steps[k].checkpoint
  {
    assert Find(p.steps, id) == i;
    var touched := p.(steps := p.steps[i := p.steps[i].(status := Completed)]);
    forall k | 0 <= k < |p.steps|
      ensures |Tick(touched).steps| == |p.steps| && Tick(touched).steps[k].checkpoint == touched.steps[k].checkpoint
              && Tick(touched).steps[k].id == touched.steps[k].id
    {
      TickKeepsRest(touched, k);
    }
    TickKeepsRest(touched, i);
    hide Tick;
  }

  // ---------- Counting ----------

  lemma {:induction false} CountSame(a: seq<Step>, b: seq<Step>, f: Step -> bool)
    requires |a| == |b| && forall i :: 0 <= i < |a| ==> f(a[i]) == f(b[i])
    ensures Count(a, f) == Count(b, f)
  {
    if a != [] {
      CountSame(a[..|a| - 1], b[..|b| - 1], f);
    }
  }

  lemma {:induction false} CountUpdate(a: seq<Step>, i: nat, s: Step, f: Step -> bool)
    requires i < |a|
    ensures Count(a[i := s], f) == Count(a, f) - (if f(a[i]) then 1 else 0) + if f(s) then 1 else 0
  {
    var b := a[i := s];
    if i < |a| - 1 {
      assert b[..|a| - 1] == a[..|a| - 1][i := s];
      CountUpdate(a[..|a| - 1], i, s, f);
    } else {
      assert b[..|a| - 1] == a[..|a| - 1];
    }
  }

  lemma {:induction false} CountComplement(a: seq<Step>)
    ensures Count(a, IsCompleted) + Count(a, IsOpen) == |a|
  {
    if a != [] {
      CountComplement(a[..|a| - 1]);
    }
  }

  lemma {:induction false} CountZero(a: seq<Step>, f: Step -> bool)
    ensures Count(a, f) == 0 <==> forall i :: 0 <= i < |a| ==> !f(a[i])
  {
    if a != [] {
      CountZero(a[..|a| - 1], f);
    }
  }
}
