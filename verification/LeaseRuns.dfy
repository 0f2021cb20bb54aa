// Runs of the lease protocol: worker processes, reapers and a clock interleave as atomic steps on
// one task table. Nobody cancels or retries a task from outside.
module LeaseRuns {
  import opened Wrappers
  import opened TaskLeases

  // Several processes may run under the same worker name.
  datatype Process = Process(pid: nat, name: string)

  // What a running process works on, and the deadline it last wrote itself.
  datatype Job = Job(task: string, until: int)

  datatype State = State(clock: int, rows: Table, jobs: map<Process, Job>, finished: set<string>)

  // A process whose heartbeat timer fires writes the deadline it computed; writes in flight may
  // land in any order, so a renewal may carry any deadline. LateHeartbeat lands after the process
  // that sent it has finished its task. A crashed process sends nothing more.
  datatype Event =
    | Advance(to: int)
    | Create(id: string, task: Task)
    | Claim(who: Process, got: Option<string>)
    | ClaimPrototype(who: Process, got: Option<string>)
    | Work(who: Process, status: Status, deadline: int)
    | Heartbeat(who: Process, deadline: int)
    | Finish(who: Process, status: Status)
    | Crash(who: Process)
    | LateHeartbeat(id: string, deadline: int)
    | Reclaim(reaper: string, asOf: int)
    | Recover(id: string, decision: Decision, asOf: int)

  ghost predicate Takes(s: State, who: Process, got: Option<string>, t: State) {
    && who !in s.jobs
    && t == s.(rows := t.rows, jobs := if got.Some? then s.jobs[who := Job(got.value, s.clock + LEASE)] else s.jobs)
  }

  ghost predicate Step(s: State, e: Event, t: State, limit: int) {
    match e
    case Advance(to) => to >= s.clock && t == s.(clock := to)
    case Create(id, task) => id !in s.rows && task.status == Queued && t == s.(rows := s.rows[id := task])
    case Claim(who, got) => Takes(s, who, got, t) && Claims(s.rows, t.rows, who.name, limit, s.clock, got)
    case ClaimPrototype(who, got) => Takes(s, who, got, t) && ClaimsPrototype(s.rows, t.rows, who.name, s.clock, got)
    case Work(who, status, deadline) =>
      && who in s.jobs && (status == Running || status == Testing)
      && t == s.(rows := Updated(s.rows, s.jobs[who].task, WorkPatch(status, who.name, deadline), s.clock),
                 jobs := s.jobs[who := s.jobs[who].(until := deadline)])
    case Heartbeat(who, deadline) =>
      && who in s.jobs
      && t == s.(rows := Renewed(s.rows, s.jobs[who].task, deadline, s.clock),
                 jobs := s.jobs[who := s.jobs[who].(until := deadline)])
    case Finish(who, status) =>
      && who in s.jobs && status != Queued && status !in {Assigned, Running, Testing}
      && t == s.(rows := Updated(s.rows, s.jobs[who].task, FinishPatch(status), s.clock),
                 jobs := s.jobs - {who}, finished := s.finished + {s.jobs[who].task})
    case Crash(who) => who in s.jobs && t == s.(jobs := s.jobs - {who})
    case LateHeartbeat(id, deadline) => id in s.finished && t == s.(rows := Renewed(s.rows, id, deadline, s.clock))
    case Reclaim(reaper, asOf) => asOf <= s.clock && t == s.(rows := Reclaimed(s.rows, reaper, asOf, s.clock))
    case Recover(id, decision, asOf) =>
      asOf <= s.clock && t == s.(rows := Recovered(s.rows, id, DecisionPatch(decision), asOf, s.clock))
  }

  // Every running process has renewed in time.
  ghost predicate Prompt(s: State) {
    forall p | p in s.jobs :: s.clock <= s.jobs[p].until
  }

  // What a process believes about its task is what the table says.
  ghost predicate Owns(s: State, p: Process, j: Job) {
    && j.task in s.rows && Active(s.rows[j.task])
    && s.rows[j.task].leaseDeadline == Some(j.until) && s.rows[j.task].leaseOwner == Some(p.name)
  }

  ghost predicate EachOwns(s: State) {
    forall p | p in s.jobs :: Owns(s, p, s.jobs[p])
  }

  ghost predicate NoSharing(jobs: map<Process, Job>) {
    forall p, q | p in jobs && q in jobs :: jobs[p].task == jobs[q].task ==> p == q
  }

  ghost predicate FinishedStays(s: State) {
    forall id | id in s.finished :: id in s.rows && Terminal(s.rows[id])
  }

  ghost predicate LeasesHold(s: State) {
    EachOwns(s) && NoSharing(s.jobs) && FinishedStays(s)
  }

  // ---------- One step ----------

  // Nothing but its own process touches a live lease.
  lemma LiveLeaseUntouched(s: State, e: Event, t: State, limit: int, id: string)
    requires Step(s, e, t, limit) && id in s.rows && Live(s.rows[id], s.clock) && id !in s.finished
    requires match e
             case Work(who, _, _) => s.jobs[who].task != id
             case Heartbeat(who, _) => s.jobs[who].task != id
             case Finish(who, _) => s.jobs[who].task != id
             case _ => true
    ensures id in t.rows && t.rows[id] == s.rows[id]
    ensures e.Claim? || e.ClaimPrototype? ==> e.got != Some(id)
  {
  }

  // A task in a terminal status keeps its whole row, unless it is some process's own.
  lemma TerminalUntouched(s: State, e: Event, t: State, limit: int, id: string)
    requires Step(s, e, t, limit) && id in s.rows && Terminal(s.rows[id])
    requires forall p | p in s.jobs :: s.jobs[p].task != id
    ensures id in t.rows && t.rows[id] == s.rows[id]
    ensures e.Claim? || e.ClaimPrototype? ==> e.got != Some(id)
  {
  }

  lemma OthersStillOwn(s: State, e: Event, t: State, limit: int, p: Process)
    requires Step(s, e, t, limit) && LeasesHold(s) && Prompt(s) && p in s.jobs && p in t.jobs
    ensures Owns(t, p, t.jobs[p])
  {
    var id := s.jobs[p].task;
    assert Owns(s, p, s.jobs[p]);
    match e {
      case Work(who, _, _) => if who != p { LiveLeaseUntouched(s, e, t, limit, id); }
      case Heartbeat(who, _) => if who != p { LiveLeaseUntouched(s, e, t, limit, id); }
      case Finish(who, _) => if who != p { LiveLeaseUntouched(s, e, t, limit, id); }
      case _ => LiveLeaseUntouched(s, e, t, limit, id);
    }
  }

  lemma NewJob(s: State, e: Event, t: State, limit: int)
    requires Step(s, e, t, limit) && LeasesHold(s) && Prompt(s)
    requires (e.Claim? || e.ClaimPrototype?) && e.got.Some?
    ensures Owns(t, e.who, t.jobs[e.who])
    ensures forall q | q in s.jobs :: s.jobs[q].task != e.got.value
  {
  }

  lemma StillNoSharing(s: State, e: Event, t: State, limit: int)
    requires Step(s, e, t, limit) && LeasesHold(s) && Prompt(s)
    ensures NoSharing(t.jobs)
  {
    if (e.Claim? || e.ClaimPrototype?) && e.got.Some? {
      NewJob(s, e, t, limit);
    }
  }

  lemma StillFinished(s: State, e: Event, t: State, limit: int)
    requires Step(s, e, t, limit) && LeasesHold(s)
    ensures FinishedStays(t)
  {
  }

  // Safety of one step.
  lemma StepKeepsLeases(s: State, e: Event, t: State, limit: int)
    requires Step(s, e, t, limit) && LeasesHold(s) && Prompt(s)
    ensures LeasesHold(t)
  {
    forall p | p in t.jobs
      ensures Owns(t, p, t.jobs[p])
    {
      if p in s.jobs {
        OthersStillOwn(s, e, t, limit, p);
      } else {
        NewJob(s, e, t, limit);
      }
    }
    StillNoSharing(s, e, t, limit);
    StillFinished(s, e, t, limit);
  }

  // ---------- Runs ----------

  ghost predicate Run(states: seq<State>, events: seq<Event>, limit: int) {
    && |states| == |events| + 1
    && forall i | 0 <= i < |events| :: Step(states[i], events[i], states[i + 1], limit)
  }

  ghost predicate PromptRun(states: seq<State>, events: seq<Event>, limit: int) {
    Run(states, events, limit) && forall i | 0 <= i < |states| :: Prompt(states[i])
  }

  lemma {:induction false} RunKeepsLeases(states: seq<State>, events: seq<Event>, limit: int, k: nat)
    requires PromptRun(states, events, limit) && LeasesHold(states[0]) && k < |states|
    ensures LeasesHold(states[k])
  {
    if k > 0 {
      RunKeepsLeases(states, events, limit, k - 1);
      StepKeepsLeases(states[k - 1], events[k - 1], states[k], limit);
    }
  }

  predicate Leaves(e: Event, p: Process) {
    (e.Finish? || e.Crash?) && e.who == p
  }

  // A process owns its task, which is not finished, and no other process is on it.
  ghost predicate Alone(s: State, p: Process) {
    && p in s.jobs && Owns(s, p, s.jobs[p]) && s.jobs[p].task !in s.finished
    && forall q | q in s.jobs && q != p :: s.jobs[q].task != s.jobs[p].task
  }

  // A claim puts its process alone on the task exactly when no other process is still on it, awake
  // or asleep, and nobody finished it before.
  lemma ClaimStartsAlone(s: State, e: Event, t: State, limit: int)
    requires Step(s, e, t, limit) && (e.Claim? || e.ClaimPrototype?) && e.got.Some?
    ensures Alone(t, e.who) <==> e.got.value !in s.finished && forall q | q in s.jobs :: s.jobs[q].task != e.got.value
  {
    assert forall q | q in s.jobs :: q in t.jobs && t.jobs[q] == s.jobs[q];
  }

  // One step of anybody leaves a process alone on its task as long as it is itself in time.
  lemma StepKeepsAlone(s: State, e: Event, t: State, limit: int, p: Process)
    requires Step(s, e, t, limit) && Alone(s, p) && s.clock <= s.jobs[p].until && !Leaves(e, p)
    ensures Alone(t, p) && t.jobs[p].task == s.jobs[p].task
  {
    var id := s.jobs[p].task;
    match e {
      case Work(who, _, _) => if who != p { LiveLeaseUntouched(s, e, t, limit, id); }
      case Heartbeat(who, _) => if who != p { LiveLeaseUntouched(s, e, t, limit, id); }
      case Finish(who, _) => LiveLeaseUntouched(s, e, t, limit, id);
      case _ => LiveLeaseUntouched(s, e, t, limit, id);
    }
  }

  // A process that renews in time keeps its task until it finishes or crashes, however late the
  // others are: the row stays active, live and its own, and no other process gets the task.
  lemma {:induction false} KeepsItsTask(states: seq<State>, events: seq<Event>, limit: int, p: Process, i: nat, j: nat)
    requires Run(states, events, limit) && i <= j < |states| && Alone(states[i], p)
    requires forall k | i <= k < j :: !Leaves(events[k], p)
    requires forall k | i <= k <= j :: p in states[k].jobs ==> states[k].clock <= states[k].jobs[p].until
    ensures Alone(states[j], p) && states[j].jobs[p].task == states[i].jobs[p].task
    ensures var id := states[i].jobs[p].task;
            Live(states[j].rows[id], states[j].clock) && states[j].rows[id].leaseOwner == Some(p.name)
    ensures forall k | i <= k < j && (events[k].Claim? || events[k].ClaimPrototype?) ::
              events[k].got != Some(states[i].jobs[p].task)
    decreases j - i
  {
    hide Step;
    if i < j {
      KeepsItsTask(states, events, limit, p, i, j - 1);
      var s, e := states[j - 1], events[j - 1];
      StepKeepsAlone(s, e, states[j], limit, p);
      NotClaimed(s, e, states[j], limit, p);
    }
  }

  lemma NotClaimed(s: State, e: Event, t: State, limit: int, p: Process)
    requires Step(s, e, t, limit) && Alone(s, p) && s.clock <= s.jobs[p].until
    ensures e.Claim? || e.ClaimPrototype? ==> e.got != Some(s.jobs[p].task)
  {
  }

  // Nobody is on a task that is over.
  ghost predicate Over(s: State, id: string) {
    id in s.rows && Terminal(s.rows[id]) && forall q | q in s.jobs :: s.jobs[q].task != id
  }

  // A task that is over keeps its whole row for ever, however late anybody is: late heartbeats do
  // nothing, and it is never handed out again.
  lemma {:induction false} OverForever(states: seq<State>, events: seq<Event>, limit: int, id: string, i: nat, j: nat)
    requires Run(states, events, limit) && i <= j < |states| && Over(states[i], id)
    ensures Over(states[j], id) && states[j].rows[id] == states[i].rows[id]
    ensures forall k | i <= k < j && (events[k].Claim? || events[k].ClaimPrototype?) :: events[k].got != Some(id)
    decreases j - i
  {
    hide Step;
    if i < j {
      OverForever(states, events, limit, id, i, j - 1);
      TerminalUntouched(states[j - 1], events[j - 1], states[j], limit, id);
      StillNobody(states[j - 1], events[j - 1], states[j], limit, id);
    }
  }

  lemma StillNobody(s: State, e: Event, t: State, limit: int, id: string)
    requires Step(s, e, t, limit) && Over(s, id)
    ensures forall q | q in t.jobs :: t.jobs[q].task != id
  {
  }

  // The terminal update of a process that is alone on its task puts it over; so from then on the
  // row never changes and the task is never handed out again.
  lemma FinishedForever(states: seq<State>, events: seq<Event>, limit: int, p: Process, i: nat, j: nat)
    requires Run(states, events, limit) && i < j < |states| && Alone(states[i], p)
    requires events[i].Finish? && events[i].who == p
    ensures var id := states[i].jobs[p].task;
            && Over(states[j], id) && states[j].rows[id].status == events[i].status
            && states[j].rows[id] == states[i + 1].rows[id] && states[j].rows[id].leaseDeadline == None
            && forall k | i <= k < j && (events[k].Claim? || events[k].ClaimPrototype?) :: events[k].got != Some(id)
  {
    var id := states[i].jobs[p].task;
    assert Step(states[i], events[i], states[i + 1], limit);
    assert Over(states[i + 1], id);
    OverForever(states, events, limit, id, i + 1, j);
  }

  // ---------- When a process is late ----------

  // Promptness is exactly what protects a lease: a reaper can take the task away just when its
  // process has let the deadline pass, whether or not that process is still working.
  lemma TakenExactlyWhenLate(s: State, p: Process, decision: Decision, limit: int)
    requires p in s.jobs && Owns(s, p, s.jobs[p])
    ensures s.jobs[p].until < s.clock <==>
            exists asOf: int, t: State :: Step(s, Recover(s.jobs[p].task, decision, asOf), t, limit)
                                          && !Owns(t, p, t.jobs[p])
  {
    var id := s.jobs[p].task;
    if s.jobs[p].until < s.clock {
      var t := s.(rows := Recovered(s.rows, id, DecisionPatch(decision), s.clock, s.clock));
      assert Step(s, Recover(id, decision, s.clock), t, limit) && !Owns(t, p, t.jobs[p]);
    }
  }

  // The run of LateProcessOverwrites: a claim, a long sleep, the claim of another process, and the
  // sleeper's terminal update.
  function SleeperStates(sleeper: Process, other: Process, task: Task): seq<State> {
    var claimed := Assign(task, sleeper.name, 0);
    var reclaimed := Assign(claimed, other.name, LEASE + 1);
    var first := Job("t", LEASE);
    var second := Job("t", LEASE + 1 + LEASE);
    [State(0, map["t" := task], map[], {}),
     State(0, map["t" := claimed], map[sleeper := first], {}),
     State(LEASE + 1, map["t" := claimed], map[sleeper := first], {}),
     State(LEASE + 1, map["t" := reclaimed], map[sleeper := first, other := second], {}),
     State(LEASE + 1, map["t" := Patched(reclaimed, FinishPatch(Failed), LEASE + 1)], map[other := second], {"t"})]
  }

  function SleeperEvents(sleeper: Process, other: Process): seq<Event> {
    [Claim(sleeper, Some("t")), Advance(LEASE + 1), Claim(other, Some("t")), Finish(sleeper, Failed)]
  }

  lemma OnlyCandidate(rows: Table, id: string, limit: int, now: int)
    requires rows.Keys == {id} && RetryDue(rows[id], now) && (rows[id].status == Queued || Expired(rows[id], now))
    ensures FirstCandidate(rows, id, limit, now)
  {
    assert LiveIds(rows, rows[id].project, now) == {};
  }

  lemma SleeperClaims(sleeper: Process, other: Process, task: Task)
    requires sleeper != other && task.status == Queued && task.nextRetryAt == None && task.leaseDeadline == None
    ensures var ss, es := SleeperStates(sleeper, other, task), SleeperEvents(sleeper, other);
            Step(ss[0], es[0], ss[1], 1) && Step(ss[2], es[2], ss[3], 1)
  {
    var ss := SleeperStates(sleeper, other, task);
    OnlyCandidate(ss[0].rows, "t", 1, 0);
    OnlyCandidate(ss[2].rows, "t", 1, LEASE + 1);
    assert ss[1].rows == ss[0].rows["t" := ss[1].rows["t"]];
    assert ss[3].rows == ss[2].rows["t" := ss[3].rows["t"]];
  }

  lemma SleeperSleepsAndFinishes(sleeper: Process, other: Process, task: Task)
    requires sleeper != other
    ensures var ss, es := SleeperStates(sleeper, other, task), SleeperEvents(sleeper, other);
            Step(ss[1], es[1], ss[2], 1) && Step(ss[3], es[3], ss[4], 1)
  {
    var ss := SleeperStates(sleeper, other, task);
    assert ss[4].rows == Updated(ss[3].rows, "t", FinishPatch(Failed), LEASE + 1);
    assert ss[4].jobs == ss[3].jobs - {sleeper};
  }

  // Neither heartbeats nor status updates look at the owner. A process that slept through its
  // deadline and wakes up writes over the process that has claimed the task since: here its
  // terminal update takes the task from the new owner, who keeps running.
  lemma LateProcessOverwrites(sleeper: Process, other: Process, task: Task)
    requires sleeper != other && task.status == Queued && task.nextRetryAt == None && task.leaseDeadline == None
    ensures var ss := SleeperStates(sleeper, other, task);
            && Run(ss, SleeperEvents(sleeper, other), 1) && LeasesHold(ss[0])
            && Prompt(ss[0]) && Prompt(ss[1]) && !Prompt(ss[2])
            && other in ss[4].jobs && ss[4].clock <= ss[4].jobs[other].until && !Owns(ss[4], other, ss[4].jobs[other])
  {
    SleeperClaims(sleeper, other, task);
    SleeperSleepsAndFinishes(sleeper, other, task);
    var ss := SleeperStates(sleeper, other, task);
    assert Run(ss, SleeperEvents(sleeper, other), 1) by {
      hide Step;
    }
    assert sleeper in ss[2].jobs;
  }
}
