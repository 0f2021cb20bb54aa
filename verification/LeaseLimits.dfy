// The per-product limit on live leases.
module LeaseLimits {
  import opened Wrappers
  import opened TaskLeases
  import opened LeaseRuns

  function LiveCount(s: State, project: string): nat {
    |LiveIds(s.rows, project, s.clock)|
  }

  // What the claim statement enforces: a product without live leases is never refused.
  function AtMost(limit: int): nat {
    if limit < 1 then 1 else limit
  }

  ghost predicate WithinLimit(s: State, limit: int) {
    forall project: string :: LiveCount(s, project) <= AtMost(limit)
  }

  lemma SubsetCount(a: set<string>, b: set<string>)
    requires a <= b
    ensures |a| <= |b|
  {
    assert b == a + (b - a);
  }

  // ---------- What brings a lease to life ----------

  // The task that a step brings back to life without looking at the limit: a prototype claim, and
  // a renewal of a task that is not live by a deadline that lies ahead.
  function Revives(s: State, e: Event): Option<string> {
    match e
    case ClaimPrototype(_, got) => got
    case Work(who, _, deadline) =>
      if who in s.jobs && s.jobs[who].task in s.rows && !Live(s.rows[s.jobs[who].task], s.clock) && deadline >= s.clock
      then Some(s.jobs[who].task) else None
    case Heartbeat(who, deadline) => if who in s.jobs then Renews(s, s.jobs[who].task, deadline) else None
    case LateHeartbeat(id, deadline) => Renews(s, id, deadline)
    case _ => None
  }

  function Renews(s: State, id: string, deadline: int): Option<string> {
    if id in s.rows && Active(s.rows[id]) && !Live(s.rows[id], s.clock) && deadline >= s.clock then Some(id) else None
  }

  function Awakened(s: State, e: Event): Option<string> {
    if e.Claim? then e.got else Revives(s, e)
  }

  // Only the awakened task becomes live.
  lemma OnlyAwakened(s: State, e: Event, t: State, limit: int, project: string)
    requires Step(s, e, t, limit)
    ensures LiveIds(t.rows, project, t.clock)
         <= LiveIds(s.rows, project, s.clock) + match Awakened(s, e) case Some(id) => {id} case None => {}
  {
  }

  // It was not live, it is live now in its own project, and everything else is as live as before.
  lemma AwakenedIsNew(s: State, e: Event, t: State, limit: int)
    requires Step(s, e, t, limit) && Awakened(s, e).Some?
    ensures var id := Awakened(s, e).value;
            && id in s.rows && !Live(s.rows[id], s.clock) && id in t.rows && t.rows[id].project == s.rows[id].project
            && Live(t.rows[id], t.clock) && t.clock == s.clock
            && forall other | other in s.rows && other != id :: other in t.rows && t.rows[other] == s.rows[other]
  {
  }

  lemma AwakenedCounts(s: State, e: Event, t: State, limit: int)
    requires Step(s, e, t, limit) && Awakened(s, e).Some?
    ensures var id := Awakened(s, e).value;
            id in s.rows && LiveCount(t, s.rows[id].project) == LiveCount(s, s.rows[id].project) + 1
  {
    hide Step, Live, Awakened;
    var id := Awakened(s, e).value;
    AwakenedIsNew(s, e, t, limit);
    OnlyAwakened(s, e, t, limit, s.rows[id].project);
    var before, after := LiveIds(s.rows, s.rows[id].project, s.clock), LiveIds(t.rows, s.rows[id].project, t.clock);
    assert after == before + {id};
    assert id !in before;
  }

  lemma ClaimHasRoom(s: State, e: Event, t: State, limit: int)
    requires Step(s, e, t, limit) && e.Claim? && e.got.Some?
    ensures e.got.value in s.rows && LiveCount(s, s.rows[e.got.value].project) < AtMost(limit)
  {
  }

  // ---------- One step, and runs ----------

  predicate HasRoom(s: State, e: Event, limit: int) {
    Revives(s, e).Some? && Revives(s, e).value in s.rows
    ==> LiveCount(s, s.rows[Revives(s, e).value].project) < AtMost(limit)
  }

  // Whoever is late or not: a step keeps the limit exactly when the task that it brings to life
  // without asking, if any, finds room in its project.
  lemma StepKeepsLimit(s: State, e: Event, t: State, limit: int)
    requires Step(s, e, t, limit) && WithinLimit(s, limit)
    ensures WithinLimit(t, limit) <==> HasRoom(s, e, limit)
  {
    hide Step, LiveIds;
    if Awakened(s, e).Some? {
      AwakenedCounts(s, e, t, limit);
      if e.Claim? {
        ClaimHasRoom(s, e, t, limit);
      }
    }
    if HasRoom(s, e, limit) {
      forall project: string
        ensures LiveCount(t, project) <= AtMost(limit)
      {
        assert LiveCount(s, project) <= AtMost(limit);
        OtherProjects(s, e, t, limit, project);
      }
    }
  }

  // The count of a project grows only if the awakened task belongs to it.
  lemma OtherProjects(s: State, e: Event, t: State, limit: int, project: string)
    requires Step(s, e, t, limit)
    ensures LiveCount(t, project) <= LiveCount(s, project)
         || (Awakened(s, e).Some? && Awakened(s, e).value in s.rows && s.rows[Awakened(s, e).value].project == project)
  {
    hide Step;
    OnlyAwakened(s, e, t, limit, project);
    if Awakened(s, e).Some? {
      AwakenedIsNew(s, e, t, limit);
      if s.rows[Awakened(s, e).value].project != project {
        assert Awakened(s, e).value !in LiveIds(t.rows, project, t.clock);
        SubsetCount(LiveIds(t.rows, project, t.clock), LiveIds(s.rows, project, s.clock));
      }
    } else {
      SubsetCount(LiveIds(t.rows, project, t.clock), LiveIds(s.rows, project, s.clock));
    }
  }

  // Over any run whose revivals find room, no product ever has more live leases than enforced.
  lemma {:induction false} RunKeepsLimit(states: seq<State>, events: seq<Event>, limit: int, k: nat)
    requires Run(states, events, limit) && WithinLimit(states[0], limit) && k < |states|
    requires forall i | 0 <= i < |events| :: HasRoom(states[i], events[i], limit)
    ensures WithinLimit(states[k], limit)
  {
    hide Step, HasRoom, WithinLimit;
    if k > 0 {
      RunKeepsLimit(states, events, limit, k - 1);
      StepKeepsLimit(states[k - 1], events[k - 1], states[k], limit);
    }
  }

  // Processes that renew in time revive nothing.
  lemma PromptRevivesNothing(s: State, e: Event, t: State, limit: int)
    requires Step(s, e, t, limit) && LeasesHold(s) && Prompt(s) && !e.ClaimPrototype?
    ensures Revives(s, e) == None
  {
    match e {
      case Work(who, _, _) => assert Owns(s, who, s.jobs[who]);
      case Heartbeat(who, _) => assert Owns(s, who, s.jobs[who]);
      case _ =>
    }
  }

  // So a run of prompt processes without prototype claims never exceeds what is enforced.
  lemma {:induction false} PromptRunKeepsLimit(states: seq<State>, events: seq<Event>, limit: int, k: nat)
    requires PromptRun(states, events, limit) && LeasesHold(states[0]) && WithinLimit(states[0], limit)
    requires k < |states| && forall e | e in events :: !e.ClaimPrototype?
    ensures WithinLimit(states[k], limit)
  {
    hide Step, WithinLimit, Revives;
    if k > 0 {
      PromptRunKeepsLimit(states, events, limit, k - 1);
      RunKeepsLeases(states, events, limit, k - 1);
      PromptRevivesNothing(states[k - 1], events[k - 1], states[k], limit);
      StepKeepsLimit(states[k - 1], events[k - 1], states[k], limit);
    }
  }

  // ---------- When the limit itself holds ----------

  // Runs that start without live leases and revive nothing.
  ghost predicate CleanRun(states: seq<State>, events: seq<Event>, limit: int) {
    && Run(states, events, limit) && (forall project: string :: LiveCount(states[0], project) == 0)
    && forall i | 0 <= i < |events| :: Revives(states[i], events[i]) == None
  }

  ghost predicate LimitRespected(limit: int) {
    forall states: seq<State>, events: seq<Event>, k: nat, project: string ::
      CleanRun(states, events, limit) && k < |states| ==> LiveCount(states[k], project) <= limit
  }

  // A claim of the only task of a product succeeds whatever the limit is, and leaves one live lease.
  lemma FirstClaimIgnoresLimit(who: Process, task: Task, limit: int)
    requires task.status == Queued && task.nextRetryAt == None
    ensures var ss := [State(0, map["t" := task], map[], {}),
                       State(0, map["t" := Assign(task, who.name, 0)], map[who := Job("t", LEASE)], {})];
            CleanRun(ss, [Claim(who, Some("t"))], limit) && LiveCount(ss[1], task.project) == 1
  {
    var s := State(0, map["t" := task], map[], {});
    var t := State(0, map["t" := Assign(task, who.name, 0)], map[who := Job("t", LEASE)], {});
    OnlyCandidate(s.rows, "t", limit, 0);
    assert t.rows == s.rows["t" := Assign(task, who.name, 0)];
    assert t.jobs == s.jobs[who := Job("t", LEASE)];
    assert forall project: string :: LiveIds(s.rows, project, 0) == {};
    assert LiveIds(t.rows, task.project, 0) == {"t"};
  }

  // The configured limit is respected exactly when it is at least one: zero or less still lets
  // every product have one lease.
  lemma LimitMeantExactlyWhen(limit: int)
    ensures LimitRespected(limit) <==> limit >= 1
  {
    if limit >= 1 {
      forall states: seq<State>, events: seq<Event>, k: nat, project: string | CleanRun(states, events, limit) && k < |states|
        ensures LiveCount(states[k], project) <= limit
      {
        RunKeepsLimit(states, events, limit, k);
      }
    } else {
      var task := Task("p", false, 0, 0, Queued, None, None, None, None, 0);
      var who := Process(0, "w");
      FirstClaimIgnoresLimit(who, task, limit);
      var one: nat := 1;
      var ss := [State(0, map["t" := task], map[], {}),
                 State(0, map["t" := Assign(task, who.name, 0)], map[who := Job("t", LEASE)], {})];
      assert CleanRun(ss, [Claim(who, Some("t"))], limit) && LiveCount(ss[one], "p") > limit;
    }
  }

  // ---------- A late renewal ----------

  // The limit is one, the sleeper's lease runs out, another task of the product is claimed, and
  // the sleeper's heartbeat brings its own lease back.
  lemma LateRenewalBreaksLimit(s: State, sleeper: Process, other: Process, a: string, b: string)
    requires a != b && s.rows.Keys == {a, b} && sleeper != other && LeasesHold(s) && s.rows[a].project == s.rows[b].project
    requires s.jobs == map[sleeper := Job(a, s.clock - 1), other := Job(b, s.clock + LEASE)]
    ensures WithinLimit(s, 1) && !Prompt(s) && !HasRoom(s, Heartbeat(sleeper, s.clock), 1)
    ensures exists t: State :: Step(s, Heartbeat(sleeper, s.clock), t, 1) && !WithinLimit(t, 1)
  {
    assert Owns(s, sleeper, s.jobs[sleeper]) && Owns(s, other, s.jobs[other]);
    var project := s.rows[a].project;
    forall p: string
      ensures LiveCount(s, p) <= AtMost(1)
    {
      assert LiveIds(s.rows, p, s.clock) <= {b};
      SubsetCount(LiveIds(s.rows, p, s.clock), {b});
    }
    assert s.clock > s.jobs[sleeper].until;
    assert LiveIds(s.rows, project, s.clock) == {b};
    var t := s.(rows := Renewed(s.rows, a, s.clock, s.clock), jobs := s.jobs[sleeper := Job(a, s.clock)]);
    assert Step(s, Heartbeat(sleeper, s.clock), t, 1);
    StepKeepsLimit(s, Heartbeat(sleeper, s.clock), t, 1);
  }
}
