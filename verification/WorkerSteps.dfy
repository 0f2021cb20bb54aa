// One pass of a worker (executeOnce in src/worker-service.ts) is a run of the lease protocol.
module WorkerSteps {
  import opened Wrappers
  import opened TaskLeases
  import opened LeaseRuns

  // What governance, the agent, the finalizer and the clock do during one pass. The two lists hold
  // the delays between firings of the heartbeat timer while the agent works and while the result
  // is finalized.
  datatype PassEnv = PassEnv(
    claimAllowed: bool, executionAllowed: bool, gates: nat, specValid: bool, working: seq<nat>, agentThrows: bool,
    agentCompleted: bool, finalizing: seq<nat>, finalizerThrows: bool, verdict: Verdict, closing: nat)

  datatype Verdict = VerdictCompleted | VerdictFailed | VerdictBlocked

  function StatusOf(v: Verdict): Status {
    match v
    case VerdictCompleted => Completed
    case VerdictFailed => Failed
    case VerdictBlocked => Blocked
  }

  // The status in which a pass leaves the task it claimed.
  function FinalStatus(env: PassEnv): Status {
    if !env.executionAllowed then Blocked
    else if !env.specValid || env.agentThrows || !env.agentCompleted || env.finalizerThrows then Failed
    else StatusOf(env.verdict)
  }

  // Completed only if everything went well, blocked by governance or by the finalizer, else failed.
  lemma StatusByCourse(env: PassEnv)
    ensures FinalStatus(env) == Completed <==>
            && env.executionAllowed && env.specValid && !env.agentThrows && env.agentCompleted
            && !env.finalizerThrows && env.verdict == VerdictCompleted
    ensures FinalStatus(env) == Blocked <==>
            || !env.executionAllowed
            || (env.specValid && !env.agentThrows && env.agentCompleted && !env.finalizerThrows && env.verdict == VerdictBlocked)
    ensures FinalStatus(env) == Failed <==>
            && env.executionAllowed
            && (!env.specValid || env.agentThrows || !env.agentCompleted || env.finalizerThrows || env.verdict == VerdictFailed)
  {
  }

  // The lease covers the gates, and each renewal the time up to the next one.
  predicate FitsLease(env: PassEnv, leaseTimeoutMs: int) {
    && env.gates <= LEASE && Within(env.working, leaseTimeoutMs) && Within(env.finalizing, leaseTimeoutMs)
    && env.closing <= leaseTimeoutMs
  }

  predicate Within(delays: seq<nat>, leaseTimeoutMs: int) {
    0 <= leaseTimeoutMs && forall d | d in delays :: d <= leaseTimeoutMs
  }

  lemma RunMore(states: seq<State>, events: seq<Event>, e: Event, t: State, limit: int)
    requires Run(states, events, limit) && Step(states[|states| - 1], e, t, limit)
    ensures Run(states + [t], events + [e], limit)
  {
    hide Step;
    forall i | 0 <= i < |events| + 1
      ensures Step((states + [t])[i], (events + [e])[i], (states + [t])[i + 1], limit)
    {
      if i < |events| {
        assert Step(states[i], events[i], states[i + 1], limit);
      }
    }
  }

  // Every other row, job and finished task is as before.
  ghost predicate Untouched(s: State, t: State, id: string, who: Process) {
    && t.rows - {id} == s.rows - {id} && id in t.rows
    && t.jobs - {who} == s.jobs - {who} && t.finished - {id} == s.finished - {id}
  }

  lemma UntouchedTwice(a: State, b: State, c: State, id: string, who: Process)
    requires Untouched(a, b, id, who) && Untouched(b, c, id, who)
    ensures Untouched(a, c, id, who)
  {
  }

  lemma CandidatesAreRows(rows: Table, limit: int, now: int)
    ensures forall id :: Candidate(rows, id, limit, now) ==> id in rows
  {
  }

  lemma FirstIsCandidate(rows: Table, id: string, limit: int, now: int)
    requires FirstCandidate(rows, id, limit, now)
    ensures Candidate(rows, id, limit, now)
  {
  }

  class BaseWorker {
    const who: Process
    const tasks: PostgresTaskRepository
    const leaseTimeoutMs: int
    const limit: int
    var clock: int
    // The protocol states passed through, and the steps between them.
    ghost var states: seq<State>
    ghost var events: seq<Event>

    constructor (who: Process, tasks: PostgresTaskRepository, leaseTimeoutMs: int, limit: int, clock: int, ghost s: State)
      requires s.rows == tasks.rows && s.clock == clock && who !in s.jobs
      ensures this.who == who && this.tasks == tasks && Valid() && Now() == s && events == []
    {
      this.who, this.tasks, this.leaseTimeoutMs, this.limit, this.clock := who, tasks, leaseTimeoutMs, limit, clock;
      states, events := [s], [];
    }

    ghost predicate Valid()
      reads this, tasks
    {
      Run(states, events, limit) && Now().rows == tasks.rows && Now().clock == clock
    }

    ghost function Now(): State
      reads this
      requires Run(states, events, limit)
    {
      states[|states| - 1]
    }

    // The worker is on the task, as the protocol sees it.
    ghost predicate Holds(id: string)
      reads this
      requires Run(states, events, limit)
    {
      who in Now().jobs && Now().jobs[who].task == id && id in Now().rows
    }

    // Since the given state the worker has never been late.
    ghost predicate PromptSince(n: nat)
      reads this
    {
      forall k | n <= k < |states| :: who in states[k].jobs ==> states[k].clock <= states[k].jobs[who].until
    }

    // The worker's own deadline is a whole lease away.
    ghost predicate JustRenewed(lease: int)
      reads this
      requires Run(states, events, limit)
    {
      who in Now().jobs && Now().jobs[who].until == clock + lease
    }

    ghost method Record(e: Event, t: State)
      requires Run(states, events, limit) && Step(Now(), e, t, limit)
      modifies this`states, this`events
      ensures Run(states, events, limit) && states == old(states) + [t] && events == old(events) + [e]
    {
      RunMore(states, events, e, t, limit);
      states, events := states + [t], events + [e];
    }

    method Wait(delay: nat)
      requires Valid()
      modifies this`clock, this`states, this`events
      ensures Valid() && Now() == old(Now()).(clock := clock) && clock == old(clock) + delay
      ensures old(events) <= events && states == old(states) + [Now()]
    {
      clock := clock + delay;
      Record(Advance(clock), Now().(clock := clock));
    }

    method Claim() returns (r: Option<string>)
      requires Valid() && who !in Now().jobs
      modifies this`states, this`events, tasks
      ensures Valid() && states == old(states) + [Now()] && events == old(events) + [LeaseRuns.Claim(who, r)]
      ensures Claims(old(tasks.rows), tasks.rows, who.name, limit, clock, r)
      ensures r.None? ==> Now() == old(Now())
      ensures r.Some? ==> JustRenewed(LEASE)
      ensures r.Some? ==> Holds(r.value) && Untouched(old(Now()), Now(), r.value, who) && Now().finished == old(Now()).finished
    {
      ghost var s := Now();
      r := tasks.Claim(who.name, limit, clock);
      Record(LeaseRuns.Claim(who, r),
             s.(rows := tasks.rows, jobs := if r.Some? then s.jobs[who := Job(r.value, s.clock + LEASE)] else s.jobs));
    }

    method Work(id: string, status: Status)
      requires Valid() && Holds(id) && (status == Running || status == Testing)
      modifies this`states, this`events, tasks
      ensures Valid() && Holds(id) && Untouched(old(Now()), Now(), id, who) && Now().finished == old(Now()).finished
      ensures old(events) <= events && states == old(states) + [Now()] && JustRenewed(leaseTimeoutMs)
    {
      ghost var s := Now();
      var deadline := clock + leaseTimeoutMs;
      var _ := tasks.Update(id, WorkPatch(status, who.name, deadline), clock);
      Record(LeaseRuns.Work(who, status, deadline),
             s.(rows := tasks.rows, jobs := s.jobs[who := s.jobs[who].(until := deadline)]));
    }

    // The timer fires after each of the delays; whether the renewal took effect is ignored.
    method Beat(id: string, delays: seq<nat>)
      requires Valid() && Holds(id)
      modifies this`clock, this`states, this`events, tasks
      ensures old(states) <= states && old(events) <= events
      ensures Valid() && Holds(id) && Untouched(old(Now()), Now(), id, who) && Now().finished == old(Now()).finished
      ensures old(JustRenewed(leaseTimeoutMs)) && Within(delays, leaseTimeoutMs) ==>
                JustRenewed(leaseTimeoutMs) && PromptSince(|old(states)|)
    {
      for i := 0 to |delays|
        invariant old(states) <= states && old(events) <= events
        invariant Valid() && Holds(id) && Untouched(old(Now()), Now(), id, who) && Now().finished == old(Now()).finished
        invariant old(JustRenewed(leaseTimeoutMs)) && Within(delays, leaseTimeoutMs) ==>
                    JustRenewed(leaseTimeoutMs) && PromptSince(|old(states)|)
      {
        assert delays[i] in delays;
        Wait(delays[i]);
        ghost var s := Now();
        var deadline := clock + leaseTimeoutMs;
        var _ := tasks.Heartbeat(id, deadline, clock);
        Record(LeaseRuns.Heartbeat(who, deadline),
               s.(rows := tasks.rows, jobs := s.jobs[who := s.jobs[who].(until := deadline)]));
      }
    }

    method Finish(id: string, status: Status)
      requires Valid() && Holds(id) && (status == Completed || status == Failed || status == Blocked)
      modifies this`states, this`events, tasks
      ensures Valid() && Untouched(old(Now()), Now(), id, who) && who !in Now().jobs && Now().finished == old(Now()).finished + {id}
      ensures old(events) <= events && states == old(states) + [Now()]
      ensures tasks.rows[id].status == status && tasks.rows[id].leaseOwner == None && tasks.rows[id].leaseDeadline == None
    {
      ghost var s := Now();
      var _ := tasks.Update(id, FinishPatch(status), clock);
      Record(LeaseRuns.Finish(who, status), s.(rows := tasks.rows, jobs := s.jobs - {who}, finished := s.finished + {id}));
    }

    // The claimed task was carried to its end.
    ghost predicate Ended(s: State, id: string, status: Status)
      reads this
      requires Run(states, events, limit)
    {
      && Untouched(s, Now(), id, who) && who !in Now().jobs && Now().finished == s.finished + {id}
      && id in Now().rows && Now().rows[id].status == status && Terminal(Now().rows[id])
      && Now().rows[id].leaseOwner == None && Now().rows[id].leaseDeadline == None
    }

    // From the claimed task on, up to the point where the agent has answered.
    method Attempt(id: string, env: PassEnv) returns (failed: bool)
      requires Valid() && Holds(id)
      modifies this`clock, this`states, this`events, tasks
      ensures old(states) <= states && old(events) <= events
      ensures Valid() && Holds(id) && Untouched(old(Now()), Now(), id, who) && Now().finished == old(Now()).finished
      ensures failed <==> !env.specValid || env.agentThrows || !env.agentCompleted
      ensures FitsLease(env, leaseTimeoutMs) ==> PromptSince(|old(states)|)
    {
      hide Run;
      ghost var s := Now();
      Work(id, Running);
      if !env.specValid {
        return true;
      }
      ghost var t := Now();
      Beat(id, env.working);
      UntouchedTwice(s, t, Now(), id, who);
      failed := env.agentThrows || !env.agentCompleted;
    }

    // From the agent's result on.
    method Finalize(id: string, env: PassEnv)
      requires Valid() && Holds(id)
      modifies this`clock, this`states, this`events, tasks
      ensures old(states) <= states && old(events) <= events
      ensures Valid() && Ended(old(Now()), id, if env.finalizerThrows then Failed else StatusOf(env.verdict))
      ensures FitsLease(env, leaseTimeoutMs) ==> PromptSince(|old(states)|)
    {
      hide Run, Untouched;
      ghost var s := Now();
      Work(id, Testing);
      ghost var t := Now();
      Beat(id, env.finalizing);
      UntouchedTwice(s, t, Now(), id, who);
      ghost var u := Now();
      Wait(env.closing);
      OnlyClock(s, u, Now(), id, who);
      ghost var v := Now();
      Finish(id, if env.finalizerThrows then Failed else StatusOf(env.verdict));
      UntouchedTwice(s, v, Now(), id, who);
    }

    // From the claim on.
    method Pursue(id: string, env: PassEnv)
      requires Valid() && Holds(id) && JustRenewed(LEASE)
      modifies this`clock, this`states, this`events, tasks
      ensures old(states) <= states && old(events) <= events
      ensures Valid() && Ended(old(Now()), id, FinalStatus(env))
      ensures FitsLease(env, leaseTimeoutMs) ==> PromptSince(|old(states)|)
    {
      hide Run, Untouched, Within;
      ghost var s := Now();
      Wait(env.gates);
      UntouchedByWaiting(s, Now(), id, who);
      ghost var t := Now();
      if !env.executionAllowed {
        Finish(id, Blocked);
        UntouchedTwice(s, t, Now(), id, who);
        return;
      }
      var failed := Attempt(id, env);
      UntouchedTwice(s, t, Now(), id, who);
      t := Now();
      if failed {
        Finish(id, Failed);
      } else {
        Finalize(id, env);
      }
      UntouchedTwice(s, t, Now(), id, who);
    }

    lemma EndsInTable(s: State, id: string, status: Status)
      requires Valid() && Ended(s, id, status)
      ensures id in tasks.rows && tasks.rows[id].status == status
    {
    }

    lemma EndedSince(s: State, t: State, id: string, status: Status)
      requires Run(states, events, limit) && Ended(t, id, status) && Untouched(s, t, id, who) && t.finished == s.finished
      ensures Ended(s, id, status)
    {
      UntouchedTwice(s, t, Now(), id, who);
    }

    // A pass without interference: it works exactly when governance lets it claim and there is a
    // candidate; then it takes a first candidate to the status that its course calls for, without
    // a lease, and leaves every other task alone. The steps taken are a run of the lease protocol,
    // in time throughout if the delays of the pass fit its leases.
    method ExecuteOnce(env: PassEnv) returns (worked: bool)
      requires Valid() && who !in Now().jobs
      modifies this`clock, this`states, this`events, tasks
      ensures Valid() && who !in Now().jobs && old(states) <= states && old(events) <= events
      ensures worked <==> env.claimAllowed && exists id :: Candidate(old(tasks.rows), id, limit, old(clock))
      ensures !worked ==> Now() == old(Now())
      ensures worked ==>
                exists id :: FirstCandidate(old(tasks.rows), id, limit, old(clock))
                             && id in tasks.rows && Ended(old(Now()), id, tasks.rows[id].status)
                             && (tasks.rows[id].status == Completed <==>
                                 && env.executionAllowed && env.specValid && !env.agentThrows && env.agentCompleted
                                 && !env.finalizerThrows && env.verdict == VerdictCompleted)
                             && (tasks.rows[id].status == Blocked <==>
                                 || !env.executionAllowed
                                 || (env.specValid && !env.agentThrows && env.agentCompleted
                                     && !env.finalizerThrows && env.verdict == VerdictBlocked))
                             && (tasks.rows[id].status == Failed <==>
                                 && env.executionAllowed
                                 && (!env.specValid || env.agentThrows || !env.agentCompleted
                                     || env.finalizerThrows || env.verdict == VerdictFailed))
      ensures FitsLease(env, leaseTimeoutMs) ==> PromptSince(|old(states)|)
    {
      hide Run, Ended, Candidate, FirstCandidate, FitsLease;
      ghost var s, rows, start := Now(), tasks.rows, |states|;
      if !env.claimAllowed {
        return false;
      }
      var claimed := Claim();
      if claimed.None? {
        CandidatesAreRows(rows, limit, clock);
        return false;
      }
      FirstIsCandidate(rows, claimed.value, limit, clock);
      ghost var t := Now();
      Pursue(claimed.value, env);
      EndedSince(s, t, claimed.value, FinalStatus(env));
      EndsInTable(s, claimed.value, FinalStatus(env));
      StatusByCourse(env);
      worked := true;
    }
  }

  lemma OnlyClock(s: State, t: State, u: State, id: string, who: Process)
    requires Untouched(s, t, id, who) && u == t.(clock := u.clock)
    ensures Untouched(s, u, id, who)
  {
  }

  lemma UntouchedByWaiting(s: State, t: State, id: string, who: Process)
    requires id in s.rows && t == s.(clock := t.clock)
    ensures Untouched(s, t, id, who)
  {
  }
}
