// The statements on the task table column by column (src/repository.ts): what a claim takes and
// writes, what a renewal, an update and the reapers write, and what they leave alone.
module TaskStatements {
  import opened Wrappers
  import opened TaskLeases

  // The live leases of a project.
  function Busy(rows: Table, project: string, now: int): nat {
    |set id | id in rows && rows[id].project == project && rows[id].status in {Assigned, Running, Testing}
                         && rows[id].leaseDeadline.Some? && now <= rows[id].leaseDeadline.value|
  }

  predicate RetryNotDelayed(t: Task, now: int) {
    t.nextRetryAt.Some? ==> t.nextRetryAt.value <= now
  }

  // Queued, or in work with a lease that ran out; no retry delay ahead; and fewer live leases of its
  // project than the limit, or none.
  predicate Claimable(rows: Table, id: string, limit: int, now: int) {
    && id in rows && RetryNotDelayed(rows[id], now)
    && (|| rows[id].status == Queued
        || (rows[id].status in {Assigned, Running, Testing} && rows[id].leaseDeadline.Some? && rows[id].leaseDeadline.value < now))
    && (Busy(rows, rows[id].project, now) < limit || Busy(rows, rows[id].project, now) == 0)
  }

  predicate ClaimableAsPrototype(rows: Table, id: string, now: int) {
    id in rows && rows[id].status == Queued && rows[id].prototype && RetryNotDelayed(rows[id], now)
  }

  // The columns that a claim writes in the row it takes, and those it leaves alone.
  predicate TakenBy(before: Task, after: Task, worker: string, now: int) {
    && after.status == Assigned && after.worker == Some(worker) && after.leaseOwner == Some(worker)
    && after.leaseDeadline == Some(now + 30000) && after.updatedAt == now
    && after.project == before.project && after.prototype == before.prototype && after.priority == before.priority
    && after.createdAt == before.createdAt && after.nextRetryAt == before.nextRetryAt
  }

  lemma BusyIsLive(rows: Table, project: string, now: int)
    ensures Busy(rows, project, now) == |LiveIds(rows, project, now)|
  {
    assert LiveIds(rows, project, now)
        == set id | id in rows && rows[id].project == project && rows[id].status in {Assigned, Running, Testing}
                         && rows[id].leaseDeadline.Some? && now <= rows[id].leaseDeadline.value;
  }

  lemma CandidateIsClaimable(rows: Table, id: string, limit: int, now: int)
    ensures Candidate(rows, id, limit, now) <==> Claimable(rows, id, limit, now)
  {
    if id in rows {
      BusyIsLive(rows, rows[id].project, now);
      hide Busy, LiveIds;
    }
  }

  // A claim takes nothing exactly when nothing is claimable. Otherwise it takes a most urgent task:
  // every other claimable task has a smaller priority, or the same one and is not older. It writes
  // a lease of thirty seconds into that row and touches no other.
  lemma ClaimTakesMostUrgent(before: Table, after: Table, worker: string, limit: int, now: int, r: Option<string>)
    requires Claims(before, after, worker, limit, now, r)
    ensures r.None? <==> forall id :: !Claimable(before, id, limit, now)
    ensures r.None? ==> after == before
    ensures r.Some? ==>
              && Claimable(before, r.value, limit, now)
              && (forall other | other != r.value && Claimable(before, other, limit, now) ::
                    || before[other].priority < before[r.value].priority
                    || (before[other].priority == before[r.value].priority && before[other].createdAt >= before[r.value].createdAt))
              && after.Keys == before.Keys && TakenBy(before[r.value], after[r.value], worker, now)
              && forall other | other in before && other != r.value :: after[other] == before[other]
  {
    forall id
      ensures Candidate(before, id, limit, now) <==> Claimable(before, id, limit, now)
    {
      CandidateIsClaimable(before, id, limit, now);
    }
    hide Candidate, Claimable;
    InRows(before, limit, now);
  }

  lemma InRows(rows: Table, limit: int, now: int)
    ensures forall id :: Claimable(rows, id, limit, now) ==> id in rows
  {
  }

  // The same for prototypes, which no limit holds back.
  lemma PrototypeClaimTakesMostUrgent(before: Table, after: Table, worker: string, now: int, r: Option<string>)
    requires ClaimsPrototype(before, after, worker, now, r)
    ensures r.None? <==> forall id :: !ClaimableAsPrototype(before, id, now)
    ensures r.None? ==> after == before
    ensures r.Some? ==>
              && ClaimableAsPrototype(before, r.value, now)
              && (forall other | other != r.value && ClaimableAsPrototype(before, other, now) ::
                    || before[other].priority < before[r.value].priority
                    || (before[other].priority == before[r.value].priority && before[other].createdAt >= before[r.value].createdAt))
              && after.Keys == before.Keys && TakenBy(before[r.value], after[r.value], worker, now)
              && forall other | other in before && other != r.value :: after[other] == before[other]
  {
    assert forall id :: PrototypeCandidate(before, id, now) <==> ClaimableAsPrototype(before, id, now);
  }

  // ---------- Renewing and finishing ----------

  // A renewal moves the deadline of a task in work, and nothing else; any other task is left alone.
  lemma RenewalMeaning(rows: Table, id: string, deadline: int, now: int)
    ensures var next := Renewed(rows, id, deadline, now);
            && next.Keys == rows.Keys && (forall other | other in rows && other != id :: next[other] == rows[other])
            && (id in rows ==>
                  next[id] == if rows[id].status in {Assigned, Running, Testing}
                              then rows[id].(leaseDeadline := Some(deadline), updatedAt := now) else rows[id])
  {
  }

  // A status change of the worker writes its lease; the terminal one clears it. Neither asks whose
  // the row is.
  lemma WorkMeaning(rows: Table, id: string, status: Status, owner: string, deadline: int, now: int)
    requires id in rows
    ensures Updated(rows, id, WorkPatch(status, owner, deadline), now)
            == rows[id := rows[id].(status := status, leaseOwner := Some(owner), leaseDeadline := Some(deadline), updatedAt := now)]
    ensures Updated(rows, id, FinishPatch(status), now)
            == rows[id := rows[id].(status := status, leaseOwner := None, leaseDeadline := None, updatedAt := now)]
  {
  }

  // ---------- Reaping ----------

  // A reaper that has decided about an expired lease writes the decision exactly if the lease has
  // still expired: back to the queue with a delay, quarantined, or failed. The row then has no
  // worker and no lease.
  lemma RecoveryMeaning(rows: Table, id: string, d: Decision, asOf: int, now: int)
    ensures var next := Recovered(rows, id, DecisionPatch(d), asOf, now);
            var expired := id in rows && rows[id].status in {Assigned, Running, Testing}
                           && rows[id].leaseDeadline.Some? && rows[id].leaseDeadline.value < asOf;
            && next.Keys == rows.Keys && (forall other | other in rows && other != id :: next[other] == rows[other])
            && (!expired ==> next == rows)
            && (expired ==>
                  && next[id].worker == None && next[id].leaseOwner == None && next[id].leaseDeadline == None
                  && next[id].priority == rows[id].priority && next[id].createdAt == rows[id].createdAt
                  && next[id].project == rows[id].project
                  && match d
                     case Requeue(at) => next[id].status == Queued && next[id].nextRetryAt == Some(at)
                     case Quarantine => next[id].status == Quarantined && next[id].nextRetryAt == rows[id].nextRetryAt
                     case DeadLetter => next[id].status == Failed && next[id].nextRetryAt == rows[id].nextRetryAt)
  {
  }

  // So a requeued task is claimable again, once its delay has passed and its project has room.
  lemma RequeuedIsClaimable(rows: Table, id: string, at: int, asOf: int, limit: int, now: int, later: int)
    requires id in rows && Expired(rows[id], asOf) && limit > 0
    ensures var next := Recovered(rows, id, DecisionPatch(Requeue(at)), asOf, now);
            Claimable(next, id, limit, later) <==> at <= later && Busy(next, next[id].project, later) < limit
  {
    hide Busy;
  }

  // The other reaper takes the tasks whose lease expired and that nobody wrote for five seconds: they
  // are queued again under its own name and for thirty seconds, and counted.
  lemma ReclaimMeaning(rows: Table, reaper: string, asOf: int, now: int)
    ensures var next := Reclaimed(rows, reaper, asOf, now);
            && next.Keys == rows.Keys
            && forall id | id in rows ::
                 var stuck := rows[id].status in {Assigned, Running, Testing} && rows[id].leaseDeadline.Some?
                              && rows[id].leaseDeadline.value < asOf && rows[id].updatedAt < asOf - 5000;
                 next[id] == if stuck
                             then rows[id].(status := Queued, worker := Some(reaper), leaseOwner := Some(reaper),
                                            leaseDeadline := Some(now + 30000), updatedAt := now)
                             else rows[id]
  {
  }
}
