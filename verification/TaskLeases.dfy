// The task table and the SQL statements that move leases (src/repository.ts). Each statement is
// one atomic step; now is the database clock when it runs.
module TaskLeases {
  import opened Wrappers

  datatype Status =
    | Queued | Assigned | Running | Testing
    | Completed | Failed | Blocked | Cancelled | NeedsReview | Quarantined

  datatype Task = Task(
    project: string, prototype: bool, priority: int, createdAt: int, status: Status,
    worker: Option<string>, leaseOwner: Option<string>, leaseDeadline: Option<int>,
    nextRetryAt: Option<int>, updatedAt: int)

  // Keyed by the task id.
  type Table = map<string, Task>

  // The lease a claim or a reclaim writes, in milliseconds.
  const LEASE := 30000

  // ---------- Leases ----------

  predicate Active(t: Task) {
    t.status == Assigned || t.status == Running || t.status == Testing
  }

  predicate Terminal(t: Task) {
    t.status != Queued && !Active(t)
  }

  predicate Live(t: Task, now: int) {
    Active(t) && t.leaseDeadline.Some? && t.leaseDeadline.value >= now
  }

  predicate Expired(t: Task, now: int) {
    Active(t) && t.leaseDeadline.Some? && t.leaseDeadline.value < now
  }

  function LiveIds(rows: Table, project: string, now: int): set<string> {
    set id | id in rows && rows[id].project == project && Live(rows[id], now)
  }

  // ---------- Claiming ----------

  // ORDER BY priority DESC, created_at ASC
  predicate Before(a: Task, b: Task) {
    a.priority > b.priority || (a.priority == b.priority && a.createdAt < b.createdAt)
  }

  predicate RetryDue(t: Task, now: int) {
    t.nextRetryAt.None? || t.nextRetryAt.value <= now
  }

  // A product without live leases has no count to compare, so it has room whatever the limit is.
  predicate RoomIn(rows: Table, project: string, limit: int, now: int) {
    LiveIds(rows, project, now) == {} || |LiveIds(rows, project, now)| < limit
  }

  predicate Candidate(rows: Table, id: string, limit: int, now: int) {
    && id in rows && (rows[id].status == Queued || Expired(rows[id], now)) && RetryDue(rows[id], now)
    && RoomIn(rows, rows[id].project, limit, now)
  }

  predicate PrototypeCandidate(rows: Table, id: string, now: int) {
    id in rows && rows[id].status == Queued && rows[id].prototype && RetryDue(rows[id], now)
  }

  predicate FirstCandidate(rows: Table, id: string, limit: int, now: int) {
    && Candidate(rows, id, limit, now)
    && forall other | other in rows :: Candidate(rows, other, limit, now) ==> !Before(rows[other], rows[id])
  }

  predicate FirstPrototype(rows: Table, id: string, now: int) {
    && PrototypeCandidate(rows, id, now)
    && forall other | other in rows :: PrototypeCandidate(rows, other, now) ==> !Before(rows[other], rows[id])
  }

  function Assign(t: Task, worker: string, now: int): Task {
    t.(status := Assigned, worker := Some(worker), leaseOwner := Some(worker), leaseDeadline := Some(now + LEASE), updatedAt := now)
  }

  // Among tasks with equal priority and creation time the database may pick any.
  ghost predicate Claims(before: Table, after: Table, worker: string, limit: int, now: int, r: Option<string>) {
    match r
    case None => after == before && forall id | id in before :: !Candidate(before, id, limit, now)
    case Some(id) => FirstCandidate(before, id, limit, now) && after == before[id := Assign(before[id], worker, now)]
  }

  ghost predicate ClaimsPrototype(before: Table, after: Table, worker: string, now: int, r: Option<string>) {
    match r
    case None => after == before && forall id | id in before :: !PrototypeCandidate(before, id, now)
    case Some(id) => FirstPrototype(before, id, now) && after == before[id := Assign(before[id], worker, now)]
  }

  // ---------- Renewing, updating, recovering ----------

  // None leaves the column alone; Some(None) writes NULL.
  datatype Patch = Patch(
    status: Option<Status>, worker: Option<Option<string>>, leaseOwner: Option<Option<string>>,
    leaseDeadline: Option<Option<int>>, nextRetryAt: Option<Option<int>>)

  function Patched(t: Task, p: Patch, now: int): Task {
    t.(status := p.status.GetOr(t.status), worker := p.worker.GetOr(t.worker),
    leaseOwner := p.leaseOwner.GetOr(t.leaseOwner), leaseDeadline := p.leaseDeadline.GetOr(t.leaseDeadline),
    nextRetryAt := p.nextRetryAt.GetOr(t.nextRetryAt), updatedAt := now)
  }

  // The worker's status changes: each renews the lease, or gives it up for good.
  function WorkPatch(status: Status, owner: string, deadline: int): Patch {
    Patch(Some(status), None, Some(Some(owner)), Some(Some(deadline)), None)
  }

  function FinishPatch(status: Status): Patch {
    Patch(Some(status), None, Some(None), Some(None), None)
  }

  // The reaper's three decisions about an expired lease.
  datatype Decision = Requeue(nextRetryAt: int) | Quarantine | DeadLetter

  function DecisionPatch(d: Decision): Patch {
    match d
    case Requeue(at) => Patch(Some(Queued), Some(None), Some(None), Some(None), Some(Some(at)))
    case Quarantine => Patch(Some(Quarantined), Some(None), Some(None), Some(None), None)
    case DeadLetter => Patch(Some(Failed), Some(None), Some(None), Some(None), None)
  }

  function Updated(rows: Table, id: string, p: Patch, now: int): Table {
    if id in rows then rows[id := Patched(rows[id], p, now)] else rows
  }

  function Renewed(rows: Table, id: string, deadline: int, now: int): Table {
    if id in rows && Active(rows[id])
    then rows[id := rows[id].(leaseDeadline := Some(deadline), updatedAt := now)]
    else rows
  }

  // asOf is the caller's idea of the time, which the statement uses only in its condition.
  predicate Stuck(t: Task, asOf: int) {
    Expired(t, asOf) && t.updatedAt < asOf - 5000
  }

  function Requeued(t: Task, reaper: string, now: int): Task {
    t.(status := Queued, worker := Some(reaper), leaseOwner := Some(reaper), leaseDeadline := Some(now + LEASE), updatedAt := now)
  }

  function Reclaimed(rows: Table, reaper: string, asOf: int, now: int): Table {
    map id | id in rows :: if Stuck(rows[id], asOf) then Requeued(rows[id], reaper, now) else rows[id]
  }

  function Recovered(rows: Table, id: string, p: Patch, asOf: int, now: int): Table {
    if id in rows && Expired(rows[id], asOf) then rows[id := Patched(rows[id], p, now)] else rows
  }

  // ---------- The repository ----------

  // ORDER BY ... LIMIT 1 finds a row whenever there is a candidate.
  lemma {:induction false} SomeFirst(rows: Table, ids: set<string>, from: string)
    requires ids <= rows.Keys && from in ids
    ensures exists id :: id in ids && forall other | other in ids :: !Before(rows[other], rows[id])
    decreases ids
  {
    if other :| other in ids && Before(rows[other], rows[from]) {
      var fewer := set id | id in ids && Before(rows[id], rows[from]);
      assert from in ids && from !in fewer;
      SomeFirst(rows, fewer, other);
      var id :| id in fewer && forall o | o in fewer :: !Before(rows[o], rows[id]);
      assert forall o | o in ids :: !Before(rows[o], rows[id]);
    }
  }

  class PostgresTaskRepository {
    var rows: Table

    method Claim(worker: string, limit: int, now: int) returns (r: Option<string>)
      modifies this
      ensures Claims(old(rows), rows, worker, limit, now, r)
    {
      var candidates := set id | id in rows && Candidate(rows, id, limit, now);
      if candidates == {} {
        assert forall id | id in rows :: Candidate(rows, id, limit, now) ==> id in candidates;
        return None;
      }
      ghost var some :| some in candidates;
      SomeFirst(rows, candidates, some);
      var id :| id in candidates && forall other | other in candidates :: !Before(rows[other], rows[id]);
      assert FirstCandidate(rows, id, limit, now) by {
        assert forall other | other in rows :: Candidate(rows, other, limit, now) ==> other in candidates;
      }
      rows := rows[id := Assign(rows[id], worker, now)];
      r := Some(id);
    }

    method ClaimPrototype(worker: string, now: int) returns (r: Option<string>)
      modifies this
      ensures ClaimsPrototype(old(rows), rows, worker, now, r)
    {
      var candidates := set id | id in rows && PrototypeCandidate(rows, id, now);
      if candidates == {} {
        assert forall id | id in rows :: PrototypeCandidate(rows, id, now) ==> id in candidates;
        return None;
      }
      ghost var some :| some in candidates;
      SomeFirst(rows, candidates, some);
      var id :| id in candidates && forall other | other in candidates :: !Before(rows[other], rows[id]);
      assert FirstPrototype(rows, id, now) by {
        assert forall other | other in rows :: PrototypeCandidate(rows, other, now) ==> other in candidates;
      }
      rows := rows[id := Assign(rows[id], worker, now)];
      r := Some(id);
    }

    method ReclaimStuck(reaper: string, asOf: int, now: int) returns (count: nat)
      modifies this
      ensures rows == Reclaimed(old(rows), reaper, asOf, now)
      ensures count == |set id | id in old(rows) && Stuck(old(rows)[id], asOf)|
    {
      count := |set id | id in rows && Stuck(rows[id], asOf)|;
      rows := Reclaimed(rows, reaper, asOf, now);
    }

    method Heartbeat(id: string, deadline: int, now: int) returns (renewed: bool)
      modifies this
      ensures rows == Renewed(old(rows), id, deadline, now)
      ensures renewed <==> id in old(rows) && Active(old(rows)[id])
    {
      renewed := id in rows && Active(rows[id]);
      if renewed {
        rows := rows[id := rows[id].(leaseDeadline := Some(deadline), updatedAt := now)];
      }
    }

    // An empty patch is a read.
    method Update(id: string, p: Patch, now: int) returns (r: Option<Task>)
      modifies this
      ensures rows == if p == Patch(None, None, None, None, None) then old(rows) else Updated(old(rows), id, p, now)
      ensures r == if id in rows then Some(rows[id]) else None
    {
      if p != Patch(None, None, None, None, None) && id in rows {
        rows := rows[id := Patched(rows[id], p, now)];
      }
      r := if id in rows then Some(rows[id]) else None;
    }

    method RecoverStaleTask(id: string, p: Patch, asOf: int, now: int) returns (r: Option<Task>)
      modifies this
      ensures rows == Recovered(old(rows), id, p, asOf, now)
      ensures r.Some? <==> id in old(rows) && Expired(old(rows)[id], asOf)
      ensures r.Some? ==> r.value == rows[id]
    {
      if id in rows && Expired(rows[id], asOf) {
        rows := rows[id := Patched(rows[id], p, now)];
        r := Some(rows[id]);
      } else {
        r := None;
      }
    }
  }
}
