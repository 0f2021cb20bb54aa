// Claims drain a queue in the order the task list shows.
module ClaimOrder {
  import opened Wrappers
  import opened TaskLeases

  // The list is the whole table, sorted by priority descending and creation time ascending.
  ghost predicate Listing(rows: Table, ids: seq<string>) {
    && (forall id :: id in ids <==> id in rows)
    && (forall i, j :: 0 <= i < j < |ids| ==> ids[i] != ids[j])
    && (forall i, j :: 0 <= i < j < |ids| ==> !Before(rows[ids[j]], rows[ids[i]]))
  }

  function QueuedOf(rows: Table, ids: seq<string>): (r: seq<string>)
    ensures forall id :: id in r <==> id in ids && id in rows && rows[id].status == Queued
  {
    if ids == [] then []
    else if ids[0] in rows && rows[ids[0]].status == Queued then [ids[0]] + QueuedOf(rows, ids[1..])
    else QueuedOf(rows, ids[1..])
  }

  // Queued tasks differ in priority or creation time.
  ghost predicate Unambiguous(rows: Table) {
    forall a, b | a in rows && b in rows && a != b && rows[a].status == Queued && rows[b].status == Queued ::
      rows[a].priority != rows[b].priority || rows[a].createdAt != rows[b].createdAt
  }

  function InPlay(rows: Table, project: string): set<string> {
    set id | id in rows && rows[id].project == project && (rows[id].status == Queued || Active(rows[id]))
  }

  // Between from and until no retry delay, no expired lease and no product limit gets in the way.
  ghost predicate Unthrottled(rows: Table, limit: int, from: int, until: int) {
    && (forall id | id in rows && rows[id].status == Queued :: RetryDue(rows[id], from))
    && (forall id | id in rows :: !Expired(rows[id], until))
    && (forall id | id in rows :: |InPlay(rows, rows[id].project)| <= limit)
  }

  // Successive claims by any workers at the given times, with nothing else in between.
  ghost predicate Drains(rows: Table, workers: seq<string>, times: seq<int>, got: seq<Option<string>>, limit: int)
    requires |workers| == |times| == |got|
    decreases |got|
  {
    got != [] ==>
      exists next: Table :: Claims(rows, next, workers[0], limit, times[0], got[0])
                            && Drains(next, workers[1..], times[1..], got[1..], limit)
  }

  lemma QueuedIsCandidate(rows: Table, id: string, limit: int, from: int, until: int, now: int)
    requires Unthrottled(rows, limit, from, until) && from <= now <= until && id in rows
    ensures Candidate(rows, id, limit, now) <==> rows[id].status == Queued
  {
    if rows[id].status == Queued {
      var live := LiveIds(rows, rows[id].project, now);
      var all := InPlay(rows, rows[id].project);
      assert live <= all - {id};
      assert all == (all - {id}) + {id};
      assert all - {id} == live + (all - {id} - live);
    }
  }

  // In the list the first queued task comes before every other queued task.
  lemma {:induction false} HeadIsFirst(rows: Table, ids: seq<string>)
    requires forall id | id in ids :: id in rows
    requires forall i, j :: 0 <= i < j < |ids| ==> !Before(rows[ids[j]], rows[ids[i]])
    requires QueuedOf(rows, ids) != []
    ensures forall id | id in QueuedOf(rows, ids) :: !Before(rows[id], rows[QueuedOf(rows, ids)[0]])
  {
    if rows[ids[0]].status == Queued {
      forall id | id in QueuedOf(rows, ids)
        ensures !Before(rows[id], rows[ids[0]])
      {
        var j :| 0 <= j < |ids| && ids[j] == id;
      }
    } else {
      HeadIsFirst(rows, ids[1..]);
    }
  }

  // A claim takes the head of the queue.
  lemma ClaimTakesHead(rows: Table, next: Table, ids: seq<string>, worker: string, limit: int, from: int, until: int, now: int,
                       got: Option<string>)
    requires Listing(rows, ids) && Unambiguous(rows) && Unthrottled(rows, limit, from, until) && from <= now <= until
    requires Claims(rows, next, worker, limit, now, got)
    ensures got == if QueuedOf(rows, ids) == [] then None else Some(QueuedOf(rows, ids)[0])
  {
    var queue := QueuedOf(rows, ids);
    if got.Some? {
      QueuedIsCandidate(rows, got.value, limit, from, until, now);
      HeadIsFirst(rows, ids);
      QueuedIsCandidate(rows, queue[0], limit, from, until, now);
    } else if queue != [] {
      QueuedIsCandidate(rows, queue[0], limit, from, until, now);
    }
  }

  lemma {:induction false} QueueTail(rows: Table, next: Table, ids: seq<string>, worker: string, now: int)
    requires forall i, j :: 0 <= i < j < |ids| ==> ids[i] != ids[j]
    requires QueuedOf(rows, ids) != [] && next == rows[QueuedOf(rows, ids)[0] := Assign(rows[QueuedOf(rows, ids)[0]], worker, now)]
    ensures QueuedOf(next, ids) == QueuedOf(rows, ids)[1..]
  {
    var head := QueuedOf(rows, ids)[0];
    if head == ids[0] {
      SameQueue(rows, next, ids[1..]);
    } else {
      QueueTail(rows, next, ids[1..], worker, now);
    }
  }

  lemma {:induction false} SameQueue(rows: Table, next: Table, ids: seq<string>)
    requires rows.Keys == next.Keys && forall id | id in ids && id in rows :: rows[id] == next[id]
    ensures QueuedOf(next, ids) == QueuedOf(rows, ids)
  {
    if ids != [] {
      SameQueue(rows, next, ids[1..]);
    }
  }

  lemma InPlayStays(rows: Table, next: Table, id: string, worker: string, now: int, project: string)
    requires id in rows && rows[id].status == Queued && next == rows[id := Assign(rows[id], worker, now)]
    ensures InPlay(next, project) == InPlay(rows, project)
  {
  }

  lemma StillUnthrottled(rows: Table, next: Table, id: string, worker: string, limit: int, from: int, until: int, now: int)
    requires Unthrottled(rows, limit, from, until) && id in rows && rows[id].status == Queued
    requires next == rows[id := Assign(rows[id], worker, now)] && until <= now + LEASE
    ensures Unthrottled(next, limit, from, until)
  {
    hide RetryDue;
    forall other | other in next
      ensures |InPlay(next, next[other].project)| <= limit
    {
      InPlayStays(rows, next, id, worker, now, next[other].project);
    }
  }

  lemma StillListing(rows: Table, next: Table, ids: seq<string>, id: string, worker: string, now: int)
    requires Listing(rows, ids) && id in rows && next == rows[id := Assign(rows[id], worker, now)]
    ensures Listing(next, ids)
    ensures Unambiguous(rows) ==> Unambiguous(next)
  {
  }

  // The k-th claim hands out the k-th queued task of the list, and nothing once the queue is
  // empty, as long as the whole drain fits into one lease.
  lemma {:induction false} DrainFollowsList(rows: Table, ids: seq<string>, workers: seq<string>, times: seq<int>,
                                            got: seq<Option<string>>, limit: int, from: int, until: int)
    requires |workers| == |times| == |got| && Drains(rows, workers, times, got, limit)
    requires Listing(rows, ids) && Unambiguous(rows) && Unthrottled(rows, limit, from, until)
    requires until <= from + LEASE && forall t | t in times :: from <= t <= until
    ensures forall k :: 0 <= k < |got| ==>
                          got[k] == if k < |QueuedOf(rows, ids)| then Some(QueuedOf(rows, ids)[k]) else None
    decreases |got|
  {
    hide Unambiguous, Unthrottled, FirstCandidate, Before, QueuedOf;
    if got != [] {
      var next: Table :| Claims(rows, next, workers[0], limit, times[0], got[0])
                         && Drains(next, workers[1..], times[1..], got[1..], limit);
      assert times[0] in times && forall t | t in times[1..] :: t in times;
      ClaimTakesHead(rows, next, ids, workers[0], limit, from, until, times[0], got[0]);
      var queue := QueuedOf(rows, ids);
      if queue != [] {
        StillUnthrottled(rows, next, queue[0], workers[0], limit, from, until, times[0]);
        StillListing(rows, next, ids, queue[0], workers[0], times[0]);
        QueueTail(rows, next, ids, workers[0], times[0]);
      }
      DrainFollowsList(next, ids, workers[1..], times[1..], got[1..], limit, from, until);
      forall k | 0 <= k < |got|
        ensures got[k] == if k < |queue| then Some(queue[k]) else None
      {
        if k > 0 {
          assert got[1..][k - 1] == got[k];
        }
      }
    }
  }

  // ---------- The order of the list, in the fields ----------

  // The list shows the tasks by falling priority, and within a priority by age.
  lemma ListIsByUrgency(rows: Table, ids: seq<string>, i: nat, j: nat)
    requires Listing(rows, ids) && i < j < |ids|
    ensures || rows[ids[i]].priority > rows[ids[j]].priority
            || (rows[ids[i]].priority == rows[ids[j]].priority && rows[ids[i]].createdAt <= rows[ids[j]].createdAt)
  {
  }

  lemma {:induction false} QueueFollowsList(rows: Table, ids: seq<string>, k: nat, l: nat)
    requires k < l < |QueuedOf(rows, ids)|
    ensures exists i, j :: 0 <= i < j < |ids| && ids[i] == QueuedOf(rows, ids)[k] && ids[j] == QueuedOf(rows, ids)[l]
  {
    var queue, rest := QueuedOf(rows, ids), QueuedOf(rows, ids[1..]);
    if queue == rest {
      QueueFollowsList(rows, ids[1..], k, l);
      var i, j :| 0 <= i < j < |ids[1..]| && ids[1..][i] == queue[k] && ids[1..][j] == queue[l];
      assert ids[i + 1] == queue[k] && ids[j + 1] == queue[l];
    } else if k == 0 {
      assert queue[l] == rest[l - 1] && rest[l - 1] in rest;
      var j :| 0 <= j < |ids[1..]| && ids[1..][j] == queue[l];
      assert ids[0] == queue[k] && ids[j + 1] == queue[l];
    } else {
      QueueFollowsList(rows, ids[1..], k - 1, l - 1);
      var i, j :| 0 <= i < j < |ids[1..]| && ids[1..][i] == queue[k] && ids[1..][j] == queue[l];
      assert ids[i + 1] == queue[k] && ids[j + 1] == queue[l];
    }
  }

  // Successive claims never hand out a task after one that is less urgent.
  lemma DrainIsByUrgency(rows: Table, ids: seq<string>, workers: seq<string>, times: seq<int>,
                         got: seq<Option<string>>, limit: int, from: int, until: int, k: nat, l: nat)
    requires |workers| == |times| == |got| && Drains(rows, workers, times, got, limit)
    requires Listing(rows, ids) && Unambiguous(rows) && Unthrottled(rows, limit, from, until)
    requires until <= from + LEASE && forall t | t in times :: from <= t <= until
    requires k < l < |got| && got[l].Some?
    ensures got[k].Some? && got[k].value in rows && got[l].value in rows
    ensures || rows[got[k].value].priority > rows[got[l].value].priority
            || (rows[got[k].value].priority == rows[got[l].value].priority
                && rows[got[k].value].createdAt <= rows[got[l].value].createdAt)
  {
    DrainFollowsList(rows, ids, workers, times, got, limit, from, until);
    QueueFollowsList(rows, ids, k, l);
    hide Unthrottled, Unambiguous, QueuedOf, Drains;
    var i, j :| 0 <= i < j < |ids| && ids[i] == got[k].value && ids[j] == got[l].value;
    ListIsByUrgency(rows, ids, i, j);
  }
}
