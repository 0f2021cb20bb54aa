// The fixed-window rate limiter (checkRateLimit in src/api-worker.ts).
module RateLimiter {
  import opened Wrappers

  datatype Record = Record(count: int, windowStart: int)

  type Records = map<string, Record>

  predicate StartsWindow(r: Option<Record>, windowMs: int, now: int) {
    r.None? || now - r.value.windowStart > windowMs
  }

  predicate Allows(r: Option<Record>, maxRequests: int, windowMs: int, now: int) {
    StartsWindow(r, windowMs, now) || r.value.count < maxRequests
  }

  function Next(r: Option<Record>, maxRequests: int, windowMs: int, now: int): Option<Record> {
    if StartsWindow(r, windowMs, now) then Some(Record(1, now))
    else if r.value.count < maxRequests then Some(r.value.(count := r.value.count + 1))
    else r
  }

  class RateLimit {
    var rateLimitMap: Records

    constructor ()
      ensures rateLimitMap == map[]
    {
      rateLimitMap := map[];
    }

    method CheckRateLimit(client: string, maxRequests: int, windowMs: int, now: int) returns (allowed: bool)
      modifies this
      ensures allowed == Allows(Get(old(rateLimitMap), client), maxRequests, windowMs, now)
      ensures rateLimitMap == RecordsNext(old(rateLimitMap), client, maxRequests, windowMs, now)
    {
      var record := Get(rateLimitMap, client);
      if record.None? || now - record.value.windowStart > windowMs {
        rateLimitMap := rateLimitMap[client := Record(1, now)];
        return true;
      }
      if record.value.count >= maxRequests {
        return false;
      }
      rateLimitMap := rateLimitMap[client := record.value.(count := record.value.count + 1)];
      allowed := true;
    }
  }

  function RecordsNext(records: Records, client: string, maxRequests: int, windowMs: int, now: int): Records {
    var next := Next(Get(records, client), maxRequests, windowMs, now);
    if next.Some? && Allows(Get(records, client), maxRequests, windowMs, now) then records[client := next.value] else records
  }

  // ---------- Runs ----------

  datatype Request = Request(client: string, now: int)

  // One limit and one window for the whole run.
  datatype Limit = Limit(maxRequests: int, windowMs: int) {
    // A window takes at least the request that opens it.
    function PerWindow(): int {
      if maxRequests < 1 then 1 else maxRequests
    }
  }

  function RecordsAfter(l: Limit, log: seq<Request>): Records {
    if log == [] then map[]
    else
      var last := log[|log| - 1];
      RecordsNext(RecordsAfter(l, log[..|log| - 1]), last.client, l.maxRequests, l.windowMs, last.now)
  }

  predicate Admits(l: Limit, log: seq<Request>, r: Request) {
    Allows(Get(RecordsAfter(l, log), r.client), l.maxRequests, l.windowMs, r.now)
  }

  // When the client's accepted requests came.
  function Accepted(l: Limit, log: seq<Request>, client: string): seq<int> {
    if log == [] then []
    else
      var front, last := log[..|log| - 1], log[|log| - 1];
      Accepted(l, front, client) + (if last.client == client && Admits(l, front, last) then [last.now] else [])
  }

  ghost predicate Monotone(log: seq<Request>) {
    forall i, j :: 0 <= i < j < |log| ==> log[i].now <= log[j].now
  }

  // ---------- The bound ----------

  ghost predicate Ascending(times: seq<int>, clock: int) {
    && (forall i, j :: 0 <= i < j < |times| ==> times[i] <= times[j])
    && (forall i | 0 <= i < |times| :: times[i] <= clock)
  }

  // No stretch of length windowMs holds more than 2 * PerWindow - 1 of the times.
  ghost predicate Bounded(l: Limit, times: seq<int>) {
    forall i, j | 0 <= i <= j < |times| :: times[j] - times[i] <= l.windowMs ==> j - i + 1 <= 2 * l.PerWindow() - 1
  }

  // The last times are those of the open window, and the ones before them of the window before,
  // which began more than windowMs earlier.
  ghost predicate Windows(l: Limit, times: seq<int>, r: Record, previous: int) {
    && 1 <= r.count <= l.PerWindow() && 0 <= previous <= l.PerWindow()
    && r.count + previous <= |times|
    && times[|times| - r.count] == r.windowStart
    && (previous == 0 ==> r.count == |times|)
    && (previous > 0 ==> times[|times| - r.count - previous] + l.windowMs < r.windowStart)
  }

  ghost predicate Explained(l: Limit, times: seq<int>, r: Option<Record>) {
    match r
    case None => times == []
    case Some(record) => exists previous: int :: Windows(l, times, record, previous)
  }

  lemma BoundedNext(l: Limit, times: seq<int>, r: Record, previous: int, now: int)
    requires Ascending(times, now) && Bounded(l, times) && Windows(l, times, r, previous)
    requires r.count < l.PerWindow() || now - r.windowStart > l.windowMs
    ensures Bounded(l, times + [now])
  {
  }

  lemma StepExplained(l: Limit, times: seq<int>, r: Option<Record>, now: int)
    requires Explained(l, times, r) && Ascending(times, now) && Bounded(l, times)
    requires Allows(r, l.maxRequests, l.windowMs, now)
    ensures Explained(l, times + [now], Next(r, l.maxRequests, l.windowMs, now))
    ensures Bounded(l, times + [now])
  {
    match r
    case None =>
      assert Windows(l, times + [now], Record(1, now), 0);
    case Some(record) =>
      var previous: int :| Windows(l, times, record, previous);
      BoundedNext(l, times, record, previous, now);
      if StartsWindow(r, l.windowMs, now) {
        assert Windows(l, times + [now], Record(1, now), record.count);
      } else {
        assert Windows(l, times + [now], record.(count := record.count + 1), previous);
      }
  }

  lemma {:induction false} RunExplained(l: Limit, log: seq<Request>, client: string)
    requires Monotone(log)
    ensures Explained(l, Accepted(l, log, client), Get(RecordsAfter(l, log), client))
    ensures Bounded(l, Accepted(l, log, client))
    ensures log != [] ==> Ascending(Accepted(l, log, client), log[|log| - 1].now)
    ensures log == [] ==> Accepted(l, log, client) == []
  {
    hide Bounded, Explained, Next, Allows;
    if log == [] {
      NothingYet(l);
    } else {
      var front, last := log[..|log| - 1], log[|log| - 1];
      RunExplained(l, front, client);
      var times := Accepted(l, front, client);
      assert Ascending(times, last.now);
      if last.client == client && Admits(l, front, last) {
        StepExplained(l, times, Get(RecordsAfter(l, front), client), last.now);
      } else {
        assert Accepted(l, log, client) == times;
      }
    }
  }

  lemma NothingYet(l: Limit)
    ensures Explained(l, [], None) && Bounded(l, [])
  {
  }

  // Any stretch of length windowMs holds at most 2 * PerWindow - 1 accepted requests of a client.
  lemma AtMostTwice(l: Limit, log: seq<Request>, client: string, i: nat, j: nat)
    requires Monotone(log) && i <= j < |Accepted(l, log, client)|
    requires Accepted(l, log, client)[j] - Accepted(l, log, client)[i] <= l.windowMs
    ensures j - i + 1 <= 2 * l.PerWindow() - 1
  {
    RunExplained(l, log, client);
  }

  // A request is refused only when PerWindow requests of its client were accepted within the
  // preceding windowMs.
  lemma RefusedWhenFull(l: Limit, log: seq<Request>, r: Request)
    requires Monotone(log + [r]) && !Admits(l, log, r)
    ensures var times := Accepted(l, log, r.client);
            |times| >= l.PerWindow()
            && forall k | |times| - l.PerWindow() <= k < |times| :: r.now - l.windowMs <= times[k] <= r.now
  {
    assert forall i | 0 <= i < |log| :: log[i] == (log + [r])[i];
    RunExplained(l, log, r.client);
    var times := Accepted(l, log, r.client);
    var record := RecordsAfter(l, log)[r.client];
    var previous: int :| Windows(l, times, record, previous);
    assert (log + [r])[|log|] == r;
    assert Ascending(times, r.now);
  }

  // ---------- Clients do not affect each other ----------

  function Only(log: seq<Request>, client: string): seq<Request> {
    if log == [] then []
    else
      var last := log[|log| - 1];
      Only(log[..|log| - 1], client) + (if last.client == client then [last] else [])
  }

  lemma {:induction false} ClientsAreIndependent(l: Limit, log: seq<Request>, client: string)
    ensures Get(RecordsAfter(l, log), client) == Get(RecordsAfter(l, Only(log, client)), client)
    ensures Accepted(l, log, client) == Accepted(l, Only(log, client), client)
  {
    if log != [] {
      var front, last := log[..|log| - 1], log[|log| - 1];
      ClientsAreIndependent(l, front, client);
      var mine := Only(front, client);
      if last.client == client {
        assert (mine + [last])[..|mine|] == mine;
      } else {
        assert Only(log, client) == mine + [] == mine;
        assert Accepted(l, log, client) == Accepted(l, front, client);
      }
    }
  }

  // ---------- The bound is reached ----------

  function Repeat<T>(x: T, n: nat): (r: seq<T>)
    ensures |r| == n && forall i | 0 <= i < n :: r[i] == x
  {
    if n == 0 then [] else Repeat(x, n - 1) + [x]
  }

  function Burst(client: string, now: int, n: nat): seq<Request> {
    Repeat(Request(client, now), n)
  }

  lemma {:induction false} BurstAccepted(l: Limit, log: seq<Request>, client: string, now: int, n: nat)
    requires l.windowMs >= 0
    requires n == 0 || Admits(l, log, Request(client, now))
    requires n > 0 ==> RoomFor(l, Get(RecordsAfter(l, log), client), now) >= n
    ensures Accepted(l, log + Burst(client, now, n), client) == Accepted(l, log, client) + Repeat(now, n)
    ensures n > 0 ==>
              Get(RecordsAfter(l, log + Burst(client, now, n)), client)
              == Some(if StartsWindow(Get(RecordsAfter(l, log), client), l.windowMs, now) then Record(n, now)
                      else var r := Get(RecordsAfter(l, log), client).value; r.(count := r.count + n))
    ensures n == 0 ==> log + Burst(client, now, n) == log
  {
    hide RecordsAfter, Accepted;
    if n == 0 {
      assert log + Burst(client, now, n) == log;
    } else {
      var shorter := log + Burst(client, now, n - 1);
      BurstAccepted(l, log, client, now, n - 1);
      assert n == 1 ==> shorter == log;
      OneMore(l, shorter, client, now);
      assert log + Burst(client, now, n) == shorter + [Request(client, now)];
      assert Accepted(l, log, client) + Repeat(now, n - 1) + [now] == Accepted(l, log, client) + Repeat(now, n);
    }
  }

  lemma OneMore(l: Limit, log: seq<Request>, client: string, now: int)
    requires Admits(l, log, Request(client, now))
    ensures Accepted(l, log + [Request(client, now)], client) == Accepted(l, log, client) + [now]
    ensures Get(RecordsAfter(l, log + [Request(client, now)]), client)
         == Next(Get(RecordsAfter(l, log), client), l.maxRequests, l.windowMs, now)
  {
    assert (log + [Request(client, now)])[..|log|] == log;
  }

  // How many more requests the limiter takes at this moment.
  function RoomFor(l: Limit, r: Option<Record>, now: int): int {
    if StartsWindow(r, l.windowMs, now) then l.PerWindow() else l.maxRequests - r.value.count
  }

  // One request opens a window, the rest of the limit comes at its very end, and the whole limit
  // again a moment later: 2 * PerWindow - 1 requests within one millisecond.
  lemma BoundIsReached(client: string, l: Limit)
    requires l.maxRequests >= 1 && l.windowMs >= 1
    ensures var m, w := l.maxRequests, l.windowMs;
            var log := Burst(client, 0, 1) + Burst(client, w, m - 1) + Burst(client, w + 1, m);
            Monotone(log) && Accepted(l, log, client) == [0] + Repeat(w, m - 1) + Repeat(w + 1, m)
  {
    hide RecordsAfter, Accepted, Burst, Monotone, Repeat;
    var m, w := l.maxRequests, l.windowMs;
    var a := Burst(client, 0, 1);
    var b := a + Burst(client, w, m - 1);
    FirstRequest(l, client);
    BurstAccepted(l, a, client, w, m - 1);
    BurstAccepted(l, b, client, w + 1, m);
    BurstsMonotone(client, w, m);
  }

  lemma FirstRequest(l: Limit, client: string)
    requires l.windowMs >= 0
    ensures Accepted(l, Burst(client, 0, 1), client) == [0]
    ensures Get(RecordsAfter(l, Burst(client, 0, 1)), client) == Some(Record(1, 0))
  {
  }

  lemma BurstsMonotone(client: string, w: int, m: int)
    requires w >= 1 && m >= 1
    ensures Monotone(Burst(client, 0, 1) + Burst(client, w, m - 1) + Burst(client, w + 1, m))
  {
  }
}
