// Supersession links form a forest, whatever sequence of create and supersede made them.
module SupersessionLinks {
  import opened Wrappers
  import opened MemoryStore

  // A superseded memory points to its replacement, which need not exist.
  function Link(m: Memory): Option<string> {
    if m.status == Superseded then m.supersededBy else None
  }

  function Next(ms: seq<Memory>, id: string): Option<string> {
    if Lookup(ms, id).Some? then Link(Lookup(ms, id).value) else None
  }

  // Where a walk of n links from id arrives; None once the chain has ended.
  function Follow(ms: seq<Memory>, id: string, n: nat): Option<string>
    decreases n
  {
    if n == 0 then Some(id)
    else if Next(ms, id).None? then None
    else Follow(ms, Next(ms, id).value, n - 1)
  }

  // Generated ids are new: no memory has the id and none points to it.
  ghost predicate Fresh(ms: seq<Memory>, op: Operation) {
    op.Create? ==>
      && op.input.supersededBy != Some(op.id)
      && forall m | m in ms :: m.id != op.id && Link(m) != Some(op.id)
  }

  ghost predicate FreshRun(ops: seq<Operation>) {
    ops == [] || (FreshRun(ops[..|ops| - 1]) && Fresh(AfterAll(ops[..|ops| - 1]), ops[|ops| - 1]))
  }

  // The linked memories in an order in which every link leads forward.
  ghost predicate Ordered(ms: seq<Memory>, log: seq<string>) {
    && (forall i, j :: 0 <= i < j < |log| ==> log[i] != log[j])
    && (forall x :: x in log <==> Next(ms, x).Some?)
    && (forall i, j | 0 <= i < |log| && 0 <= j < |log| :: Next(ms, log[i]) == Some(log[j]) ==> i < j)
  }

  lemma {:induction false} IndexIs(ms: seq<Memory>, id: string, k: nat)
    requires k <= |ms| && (k < |ms| ==> ms[k].id == id)
    requires forall j | 0 <= j < k :: ms[j].id != id
    ensures IndexOf(ms, id) == k
  {
  }

  lemma UpdateNext(ms: seq<Memory>, i: nat, m: Memory, x: string)
    requires i < |ms| && m.id == ms[i].id && i == IndexOf(ms, m.id)
    ensures Lookup(ms[i := m], x) == if x == m.id then Some(m) else Lookup(ms, x)
  {
    IndexIs(ms[i := m], x, IndexOf(ms, x));
  }

  lemma AppendNext(ms: seq<Memory>, m: Memory, x: string)
    requires Lookup(ms, m.id).None?
    ensures Lookup(ms + [m], x) == if x == m.id then Some(m) else Lookup(ms, x)
  {
    var i := IndexOf(ms, x);
    IndexIs(ms + [m], x, if i < |ms| || x == m.id then i else i + 1);
  }

  ghost predicate DistinctIds(ms: seq<Memory>) {
    forall i, j :: 0 <= i < j < |ms| ==> ms[i].id != ms[j].id
  }

  lemma OwnIndex(ms: seq<Memory>, i: nat)
    requires DistinctIds(ms) && i < |ms|
    ensures IndexOf(ms, ms[i].id) == i
  {
  }

  // A memory added with a link comes first in the order.
  lemma AddFirst(ms: seq<Memory>, m: Memory, log: seq<string>)
    requires Ordered(ms, log) && Lookup(ms, m.id).None? && Link(m) != Some(m.id)
    requires forall k | k in ms :: Link(k) != Some(m.id)
    ensures Ordered(ms + [m], if Link(m).Some? then [m.id] + log else log)
  {
    forall x
      ensures Next(ms + [m], x) == if x == m.id then Link(m) else Next(ms, x)
    {
      AppendNext(ms, m, x);
    }
    forall x
      ensures Next(ms, x) != Some(m.id)
    {
    }
    var next := if Link(m).Some? then [m.id] + log else log;
    assert m.id !in log;
    forall i, j | 0 <= i < |next| && 0 <= j < |next| && Next(ms + [m], next[i]) == Some(next[j])
      ensures i < j
    {
      if Link(m).Some? && i > 0 && j > 0 {
        assert next[i] == log[i - 1] && next[j] == log[j - 1];
      }
    }
  }

  // A memory superseded now comes last.
  lemma AddLast(ms: seq<Memory>, i: nat, newId: string, log: seq<string>)
    requires Ordered(ms, log) && i < |ms| && i == IndexOf(ms, ms[i].id) && ms[i].status == Active
    requires newId != ms[i].id && Next(ms, newId).None?
    ensures Ordered(ms[i := ms[i].(status := Superseded, supersededBy := Some(newId))], log + [ms[i].id])
  {
    hide IndexOf;
    var m := ms[i].(status := Superseded, supersededBy := Some(newId));
    forall x
      ensures Next(ms[i := m], x) == if x == m.id then Some(newId) else Next(ms, x)
    {
      UpdateNext(ms, i, m, x);
    }
    assert Next(ms, m.id) == None;
    hide Next, Lookup, Link;
    var longer := log + [m.id];
    assert newId !in longer && m.id !in log;
    forall x
      ensures x in longer <==> Next(ms[i := m], x).Some?
    {
      assert x in longer <==> x in log || x == m.id;
    }
    forall a, b | 0 <= a < |longer| && 0 <= b < |longer| && Next(ms[i := m], longer[a]) == Some(longer[b])
      ensures a < b
    {
      assert longer[b] in longer;
      if a < |log| && b < |log| {
        assert Next(ms, log[a]) == Some(log[b]);
      }
    }
  }

  lemma SameLinks(ms: seq<Memory>, i: nat, m: Memory, log: seq<string>)
    requires Ordered(ms, log) && i < |ms| && i == IndexOf(ms, ms[i].id)
    requires m.id == ms[i].id && Link(m) == Link(ms[i])
    ensures Ordered(ms[i := m], log)
  {
    forall x
      ensures Next(ms[i := m], x) == Next(ms, x)
    {
      UpdateNext(ms, i, m, x);
    }
  }

  lemma StepOrdered(ms: seq<Memory>, op: Operation, log: seq<string>) returns (next: seq<string>)
    requires DistinctIds(ms) && Ordered(ms, log) && Fresh(ms, op)
    ensures DistinctIds(After(ms, op)) && Ordered(After(ms, op), next)
  {
    hide Ordered;
    next := log;
    match op
    case Create(input, id) =>
      if CheckInput(input).None? {
        var i := FirstWithKey(ms, InputKey(input));
        if i < |ms| {
          OwnIndex(ms, i);
          SameLinks(ms, i, Recur(ms[i]), log);
        } else {
          var m := NewMemory(input, id);
          AddFirst(ms, m, log);
          next := if Link(m).Some? then [m.id] + log else log;
        }
      }
    case Supersede(oldId, newId, tenantId) =>
      if CanSupersede(ms, oldId, newId, tenantId) {
        AddLast(ms, IndexOf(ms, oldId), newId, log);
        next := log + [oldId];
      }
  }

  lemma {:induction false} RunOrdered(ops: seq<Operation>) returns (log: seq<string>)
    requires FreshRun(ops)
    ensures DistinctIds(AfterAll(ops)) && Ordered(AfterAll(ops), log)
  {
    log := [];
    if ops != [] {
      var before := RunOrdered(ops[..|ops| - 1]);
      log := StepOrdered(AfterAll(ops[..|ops| - 1]), ops[|ops| - 1], before);
    }
  }

  // A walk leads forward in the order by at least its own length.
  lemma {:induction false} WalkAdvances(ms: seq<Memory>, log: seq<string>, i: nat, n: nat)
    requires Ordered(ms, log) && i < |log| && Follow(ms, log[i], n).Some?
    ensures var x := Follow(ms, log[i], n).value;
            x !in log || exists j: nat :: i + n <= j < |log| && log[j] == x
    decreases n
  {
    if n > 0 {
      var next := Next(ms, log[i]).value;
      if next in log {
        var k :| 0 <= k < |log| && log[k] == next;
        WalkAdvances(ms, log, k, n - 1);
      }
    } else {
      assert log[i] == log[i];
    }
  }

  lemma {:induction false} WalkEnds(ms: seq<Memory>, log: seq<string>, id: string, n: nat)
    requires Ordered(ms, log) && n > |log|
    ensures Follow(ms, id, n).None?
  {
    if Follow(ms, id, n).Some? {
      FollowSplit(ms, id, n - 1, 1);
      var last := Follow(ms, id, n - 1).value;
      assert Next(ms, id).Some? && Next(ms, last).Some?;
      assert id in log && last in log;
      var i :| 0 <= i < |log| && log[i] == id;
      WalkAdvances(ms, log, i, n - 1);
    }
  }

  lemma {:induction false} FollowSplit(ms: seq<Memory>, id: string, m: nat, n: nat)
    ensures Follow(ms, id, m + n) == if Follow(ms, id, m).Some? then Follow(ms, Follow(ms, id, m).value, n) else None
    decreases m
  {
    if m > 0 && Next(ms, id).Some? {
      FollowSplit(ms, Next(ms, id).value, m - 1, n);
    }
  }

  lemma LogFits(ms: seq<Memory>, log: seq<string>)
    requires Ordered(ms, log)
    ensures |log| <= |ms|
  {
    var ids := set i | 0 <= i < |ms| :: ms[i].id;
    IdCount(ms, |ms|);
    var linked := set i | 0 <= i < |log| :: log[i];
    LogCount(log, |log|);
    forall x | x in linked
      ensures x in ids
    {
      assert Next(ms, x).Some?;
    }
    assert ids == linked + (ids - linked);
  }

  lemma {:induction false} IdCount(ms: seq<Memory>, n: nat)
    requires n <= |ms|
    ensures |set i | 0 <= i < n :: ms[i].id| <= n
  {
    if n > 0 {
      IdCount(ms, n - 1);
      assert (set i | 0 <= i < n :: ms[i].id) == (set i | 0 <= i < n - 1 :: ms[i].id) + {ms[n - 1].id};
    }
  }

  lemma {:induction false} LogCount(log: seq<string>, n: nat)
    requires n <= |log| && forall i, j :: 0 <= i < j < |log| ==> log[i] != log[j]
    ensures |set i | 0 <= i < n :: log[i]| == n
  {
    if n > 0 {
      LogCount(log, n - 1);
      assert (set i | 0 <= i < n :: log[i]) == (set i | 0 <= i < n - 1 :: log[i]) + {log[n - 1]};
    }
  }

  // In every store that create and supersede can make, each chain of replacements ends after at
  // most as many links as there are memories, and none comes back to where it began.
  lemma ChainsEnd(ops: seq<Operation>, id: string, n: nat)
    requires FreshRun(ops)
    ensures n > |AfterAll(ops)| ==> Follow(AfterAll(ops), id, n).None?
    ensures n > 0 ==> Follow(AfterAll(ops), id, n) != Some(id)
  {
    var ms := AfterAll(ops);
    var log := RunOrdered(ops);
    LogFits(ms, log);
    if n > |ms| {
      WalkEnds(ms, log, id, n);
    }
    if n > 0 && Follow(ms, id, n) == Some(id) {
      assert Next(ms, id).Some?;
      var i :| 0 <= i < |log| && log[i] == id;
      WalkAdvances(ms, log, i, n);
    }
  }

  // A memory that is not active is left alone: later creates count on it without reviving it, and
  // its replacement stays.
  lemma InactiveStays(ms: seq<Memory>, op: Operation, i: nat)
    requires DistinctIds(ms) && i < |ms| && ms[i].status != Active
    ensures i < |After(ms, op)|
    ensures var m := After(ms, op)[i]; m.id == ms[i].id && m.status == ms[i].status && m.supersededBy == ms[i].supersededBy
  {
  }

  // ---------- The metadata field alone ----------

  // What the metadata names as the replacement, whatever the status of the memory.
  function Named(ms: seq<Memory>, id: string): Option<string> {
    if Lookup(ms, id).Some? then Lookup(ms, id).value.supersededBy else None
  }

  function Trace(ms: seq<Memory>, id: string, n: nat): Option<string>
    decreases n
  {
    if n == 0 then Some(id) else if Named(ms, id).None? then None else Trace(ms, Named(ms, id).value, n - 1)
  }

  ghost predicate Reaches(ms: seq<Memory>, x: string, y: string) {
    exists n: nat :: Trace(ms, x, n) == Some(y)
  }

  ghost predicate Loops(ms: seq<Memory>) {
    exists x, n: nat :: n > 0 && Trace(ms, x, n) == Some(x)
  }

  // The first n stops of the walk from x are not s.
  ghost predicate Avoids(ms: seq<Memory>, x: string, s: string, n: nat) {
    forall k: nat | k < n :: Trace(ms, x, k) != Some(s)
  }

  // Only the name that s carries may differ.
  ghost predicate AgreeExceptAt(ms: seq<Memory>, next: seq<Memory>, s: string) {
    forall x | x != s :: Named(ms, x) == Named(next, x)
  }

  lemma {:induction false} TraceSplit(ms: seq<Memory>, id: string, m: nat, n: nat)
    ensures Trace(ms, id, m + n) == if Trace(ms, id, m).Some? then Trace(ms, Trace(ms, id, m).value, n) else None
    decreases m
  {
    if m > 0 && Named(ms, id).Some? {
      TraceSplit(ms, Named(ms, id).value, m - 1, n);
    }
  }

  lemma {:induction false} FirstVisit(ms: seq<Memory>, x: string, s: string, n: nat) returns (m: nat)
    requires Trace(ms, x, n) == Some(s)
    ensures m <= n && Trace(ms, x, m) == Some(s) && Avoids(ms, x, s, m)
    decreases n
  {
    if x == s {
      m := 0;
    } else {
      var rest := FirstVisit(ms, Named(ms, x).value, s, n - 1);
      m := rest + 1;
      forall k: nat | k < m
        ensures Trace(ms, x, k) != Some(s)
      {
        if k > 0 {
          assert Trace(ms, x, k) == Trace(ms, Named(ms, x).value, k - 1);
        }
      }
    }
  }

  lemma {:induction false} SameTrace(ms: seq<Memory>, next: seq<Memory>, x: string, s: string, n: nat)
    requires AgreeExceptAt(ms, next, s) && Avoids(ms, x, s, n)
    ensures Trace(next, x, n) == Trace(ms, x, n)
    decreases n
  {
    if n > 0 {
      assert Trace(ms, x, 0) != Some(s);
      if Named(ms, x).Some? {
        var y := Named(ms, x).value;
        forall k: nat | k < n - 1
          ensures Trace(ms, y, k) != Some(s)
        {
          assert Trace(ms, x, k + 1) == Trace(ms, y, k);
        }
        SameTrace(ms, next, y, s, n - 1);
      }
    }
  }

  // A loop through s comes back to s from whatever s names.
  lemma LoopComesBack(ms: seq<Memory>, x: string, n: nat, s: string, k: nat)
    requires n > 0 && Trace(ms, x, n) == Some(x) && k < n && Trace(ms, x, k) == Some(s)
    ensures Named(ms, s).Some? && Trace(ms, Named(ms, s).value, n - 1) == Some(s)
  {
    TraceSplit(ms, x, k, n - k);
    TraceSplit(ms, s, n - k, k);
  }

  // Pointing s to t closes a loop exactly when the names lead from t to s already.
  lemma NamingCloses(ms: seq<Memory>, next: seq<Memory>, s: string, t: string)
    requires AgreeExceptAt(ms, next, s) && Named(next, s) == Some(t) && !Loops(ms)
    ensures Loops(next) <==> Reaches(ms, t, s)
  {
    if Reaches(ms, t, s) {
      var n: nat :| Trace(ms, t, n) == Some(s);
      var m := FirstVisit(ms, t, s, n);
      SameTrace(ms, next, t, s, m);
      assert Trace(next, s, m + 1) == Some(s);
    }
    if Loops(next) {
      var x, n: nat :| n > 0 && Trace(next, x, n) == Some(x);
      if Avoids(next, x, s, n) {
        SameTrace(next, ms, x, s, n);
        assert false;
      } else {
        var k: nat :| k < n && Trace(next, x, k) == Some(s);
        LoopComesBack(next, x, n, s, k);
        var m := FirstVisit(next, t, s, n - 1);
        SameTrace(next, ms, t, s, m);
        assert Trace(ms, t, m) == Some(s);
      }
    }
  }

  lemma {:induction false} TraceOnlyNames(ms: seq<Memory>, next: seq<Memory>, x: string, n: nat)
    requires forall y :: Named(ms, y) == Named(next, y)
    ensures Trace(ms, x, n) == Trace(next, x, n)
    decreases n
  {
    if n > 0 && Named(ms, x).Some? {
      TraceOnlyNames(ms, next, Named(ms, x).value, n - 1);
    }
  }

  lemma SameNames(ms: seq<Memory>, next: seq<Memory>)
    requires !Loops(ms) && forall y :: Named(ms, y) == Named(next, y)
    ensures !Loops(next)
  {
    if Loops(next) {
      var x, n: nat :| n > 0 && Trace(next, x, n) == Some(x);
      TraceOnlyNames(ms, next, x, n);
    }
  }

  predicate Adds(ms: seq<Memory>, op: Operation) {
    op.Create? && CheckInput(op.input).None? && FirstWithKey(ms, InputKey(op.input)) == |ms|
  }

  // What can be checked before a call: the replacement leads back by name to what it replaces.
  ghost predicate Closes(ms: seq<Memory>, op: Operation) {
    match op
    case Create(input, id) => Adds(ms, op) && input.supersededBy.Some? && Reaches(ms, input.supersededBy.value, id)
    case Supersede(oldId, newId, tenantId) => CanSupersede(ms, oldId, newId, tenantId) && Reaches(ms, newId, oldId)
  }

  ghost predicate NewId(ms: seq<Memory>, op: Operation) {
    op.Create? ==> forall m | m in ms :: m.id != op.id
  }

  lemma RecurKeepsNames(ms: seq<Memory>, i: nat)
    requires DistinctIds(ms) && i < |ms|
    ensures forall x :: Named(ms[i := Recur(ms[i])], x) == Named(ms, x)
  {
    OwnIndex(ms, i);
    forall x
      ensures Named(ms[i := Recur(ms[i])], x) == Named(ms, x)
    {
      UpdateNext(ms, i, Recur(ms[i]), x);
    }
  }

  lemma AddNames(ms: seq<Memory>, m: Memory)
    requires Lookup(ms, m.id).None?
    ensures AgreeExceptAt(ms, ms + [m], m.id) && Named(ms + [m], m.id) == m.supersededBy
    ensures Named(ms, m.id).None?
  {
    forall x
      ensures Named(ms + [m], x) == if x == m.id then m.supersededBy else Named(ms, x)
    {
      AppendNext(ms, m, x);
    }
  }

  lemma SupersedeNames(ms: seq<Memory>, oldId: string, newId: string, tenantId: string)
    requires CanSupersede(ms, oldId, newId, tenantId)
    ensures var next := AfterSupersede(ms, oldId, newId, tenantId);
            AgreeExceptAt(ms, next, oldId) && Named(next, oldId) == Some(newId)
  {
    var i := IndexOf(ms, oldId);
    var m := ms[i].(status := Superseded, supersededBy := Some(newId));
    forall x
      ensures Named(ms[i := m], x) == if x == oldId then Some(newId) else Named(ms, x)
    {
      UpdateNext(ms, i, m, x);
    }
    assert AfterSupersede(ms, oldId, newId, tenantId) == ms[i := m];
    UpdateNext(ms, i, m, oldId);
  }

  // One operation on a store whose names form no loop makes one exactly when it closes it.
  lemma StepCloses(ms: seq<Memory>, op: Operation)
    requires DistinctIds(ms) && NewId(ms, op) && !Loops(ms)
    ensures DistinctIds(After(ms, op))
    ensures Loops(After(ms, op)) <==> Closes(ms, op)
  {
    hide Loops, Reaches, Named, AgreeExceptAt;
    match op
    case Create(input, id) =>
      if CheckInput(input).None? {
        var i := FirstWithKey(ms, InputKey(input));
        if i < |ms| {
          RecurKeepsNames(ms, i);
          SameNames(ms, ms[i := Recur(ms[i])]);
        } else {
          CreateCloses(ms, NewMemory(input, id));
        }
      }
    case Supersede(oldId, newId, tenantId) =>
      if CanSupersede(ms, oldId, newId, tenantId) {
        SupersedeNames(ms, oldId, newId, tenantId);
        NamingCloses(ms, AfterSupersede(ms, oldId, newId, tenantId), oldId, newId);
      }
  }

  // A replacement that names nothing itself never closes one.
  lemma UnnamedNeverCloses(ms: seq<Memory>, oldId: string, newId: string, tenantId: string)
    requires Named(ms, newId).None?
    ensures !Closes(ms, Supersede(oldId, newId, tenantId))
  {
    forall n: nat
      ensures Trace(ms, newId, n) == if n == 0 then Some(newId) else None
    {
    }
  }

  lemma CreateCloses(ms: seq<Memory>, m: Memory)
    requires Lookup(ms, m.id).None? && !Loops(ms)
    ensures Loops(ms + [m]) <==> m.supersededBy.Some? && Reaches(ms, m.supersededBy.value, m.id)
  {
    hide Loops, Reaches;
    AddNames(ms, m);
    if m.supersededBy.Some? {
      NamingCloses(ms, ms + [m], m.id, m.supersededBy.value);
    } else {
      SameNames(ms, ms + [m]);
    }
  }

  ghost predicate NewIds(ops: seq<Operation>) {
    forall k | 0 <= k < |ops| :: NewId(AfterAll(ops[..k]), ops[k])
  }

  ghost predicate NeverLoops(ops: seq<Operation>) {
    forall k | 0 <= k <= |ops| :: !Loops(AfterAll(ops[..k]))
  }

  ghost predicate NeverCloses(ops: seq<Operation>) {
    forall k | 0 <= k < |ops| :: !Closes(AfterAll(ops[..k]), ops[k])
  }

  lemma AfterNext(ops: seq<Operation>, k: nat)
    requires k < |ops|
    ensures AfterAll(ops[..k + 1]) == After(AfterAll(ops[..k]), ops[k])
  {
    assert ops[..k + 1][..k] == ops[..k];
  }

  lemma StepDistinct(ms: seq<Memory>, op: Operation)
    requires DistinctIds(ms) && NewId(ms, op)
    ensures DistinctIds(After(ms, op))
  {
  }

  lemma {:induction false} RunDistinct(ops: seq<Operation>, k: nat)
    requires NewIds(ops) && k <= |ops|
    ensures DistinctIds(AfterAll(ops[..k]))
  {
    hide After, DistinctIds;
    if k > 0 {
      RunDistinct(ops, k - 1);
      AfterNext(ops, k - 1);
      StepDistinct(AfterAll(ops[..k - 1]), ops[k - 1]);
    } else {
      NothingStored();
    }
  }

  lemma {:induction false} NoneCloses(ops: seq<Operation>, k: nat)
    requires NewIds(ops) && NeverCloses(ops) && k <= |ops|
    ensures !Loops(AfterAll(ops[..k]))
  {
    hide After, Closes, DistinctIds;
    if k > 0 {
      NoneCloses(ops, k - 1);
      RunDistinct(ops, k - 1);
      AfterNext(ops, k - 1);
      StepCloses(AfterAll(ops[..k - 1]), ops[k - 1]);
    } else {
      NothingStored();
    }
  }

  lemma NothingStored()
    ensures DistinctIds([]) && !Loops([])
  {
  }

  // A run is free of loops in the metadata throughout exactly when no operation of it closes one.
  lemma LoopsExactlyWhen(ops: seq<Operation>)
    requires NewIds(ops)
    ensures NeverLoops(ops) <==> NeverCloses(ops)
  {
    hide After, Closes, DistinctIds, Loops;
    if NeverCloses(ops) {
      forall k | 0 <= k <= |ops|
        ensures !Loops(AfterAll(ops[..k]))
      {
        NoneCloses(ops, k);
      }
    }
    if NeverLoops(ops) {
      forall k | 0 <= k < |ops|
        ensures !Closes(AfterAll(ops[..k]), ops[k])
      {
        RunDistinct(ops, k);
        AfterNext(ops, k);
        StepCloses(AfterAll(ops[..k]), ops[k]);
      }
    }
  }

  // The metadata field alone is no such link: a caller may create an active memory that already
  // names its replacement, and then let it replace that one.
  lemma MetadataCanLoop(a: Memory, b: Memory)
    requires a.id != b.id && a.status == b.status == Active && a.supersededBy == Some(b.id)
    requires a.tenantId == b.tenantId && a.projectId == b.projectId
    ensures var ms := AfterSupersede([a, b], b.id, a.id, b.tenantId);
            && Lookup(ms, a.id).Some? && Lookup(ms, a.id).value.supersededBy == Some(b.id)
            && Lookup(ms, b.id).Some? && Lookup(ms, b.id).value.supersededBy == Some(a.id)
            && Next(ms, a.id) == None
  {
    assert IndexOf([a, b], b.id) == 1 && IndexOf([a, b], a.id) == 0;
    UpdateNext([a, b], 1, b.(status := Superseded, supersededBy := Some(a.id)), a.id);
    UpdateNext([a, b], 1, b.(status := Superseded, supersededBy := Some(a.id)), b.id);
  }
}
