// Organizational memory: deduplication and supersession (src/office/memory.ts,
// src/office/memory-governance.ts), over the in-memory map in its insertion order.
module MemoryStore {
  import opened Wrappers
  import StepPlanning

  datatype MemoryType = Decision | ReviewFinding | TaskResult | Lesson | ProjectContext | AgentContext | Plan

  datatype MemoryStatus = Active | Superseded | Blocked

  datatype MemoryScope = GlobalScope | ProjectScope | AgentScope | TaskScope

  // A missing field reads as "".
  datatype Provenance = Provenance(
    projectId: string, actorId: string, source: string, verifiedAt: string,
    eventId: string, taskId: string, ruleId: string)

  // supersededBy is the field of that name in the metadata, which callers of create supply.
  datatype Memory = Memory(
    id: string, tenantId: string, projectId: string, kind: MemoryType, title: string, status: MemoryStatus,
    scope: MemoryScope, recurrenceCount: int, supersededBy: Option<string>, provenance: Provenance)

  datatype CreateMemoryInput = CreateMemoryInput(
    tenantId: Option<string>, projectId: Option<string>, kind: MemoryType, title: string, status: Option<MemoryStatus>,
    scope: Option<MemoryScope>, supersededBy: Option<string>, provenance: Option<Provenance>)

  datatype CreateError = InvalidTenant | InvalidProject | InvalidProvenance

  datatype SupersessionError = TenantMismatch | SelfSuperseding | ProjectMismatch | ReplacementNotActive | TargetNotActive

  // ---------- Deduplication ----------

  function TypeName(kind: MemoryType): string {
    match kind
    case Decision => "DECISION"
    case ReviewFinding => "REVIEW_FINDING"
    case TaskResult => "TASK_RESULT"
    case Lesson => "LESSON"
    case ProjectContext => "PROJECT_CONTEXT"
    case AgentContext => "AGENT_CONTEXT"
    case Plan => "PLAN"
  }

  function Identity(p: Provenance, title: string): string {
    if p.eventId != "" then p.eventId else if p.taskId != "" then p.taskId else if p.ruleId != "" then p.ruleId else title
  }

  function Key(tenantId: string, projectId: string, kind: MemoryType, identity: string): string {
    tenantId + ":" + projectId + ":" + TypeName(kind) + ":" + identity
  }

  function KeyOf(m: Memory): string {
    Key(m.tenantId, m.projectId, m.kind, Identity(m.provenance, m.title))
  }

  // The position of the first memory with the key, or the number of memories.
  function FirstWithKey(ms: seq<Memory>, key: string): (i: nat)
    ensures i <= |ms|
    ensures i < |ms| ==> KeyOf(ms[i]) == key
    ensures forall j | 0 <= j < i :: KeyOf(ms[j]) != key
  {
    hide KeyOf;
    if ms == [] || KeyOf(ms[0]) == key then 0
    else
      assert forall j | 0 < j < |ms| :: ms[j] == ms[1..][j - 1];
      1 + FirstWithKey(ms[1..], key)
  }

  function IndexOf(ms: seq<Memory>, id: string): (i: nat)
    ensures i <= |ms|
    ensures i < |ms| ==> ms[i].id == id
    ensures forall j | 0 <= j < i :: ms[j].id != id
  {
    if ms == [] then 0 else if ms[0].id == id then 0 else 1 + IndexOf(ms[1..], id)
  }

  // ---------- What the operations do ----------

  function Tenant(input: CreateMemoryInput): string {
    if input.tenantId.Some? then StepPlanning.Trim(input.tenantId.value) else "pub-dev-loop"
  }

  function Project(input: CreateMemoryInput): string {
    if input.projectId.Some? then StepPlanning.Trim(input.projectId.value) else ""
  }

  predicate Complete(p: Option<Provenance>) {
    p.Some? && p.value.projectId != "" && p.value.actorId != "" && p.value.source != "" && p.value.verifiedAt != ""
  }

  function CheckInput(input: CreateMemoryInput): Option<CreateError> {
    if Tenant(input) == "" then Some(InvalidTenant)
    else if Project(input) == "" then Some(InvalidProject)
    else if !Complete(input.provenance) then Some(InvalidProvenance)
    else None
  }

  function InputKey(input: CreateMemoryInput): string
    requires input.provenance.Some?
  {
    Key(Tenant(input), Project(input), input.kind, Identity(input.provenance.value, input.title))
  }

  function NewMemory(input: CreateMemoryInput, id: string): Memory
    requires input.provenance.Some?
  {
    Memory(id, Tenant(input), Project(input), input.kind, input.title, input.status.GetOr(Active),
           input.scope.GetOr(ProjectScope), 1, input.supersededBy, input.provenance.value)
  }

  function Recur(m: Memory): Memory {
    m.(recurrenceCount := m.recurrenceCount + 1)
  }

  function AfterCreate(ms: seq<Memory>, input: CreateMemoryInput, id: string): seq<Memory> {
    if CheckInput(input).Some? then ms
    else
      var i := FirstWithKey(ms, InputKey(input));
      if i < |ms| then ms[i := Recur(ms[i])] else ms + [NewMemory(input, id)]
  }

  function ValidateSupersession(target: Memory, replacement: Option<Memory>, newId: string, tenantId: string)
    : Option<SupersessionError>
  {
    if target.tenantId != tenantId then Some(TenantMismatch)
    else if target.id == newId then Some(SelfSuperseding)
    else if replacement.Some? && replacement.value.tenantId != tenantId then Some(TenantMismatch)
    else if replacement.Some? && target.scope == ProjectScope && replacement.value.scope == ProjectScope
            && target.projectId != replacement.value.projectId then Some(ProjectMismatch)
    else if replacement.Some? && replacement.value.status != Active then Some(ReplacementNotActive)
    else if target.status != Active then Some(TargetNotActive)
    else None
  }

  function Lookup(ms: seq<Memory>, id: string): Option<Memory> {
    if IndexOf(ms, id) < |ms| then Some(ms[IndexOf(ms, id)]) else None
  }

  predicate CanSupersede(ms: seq<Memory>, oldId: string, newId: string, tenantId: string) {
    && Lookup(ms, oldId).Some?
    && ValidateSupersession(Lookup(ms, oldId).value, Lookup(ms, newId), newId, tenantId) == None
  }

  function AfterSupersede(ms: seq<Memory>, oldId: string, newId: string, tenantId: string): seq<Memory> {
    if CanSupersede(ms, oldId, newId, tenantId) then
      var i := IndexOf(ms, oldId);
      ms[i := ms[i].(status := Superseded, supersededBy := Some(newId))]
    else ms
  }

  class OrganizationalMemoryStore {
    var memories: seq<Memory>

    constructor ()
      ensures memories == []
    {
      memories := [];
    }

    // id is the generated id, used only when a memory is added.
    method Create(input: CreateMemoryInput, id: string) returns (r: Result<Memory, CreateError>)
      modifies this
      ensures memories == AfterCreate(old(memories), input, id)
      ensures r.Failure? <==> CheckInput(input).Some?
      ensures r.Failure? ==> Some(r.error) == CheckInput(input)
      ensures r.Success? ==> r.value in memories && KeyOf(r.value) == InputKey(input)
    {
      hide StepPlanning.Trim, Key, Identity;
      var tenantId := if input.tenantId.Some? then StepPlanning.Trim(input.tenantId.value) else "pub-dev-loop";
      var projectId := if input.projectId.Some? then StepPlanning.Trim(input.projectId.value) else "";
      if tenantId == "" {
        return Failure(InvalidTenant);
      }
      if projectId == "" {
        return Failure(InvalidProject);
      }
      if !Complete(input.provenance) {
        return Failure(InvalidProvenance);
      }
      var provenance := input.provenance.value;
      var key := Key(tenantId, projectId, input.kind, Identity(provenance, input.title));
      var i := FirstWithKey(memories, key);
      if i < |memories| {
        memories := memories[i := memories[i].(recurrenceCount := memories[i].recurrenceCount + 1)];
        return Success(memories[i]);
      }
      var memory := Memory(id, tenantId, projectId, input.kind, input.title, input.status.GetOr(Active),
                           input.scope.GetOr(ProjectScope), 1, input.supersededBy, provenance);
      memories := memories + [memory];
      r := Success(memory);
    }

    method Supersede(oldId: string, newId: string, tenantId: string) returns (done: bool)
      modifies this
      ensures memories == AfterSupersede(old(memories), oldId, newId, tenantId)
      ensures done <==> CanSupersede(old(memories), oldId, newId, tenantId)
    {
      var i := IndexOf(memories, oldId);
      if i == |memories| {
        return false;
      }
      var validation := ValidateSupersession(memories[i], Lookup(memories, newId), newId, tenantId);
      if validation.Some? {
        return false;
      }
      memories := memories[i := memories[i].(status := Superseded, supersededBy := Some(newId))];
      done := true;
    }
  }

  // ---------- Counts and keys ----------

  datatype Operation =
    | Create(input: CreateMemoryInput, id: string)
    | Supersede(oldId: string, newId: string, tenantId: string)

  function After(ms: seq<Memory>, op: Operation): seq<Memory> {
    match op
    case Create(input, id) => AfterCreate(ms, input, id)
    case Supersede(oldId, newId, tenantId) => AfterSupersede(ms, oldId, newId, tenantId)
  }

  function AfterAll(ops: seq<Operation>): seq<Memory> {
    if ops == [] then [] else After(AfterAll(ops[..|ops| - 1]), ops[|ops| - 1])
  }

  function Total(ms: seq<Memory>): int {
    if ms == [] then 0 else Total(ms[..|ms| - 1]) + ms[|ms| - 1].recurrenceCount
  }

  function Successes(ops: seq<Operation>): nat {
    if ops == [] then 0
    else
      var last := ops[|ops| - 1];
      Successes(ops[..|ops| - 1]) + (if last.Create? && CheckInput(last.input).None? then 1 else 0)
  }

  ghost predicate DistinctKeys(ms: seq<Memory>) {
    forall i, j :: 0 <= i < j < |ms| ==> KeyOf(ms[i]) != KeyOf(ms[j])
  }

  lemma {:induction false} TotalUpdate(ms: seq<Memory>, i: nat, m: Memory)
    requires i < |ms|
    ensures Total(ms[i := m]) == Total(ms) - ms[i].recurrenceCount + m.recurrenceCount
  {
    var n := |ms| - 1;
    if i == n {
      assert ms[i := m][..n] == ms[..n];
    } else {
      TotalUpdate(ms[..n], i, m);
      assert ms[i := m][..n] == ms[..n][i := m];
    }
  }

  lemma TotalAppend(ms: seq<Memory>, m: Memory)
    ensures Total(ms + [m]) == Total(ms) + m.recurrenceCount
  {
    assert (ms + [m])[..|ms|] == ms;
  }

  lemma NoKeys()
    ensures DistinctKeys([])
  {
  }

  lemma CreateCounts(ms: seq<Memory>, input: CreateMemoryInput, id: string)
    requires DistinctKeys(ms) && CheckInput(input).None?
    ensures Total(AfterCreate(ms, input, id)) == Total(ms) + 1 && DistinctKeys(AfterCreate(ms, input, id))
  {
    hide StepPlanning.Trim, Total, KeyOf;
    var i := FirstWithKey(ms, InputKey(input));
    if i < |ms| {
      TotalUpdate(ms, i, Recur(ms[i]));
      RecurKeepsKey(ms[i]);
      SameKey(ms, i, Recur(ms[i]));
    } else {
      NewKey(input, id);
      TotalAppend(ms, NewMemory(input, id));
    }
  }

  lemma RecurKeepsKey(m: Memory)
    ensures KeyOf(Recur(m)) == KeyOf(m)
  {
  }

  lemma NewKey(input: CreateMemoryInput, id: string)
    requires input.provenance.Some?
    ensures KeyOf(NewMemory(input, id)) == InputKey(input)
  {
  }

  lemma StepCounts(ms: seq<Memory>, op: Operation)
    requires DistinctKeys(ms)
    ensures Total(After(ms, op)) == Total(ms) + if op.Create? && CheckInput(op.input).None? then 1 else 0
    ensures DistinctKeys(After(ms, op))
  {
    hide DistinctKeys, CheckInput;
    match op
    case Create(input, id) =>
      if CheckInput(input).None? {
        CreateCounts(ms, input, id);
      }
    case Supersede(oldId, newId, tenantId) =>
      if CanSupersede(ms, oldId, newId, tenantId) {
        var i := IndexOf(ms, oldId);
        var m := ms[i].(status := Superseded, supersededBy := Some(newId));
        TotalUpdate(ms, i, m);
        SameKey(ms, i, m);
      }
  }

  // Every successful create is counted once, and no two memories share a dedupe key.
  lemma {:induction false} CountsAndKeys(ops: seq<Operation>)
    ensures Total(AfterAll(ops)) == Successes(ops)
    ensures DistinctKeys(AfterAll(ops))
  {
    hide After, CheckInput, DistinctKeys;
    if ops != [] {
      var front, op := ops[..|ops| - 1], ops[|ops| - 1];
      CountsAndKeys(front);
      StepCounts(AfterAll(front), op);
    } else {
      NoKeys();
    }
  }

  lemma SameKey(ms: seq<Memory>, i: nat, m: Memory)
    requires i < |ms| && DistinctKeys(ms) && KeyOf(m) == KeyOf(ms[i])
    ensures DistinctKeys(ms[i := m])
  {
    hide KeyOf;
  }

  // ---------- Does a key identify its owner? ----------

  ghost predicate NoColon(s: string) {
    ':' !in s
  }

  lemma {:induction false} FieldEnds(a: string, b: string, x: string, y: string)
    requires NoColon(a) && NoColon(b) && a + ":" + x == b + ":" + y
    ensures a == b && x == y
  {
    var s, t := a + ":" + x, b + ":" + y;
    assert s[0] == (if a == "" then ':' else a[0]) && t[0] == (if b == "" then ':' else b[0]);
    assert (a == "" || a[0] in a) && (b == "" || b[0] in b);
    assert a == "" <==> b == "";
    if a == "" {
      assert s[1..] == x && t[1..] == y;
    } else {
      assert a[1..] + ":" + x == s[1..] && b[1..] + ":" + y == t[1..];
      assert forall c | c in a[1..] :: c in a;
      assert forall c | c in b[1..] :: c in b;
      FieldEnds(a[1..], b[1..], x, y);
      assert a == [a[0]] + a[1..] && b == [b[0]] + b[1..];
    }
  }

  lemma Regroup(a: string, b: string, c: string, d: string)
    ensures a + ":" + b + ":" + c + ":" + d == a + ":" + (b + ":" + (c + ":" + d))
  {
  }

  lemma TypeNamesDiffer(k: MemoryType, l: MemoryType)
    ensures NoColon(TypeName(k))
    ensures TypeName(k) == TypeName(l) ==> k == l
  {
    assert TypeName(k)[0] == TypeName(l)[0] && |TypeName(k)| == |TypeName(l)| ==> k == l;
  }

  // Where neither tenants nor projects contain a colon, two keys are equal only when tenant,
  // project, type and identity all are.
  lemma KeyIdentifies(t: string, p: string, k: MemoryType, i: string, t': string, p': string, k': MemoryType, i': string)
    requires NoColon(t) && NoColon(p) && NoColon(t') && NoColon(p')
    requires Key(t, p, k, i) == Key(t', p', k', i')
    ensures t == t' && p == p' && k == k' && i == i'
  {
    hide NoColon, TypeName;
    var n, n' := TypeName(k), TypeName(k');
    Regroup(t, p, n, i);
    Regroup(t', p', n', i');
    TypeNamesDiffer(k, k');
    TypeNamesDiffer(k', k);
    var y, y' := n + ":" + i, n' + ":" + i';
    var x, x' := p + ":" + y, p' + ":" + y';
    FieldEnds(t, t', x, x');
    FieldEnds(p, p', y, y');
    FieldEnds(n, n', i, i');
  }

  // With a colon they need not be: it can be read as the end of the tenant or as part of the project.
  lemma ColonsConfuse(a: string, b: string, c: string, kind: MemoryType, identity: string)
    ensures Key(a + ":" + b, c, kind, identity) == Key(a, b + ":" + c, kind, identity)
  {
    assert a + ":" + b + ":" + c == a + ":" + (b + ":" + c);
  }

  // What tenants and projects look like once create has trimmed and accepted them.
  predicate IsName(s: string) {
    s != "" && StepPlanning.Trim(s) == s
  }

  lemma AcceptedNames(input: CreateMemoryInput)
    requires CheckInput(input).None?
    ensures IsName(Tenant(input)) && IsName(Project(input))
  {
    if input.tenantId.None? {
      assert !StepPlanning.IsSpace('p');
    }
  }

  predicate StartsWithType(s: string) {
    exists kind: MemoryType :: TypeName(kind) + ":" <= s
  }

  // The key can be read as one whose tenant ends at c and whose project ends at d.
  predicate Reads(key: string, c: int, d: int) {
    && 0 <= c < d < |key| && key[c] == ':' && key[d] == ':'
    && IsName(key[..c]) && IsName(key[c + 1..d]) && StartsWithType(key[d + 1..])
  }

  ghost predicate HasOtherOwner(t: string, p: string, key: string) {
    exists t': string, p': string, kind: MemoryType, identity: string ::
      IsName(t') && IsName(p') && (t' != t || p' != p) && Key(t', p', kind, identity) == key
  }

  lemma KeyParts(t: string, p: string, kind: MemoryType, identity: string)
    ensures var key, c, d := Key(t, p, kind, identity), |t|, |t| + 1 + |p|;
            && c < d < |key| && key[c] == ':' && key[d] == ':' && key[..c] == t && key[c + 1..d] == p
            && key[d + 1..] == TypeName(kind) + ":" + identity
  {
    hide TypeName;
    var rest := TypeName(kind) + ":" + identity;
    var key := Key(t, p, kind, identity);
    assert key == t + ":" + p + ":" + rest;
  }

  lemma SplitAt(s: string, c: nat)
    requires c < |s| && s[c] == ':'
    ensures s == s[..c] + ":" + s[c + 1..]
  {
  }

  lemma SplitTwice(s: string, c: nat, d: nat)
    requires c < d < |s| && s[c] == ':' && s[d] == ':'
    ensures s == s[..c] + ":" + (s[c + 1..d] + ":" + s[d + 1..])
  {
    SplitAt(s, c);
    SplitAt(s[c + 1..], d - c - 1);
    assert s[c + 1..][..d - c - 1] == s[c + 1..d];
  }

  lemma SplitPrefix(s: string, name: string)
    requires name + ":" <= s
    ensures s == name + (":" + s[|name| + 1..])
  {
  }

  lemma Join(a: string, b: string, c: string, d: string)
    ensures a + ":" + (b + ":" + (c + ":" + d)) == a + ":" + b + ":" + c + ":" + d
  {
    Regroup(a, b, c, d);
  }

  lemma PartsMakeKey(key: string, c: int, d: int) returns (kind: MemoryType, identity: string)
    requires Reads(key, c, d)
    ensures Key(key[..c], key[c + 1..d], kind, identity) == key
  {
    hide IsName, TypeName;
    var rest := key[d + 1..];
    kind :| TypeName(kind) + ":" <= rest;
    identity := rest[|TypeName(kind)| + 1..];
    SplitTwice(key, c, d);
    SplitPrefix(rest, TypeName(kind));
    Join(key[..c], key[c + 1..d], TypeName(kind), identity);
  }

  lemma OwnerReads(t: string, p: string, kind: MemoryType, identity: string)
    requires IsName(t) && IsName(p)
    ensures Reads(Key(t, p, kind, identity), |t|, |t| + 1 + |p|)
  {
    hide TypeName, IsName, Key;
    KeyParts(t, p, kind, identity);
    assert TypeName(kind) + ":" <= TypeName(kind) + ":" + identity;
  }

  // A key belongs to another owner as well exactly when it can be read in another way: some other
  // two colons of it leave trimmed names and the name of a type behind them.
  lemma SharedExactlyWhen(t: string, p: string, kind: MemoryType, identity: string)
    requires IsName(t) && IsName(p)
    ensures var key := Key(t, p, kind, identity);
            HasOtherOwner(t, p, key) <==> exists c: int, d: int :: Reads(key, c, d) && (c != |t| || d != |t| + 1 + |p|)
  {
    hide TypeName, IsName, Key, StartsWithType;
    var key := Key(t, p, kind, identity);
    KeyParts(t, p, kind, identity);
    if HasOtherOwner(t, p, key) {
      var t': string, p': string, k: MemoryType, i: string :|
        IsName(t') && IsName(p') && (t' != t || p' != p) && Key(t', p', k, i) == key;
      OwnerReads(t', p', k, i);
      assert |t'| == |t| && |p'| == |p| ==> t' == t && p' == p by {
        KeyParts(t', p', k, i);
      }
    }
    if c: int, d: int :| Reads(key, c, d) && (c != |t| || d != |t| + 1 + |p|) {
      var k, i := PartsMakeKey(key, c, d);
      assert IsName(key[..c]) && IsName(key[c + 1..d]) && (key[..c] != t || key[c + 1..d] != p);
    }
  }

  // Creates with equal keys are counted on one memory, which keeps the first owner.
  lemma OwnersMerge(first: CreateMemoryInput, second: CreateMemoryInput, id: string, other: string)
    requires CheckInput(first).None? && CheckInput(second).None? && InputKey(first) == InputKey(second)
    ensures AfterCreate(AfterCreate([], first, id), second, other) == [Recur(NewMemory(first, id))]
  {
    var m := NewMemory(first, id);
    assert AfterCreate([], first, id) == [] + [m] == [m];
    assert KeyOf(m) == InputKey(first);
    assert FirstWithKey([m], InputKey(second)) == 0;
  }

  // Two tenants share a memory: the second one's observation is counted on the first one's.
  lemma OwnersMergeExample(title: string, p: Provenance, id: string, other: string)
    requires Complete(Some(p))
    ensures var first := CreateMemoryInput(Some("a:b"), Some("c"), Decision, title, None, None, None, Some(p));
            var second := CreateMemoryInput(Some("a"), Some("b:c"), Decision, title, None, None, None, Some(p));
            && Tenant(first) != Tenant(second)
            && AfterCreate(AfterCreate([], first, id), second, other) == [Recur(NewMemory(first, id))]
  {
    var first := CreateMemoryInput(Some("a:b"), Some("c"), Decision, title, None, None, None, Some(p));
    var second := CreateMemoryInput(Some("a"), Some("b:c"), Decision, title, None, None, None, Some(p));
    assert "a" + ":" + "b" == "a:b" && "b" + ":" + "c" == "b:c";
    ColonsConfuse("a", "b", "c", Decision, Identity(p, title));
    OwnersMerge(first, second, id, other);
  }

  // ---------- The rules in the fields ----------

  // What create answers for its input: the first of a blank tenant, a missing or blank project and
  // incomplete provenance is the error. A tenant that is not given reads as pub-dev-loop.
  lemma CreateErrors(input: CreateMemoryInput)
    ensures CheckInput(input)
         == if input.tenantId.Some? && StepPlanning.Trim(input.tenantId.value) == "" then Some(InvalidTenant)
            else if input.projectId.None? || StepPlanning.Trim(input.projectId.value) == "" then Some(InvalidProject)
            else if input.provenance.None? || "" in {input.provenance.value.projectId, input.provenance.value.actorId,
                                                     input.provenance.value.source, input.provenance.value.verifiedAt}
            then Some(InvalidProvenance)
            else None
  {
    hide StepPlanning.Trim;
  }

  // An added memory is active, of the project and seen once unless the input says otherwise.
  lemma CreateAdds(ms: seq<Memory>, input: CreateMemoryInput, id: string)
    requires CheckInput(input).None? && forall j | 0 <= j < |ms| :: KeyOf(ms[j]) != InputKey(input)
    ensures var next := AfterCreate(ms, input, id);
            && |next| == |ms| + 1 && next[..|ms|] == ms
            && var m := next[|ms|];
               && m.id == id && m.recurrenceCount == 1 && m.kind == input.kind && m.title == input.title
               && m.tenantId == (if input.tenantId.Some? then StepPlanning.Trim(input.tenantId.value) else "pub-dev-loop")
               && m.projectId == StepPlanning.Trim(input.projectId.value)
               && m.status == (if input.status.Some? then input.status.value else Active)
               && m.scope == (if input.scope.Some? then input.scope.value else ProjectScope)
               && m.supersededBy == input.supersededBy && input.provenance == Some(m.provenance)
  {
    hide StepPlanning.Trim, KeyOf;
  }

  // What names an observation: its event, else its task, else its rule, else its title.
  function Named(p: Provenance, title: string): string {
    if p.eventId != "" then p.eventId
    else if p.taskId != "" then p.taskId
    else if p.ruleId != "" then p.ruleId
    else title
  }

  // Two accepted creates whose tenants and projects have no colon are counted on one memory exactly
  // when tenant, project, type and name agree.
  lemma SameMemoryExactlyWhen(a: CreateMemoryInput, b: CreateMemoryInput)
    requires CheckInput(a).None? && CheckInput(b).None?
    requires NoColon(Tenant(a)) && NoColon(Project(a)) && NoColon(Tenant(b)) && NoColon(Project(b))
    ensures InputKey(a) == InputKey(b) <==>
            && Tenant(a) == Tenant(b) && Project(a) == Project(b) && a.kind == b.kind
            && Named(a.provenance.value, a.title) == Named(b.provenance.value, b.title)
  {
    if InputKey(a) == InputKey(b) {
      KeyIdentifies(Tenant(a), Project(a), a.kind, Identity(a.provenance.value, a.title),
                    Tenant(b), Project(b), b.kind, Identity(b.provenance.value, b.title));
    }
    hide Key, NoColon, StepPlanning.Trim;
  }

  // A memory is superseded exactly if it is active and of the caller's tenant, and its replacement,
  // as far as it is known, is another one of that tenant, active, and not a project's memory of
  // another project than its own. It then names the replacement, and nothing else changes.
  lemma SupersedesExactlyWhen(ms: seq<Memory>, oldId: string, newId: string, tenantId: string)
    ensures var target, replacement := Lookup(ms, oldId), Lookup(ms, newId);
            CanSupersede(ms, oldId, newId, tenantId) <==>
            && target.Some? && target.value.tenantId == tenantId && target.value.status == Active && oldId != newId
            && (replacement.Some? ==>
                  && replacement.value.tenantId == tenantId && replacement.value.status == Active
                  && (target.value.scope == replacement.value.scope == ProjectScope ==>
                        target.value.projectId == replacement.value.projectId))
    ensures var next := AfterSupersede(ms, oldId, newId, tenantId);
            && |next| == |ms|
            && (if CanSupersede(ms, oldId, newId, tenantId)
                then exists i :: 0 <= i < |ms| && ms[i].id == oldId
                                 && next == ms[i := ms[i].(status := Superseded, supersededBy := Some(newId))]
                else next == ms)
  {
  }
}
