// Validation of the dependencies between the steps of an organizational plan
// (src/office/planning.ts).
module StepPlanning {
  import opened Wrappers
  import opened Graphs

  datatype StepInput = StepInput(id: Option<string>, dependsOn: Option<seq<string>>)

  datatype PlanError =
    | EmptyId
    | DuplicateId(id: string)
    | SelfDependency(id: string)
    | UnknownDependency(id: string, dependency: string)
    | CyclicDependency(walk: seq<string>)

  datatype DependencyValidation = DependencyValidation(
    valid: bool, errors: seq<PlanError>, executionOrder: seq<string>)

  // The white space and line terminators that String.prototype.trim removes.
  predicate IsSpace(c: char) {
    || '\t' <= c <= '\r' || c == ' ' || c == '\U{00A0}' || c == '\U{1680}'
    || '\U{2000}' <= c <= '\U{200A}' || c == '\U{2028}' || c == '\U{2029}'
    || c == '\U{202F}' || c == '\U{205F}' || c == '\U{3000}' || c == '\U{FEFF}'
  }

  function Trim(s: string): (t: string)
    ensures t == "" || (!IsSpace(t[0]) && !IsSpace(t[|t| - 1]))
    ensures t == "" <==> forall c :: c in s ==> IsSpace(c)
  {
    if s == "" then ""
    else if IsSpace(s[0]) then
      assert s == [s[0]] + s[1..];
      Trim(s[1..])
    else if IsSpace(s[|s| - 1]) then
      assert s == s[..|s| - 1] + [s[|s| - 1]];
      Trim(s[..|s| - 1])
    else s
  }

  // White space and line terminators, one by one (sections 12.2 and 12.3 of ECMA-262).
  const WHITE_SPACE :=
    "\t\n\U{000B}\U{000C}\r \U{00A0}\U{1680}\U{2000}\U{2001}\U{2002}\U{2003}\U{2004}\U{2005}\U{2006}\U{2007}"
    + "\U{2008}\U{2009}\U{200A}\U{2028}\U{2029}\U{202F}\U{205F}\U{3000}\U{FEFF}"

  // Trimming takes white space away at either end, and keeps every other character.
  lemma {:induction false} TrimRemoves(s: string, c: char)
    ensures c in WHITE_SPACE ==> Trim([c] + s) == Trim(s) && Trim(s + [c]) == Trim(s)
    ensures c !in WHITE_SPACE ==> Trim([c]) == [c]
  {
    SpaceIsWhite(c);
    if IsSpace(c) {
      assert ([c] + s)[1..] == s;
      if s == "" {
        assert s + [c] == [c] + s;
      } else if IsSpace(s[0]) {
        TrimRemoves(s[1..], c);
        assert (s + [c])[1..] == s[1..] + [c];
      } else {
        assert (s + [c])[..|s|] == s;
      }
    }
  }

  lemma SpaceIsWhite(c: char)
    ensures IsSpace(c) <==> c in WHITE_SPACE
  {
  }

  function StepId(step: StepInput): string {
    Trim(step.id.GetOr(""))
  }

  // Array.from(new Set(...)) over the trimmed, non-blank names: first occurrences in order.
  function CleanNames(raw: seq<string>): (names: seq<string>)
    ensures forall n :: n in names <==> n != "" && Mentions(raw, n)
    ensures forall i, j :: 0 <= i < j < |names| ==> names[i] != names[j]
  {
    if raw == [] then []
    else
      var front := CleanNames(raw[..|raw| - 1]);
      var last := Trim(raw[|raw| - 1]);
      assert forall n :: Mentions(raw, n) <==> Mentions(raw[..|raw| - 1], n) || n == last by {
        MentionsLast(raw);
      }
      if last == "" || last in front then front else front + [last]
  }

  ghost predicate Mentions(raw: seq<string>, name: string) {
    exists i :: 0 <= i < |raw| && Trim(raw[i]) == name
  }

  lemma MentionsLast(raw: seq<string>)
    requires raw != []
    ensures forall n :: Mentions(raw, n) <==> Mentions(raw[..|raw| - 1], n) || n == Trim(raw[|raw| - 1])
  {
  }

  function Dependencies(step: StepInput): seq<string> {
    CleanNames(step.dependsOn.GetOr([]))
  }

  predicate Names(steps: seq<StepInput>, id: string) {
    exists i :: 0 <= i < |steps| && StepId(steps[i]) == id
  }

  ghost predicate Repeats(steps: seq<StepInput>, id: string) {
    exists i, j :: 0 <= i < j < |steps| && StepId(steps[i]) == id && StepId(steps[j]) == id
  }

  // The graph that the construction loop leaves behind; a repeated id keeps its last step.
  function PlanGraph(steps: seq<StepInput>): Graph<string> {
    if steps == [] then map[]
    else
      var g := PlanGraph(steps[..|steps| - 1]);
      var last := steps[|steps| - 1];
      if StepId(last) == "" then g else g[StepId(last) := Dependencies(last)]
  }

  lemma {:induction false} GraphNodes(steps: seq<StepInput>, id: string)
    ensures id in PlanGraph(steps) <==> id != "" && Names(steps, id)
  {
    if steps != [] {
      hide Names, Repeats, Trim, CleanNames;
      var front, last := steps[..|steps| - 1], steps[|steps| - 1];
      assert steps == front + [last];
      GraphNodes(front, id);
      NamesLast(front, last, id);
    }
  }

  lemma NamesLast(front: seq<StepInput>, last: StepInput, id: string)
    ensures Names(front + [last], id) <==> Names(front, id) || StepId(last) == id
    ensures Repeats(front + [last], id) <==> Repeats(front, id) || (Names(front, id) && StepId(last) == id)
  {
    var steps := front + [last];
    if Names(front, id) {
      var i :| 0 <= i < |front| && StepId(front[i]) == id;
      assert steps[i] == front[i];
      if StepId(last) == id {
        assert steps[|front|] == last;
      }
    }
    if Repeats(front, id) {
      var i, j :| 0 <= i < j < |front| && StepId(front[i]) == id && StepId(front[j]) == id;
      assert steps[i] == front[i] && steps[j] == front[j];
    }
    if StepId(last) == id {
      assert steps[|front|] == last;
    }
  }

  lemma {:induction false} GraphHoldsDependencies(steps: seq<StepInput>, i: nat)
    requires i < |steps| && StepId(steps[i]) != "" && !Repeats(steps, StepId(steps[i]))
    ensures StepId(steps[i]) in PlanGraph(steps)
    ensures PlanGraph(steps)[StepId(steps[i])] == Dependencies(steps[i])
  {
    var front, last := steps[..|steps| - 1], steps[|steps| - 1];
    assert steps == front + [last];
    if i < |front| {
      assert front[i] == steps[i];
      NamesLast(front, last, StepId(steps[i]));
      GraphHoldsDependencies(front, i);
      assert Names(front, StepId(front[i]));
    }
  }

  // A plan whose steps can be put in order.
  ghost predicate WellFormed(steps: seq<StepInput>) {
    && (forall i :: 0 <= i < |steps| ==> StepId(steps[i]) != "")
    && (forall i :: 0 <= i < |steps| ==> !Repeats(steps, StepId(steps[i])))
    && (forall i, d :: 0 <= i < |steps| && d in Dependencies(steps[i]) ==> d != StepId(steps[i]) && Names(steps, d))
    && !Cyclic(PlanGraph(steps))
  }

  function Ids(steps: seq<StepInput>): seq<string> {
    seq(|steps|, i requires 0 <= i < |steps| => StepId(steps[i]))
  }

  datatype Colour = White | Grey | Black

  // The state shared by the recursive search: a colour per node (an absent node is white),
  // the nodes in the order in which they were finished, and the cycles found so far.
  datatype Search = Search(
    state: map<string, Colour>, executionOrder: seq<string>, walks: seq<seq<string>>, hasCycle: bool)
  {
    function ColourOf(n: string): Colour {
      if n in state then state[n] else White
    }

    // path lists the nodes being visited, outermost first.
    ghost predicate Valid(g: Graph<string>, path: seq<string>) {
      && (forall n :: n in path <==> ColourOf(n) == Grey)
      && (forall n :: n in executionOrder <==> ColourOf(n) == Black)
      && (forall n :: ColourOf(n) != White ==> n in g)
      && (path == [] || IsPath(g, path))
      && Distinct(executionOrder)
      && (!hasCycle ==> TopoPrefix(g, executionOrder))
      && (hasCycle <==> walks != [])
      && (forall i :: 0 <= i < |walks| ==> ClosingWalk(g, walks[i]))
    }

    // What a stretch of the search leaves in place.
    ghost predicate Before(later: Search) {
      && (forall n :: n in executionOrder ==> n in later.executionOrder)
      && (forall n :: ColourOf(n) != White ==> later.ColourOf(n) != White)
      && (hasCycle ==> later.hasCycle)
    }

    function Enter(node: string): Search {
      this.(state := state[node := Grey])
    }

    function Close(walk: seq<string>): Search {
      this.(hasCycle := true, walks := walks + [walk])
    }

    function Leave(node: string): Search {
      this.(state := state[node := Black], executionOrder := executionOrder + [node])
    }
  }

  lemma EnterValid(g: Graph<string>, s: Search, path: seq<string>, node: string)
    requires s.Valid(g, path) && node in g && s.ColourOf(node) == White
    requires path != [] ==> Edge(g, path[|path| - 1], node)
    ensures s.Enter(node).Valid(g, path + [node])
    ensures s.Before(s.Enter(node))
  {
  }

  lemma CloseValid(g: Graph<string>, s: Search, path: seq<string>, node: string)
    requires s.Valid(g, path) && path != [] && Edge(g, path[|path| - 1], node) && s.ColourOf(node) == Grey
    ensures s.Close(path + [node]).Valid(g, path)
    ensures s.Before(s.Close(path + [node]))
  {
  }

  lemma LeaveValid(g: Graph<string>, s: Search, path: seq<string>, node: string)
    requires s.Valid(g, path + [node]) && node !in path
    requires s.hasCycle || forall b :: b in g[node] && b in g ==> b in s.executionOrder
    ensures s.Leave(node).Valid(g, path)
    ensures s.Before(s.Leave(node))
  {
    assert forall n :: n in path + [node] <==> n in path || n == node;
    assert s.ColourOf(node) == Grey;
    if !s.hasCycle {
      TopoExtend(g, s.executionOrder, node);
    }
    if path != [] {
      PathFront(g, path, node);
    }
  }

  // The depth-first search of the validator.
  class DependencySearch {
    const graph: Graph<string>
    var search: Search

    constructor (graph: Graph<string>)
      ensures this.graph == graph && search.Valid(graph, []) && !search.hasCycle
    {
      this.graph := graph;
      this.search := Search(map[], [], [], false);
    }

    method Dfs(node: string, path: seq<string>)
      requires search.Valid(graph, path) && node in graph && search.ColourOf(node) == White
      requires path != [] ==> Edge(graph, path[|path| - 1], node)
      modifies this
      ensures search.Valid(graph, path) && node in search.executionOrder
      ensures old(search).Before(search)
      decreases graph.Keys - Seen(search)
    {
      EnterValid(graph, search, path, node);
      search := search.Enter(node);
      var neighbors := graph[node];
      for k := 0 to |neighbors|
        invariant search.Valid(graph, path + [node])
        invariant old(search).Before(search) && search.ColourOf(node) == Grey
        invariant search.hasCycle || forall j :: 0 <= j < k && neighbors[j] in graph ==> neighbors[j] in search.executionOrder
      {
        var neighbor := neighbors[k];
        if neighbor !in graph {
          continue;
        }
        assert Edge(graph, node, neighbor) && (path + [node])[|path|] == node;
        if search.ColourOf(neighbor) == Grey {
          CloseValid(graph, search, path + [node], neighbor);
          search := search.Close(path + [node] + [neighbor]);
        } else if search.ColourOf(neighbor) == White {
          SeenGrows(graph, old(search), search, node);
          Dfs(neighbor, path + [node]);
          assert (path + [node])[|path|] == node;
        }
      }
      LeaveValid(graph, search, path, node);
      search := search.Leave(node);
    }
  }

  ghost function Seen(s: Search): set<string> {
    set n | n in s.state && s.ColourOf(n) != White
  }

  lemma SeenGrows(g: Graph<string>, before: Search, after: Search, node: string)
    requires before.Before(after) && node in g
    requires before.ColourOf(node) == White && after.ColourOf(node) != White
    ensures g.Keys - Seen(after) < g.Keys - Seen(before)
  {
    assert node in g.Keys - Seen(before) && node !in g.Keys - Seen(after);
    forall n | n in Seen(before)
      ensures n in Seen(after)
    {
      assert before.ColourOf(n) != White;
    }
  }

  // What each kind of error reports.
  ghost predicate Reports(steps: seq<StepInput>, e: PlanError) {
    var g := PlanGraph(steps);
    match e
    case EmptyId => Names(steps, "")
    case DuplicateId(id) => id != "" && Repeats(steps, id)
    case SelfDependency(id) => id in g && id in g[id]
    case UnknownDependency(id, d) => id in g && d in g[id] && d !in g
    case CyclicDependency(walk) => ClosingWalk(g, walk)
  }

  // The first two loops: collect the ids in insertion order, the graph, and the naming errors.
  method BuildGraph(steps: seq<StepInput>) returns (keys: seq<string>, graph: Graph<string>, errors: seq<PlanError>)
    ensures graph == PlanGraph(steps)
    ensures forall n :: n in keys <==> n in graph
    ensures NamingErrors(steps, errors)
  {
    keys, graph, errors := [], map[], [];
    for k := 0 to |steps|
      invariant graph == PlanGraph(steps[..k])
      invariant forall n :: n in keys <==> n in graph
      invariant NamingErrors(steps[..k], errors)
    {
      GraphStep(steps, k);
      NamingStep(steps, k, errors);
      var id := StepId(steps[k]);
      if id == "" {
        errors := errors + [EmptyId];
      } else {
        if id in graph {
          errors := errors + [DuplicateId(id)];
        } else {
          keys := keys + [id];
        }
        graph := graph[id := Dependencies(steps[k])];
      }
    }
    assert steps[..|steps|] == steps;
  }

  lemma GraphStep(steps: seq<StepInput>, k: nat)
    requires k < |steps|
    ensures PlanGraph(steps[..k + 1]) ==
            if StepId(steps[k]) == "" then PlanGraph(steps[..k])
            else PlanGraph(steps[..k])[StepId(steps[k]) := Dependencies(steps[k])]
  {
    assert steps[..k + 1][..k] == steps[..k];
  }

  ghost predicate NamingErrors(steps: seq<StepInput>, errors: seq<PlanError>) {
    && (EmptyId in errors <==> Names(steps, ""))
    && (forall id :: DuplicateId(id) in errors <==> id != "" && Repeats(steps, id))
    && (forall e :: e in errors ==> e.EmptyId? || e.DuplicateId?)
  }

  lemma NamingStep(steps: seq<StepInput>, k: nat, errors: seq<PlanError>)
    requires k < |steps| && NamingErrors(steps[..k], errors)
    ensures NamingErrors(steps[..k + 1],
                         if StepId(steps[k]) == "" then errors + [EmptyId]
                         else if StepId(steps[k]) in PlanGraph(steps[..k]) then errors + [DuplicateId(StepId(steps[k]))]
                         else errors)
  {
    var front, last := steps[..k], steps[k];
    assert steps[..k + 1] == front + [last];
    NamesLast(front, last, "");
    GraphNodes(front, StepId(last));
    forall id
      ensures Repeats(front + [last], id) <==> Repeats(front, id) || (Names(front, id) && StepId(last) == id)
    {
      NamesLast(front, last, id);
    }
  }

  method CheckNames(keys: seq<string>, graph: Graph<string>) returns (errors: seq<PlanError>)
    requires forall n :: n in keys ==> n in graph
    ensures forall e :: e in errors ==> e.SelfDependency? || e.UnknownDependency?
    ensures forall id :: SelfDependency(id) in errors <==> id in keys && id in graph[id]
    ensures forall id, d :: UnknownDependency(id, d) in errors <==>
                            id in keys && d in graph[id] && d != id && d !in graph
  {
    errors := [];
    for k := 0 to |keys|
      invariant forall e :: e in errors ==> e.SelfDependency? || e.UnknownDependency?
      invariant forall id :: SelfDependency(id) in errors <==> id in keys[..k] && id in graph[id]
      invariant forall id, d :: UnknownDependency(id, d) in errors <==>
                                id in keys[..k] && d in graph[id] && d != id && d !in graph
    {
      var added := CheckDependencies(keys[k], graph);
      assert keys[..k + 1] == keys[..k] + [keys[k]];
      errors := errors + added;
    }
    assert keys[..|keys|] == keys;
  }

  method CheckDependencies(id: string, graph: Graph<string>) returns (errors: seq<PlanError>)
    requires id in graph
    ensures forall e :: e in errors ==> e.SelfDependency? || e.UnknownDependency?
    ensures forall i :: SelfDependency(i) in errors <==> i == id && id in graph[id]
    ensures forall i, d :: UnknownDependency(i, d) in errors <==>
                           i == id && d in graph[id] && d != id && d !in graph
  {
    var deps := graph[id];
    errors := [];
    for m := 0 to |deps|
      invariant forall e :: e in errors ==> e.SelfDependency? || e.UnknownDependency?
      invariant forall i :: SelfDependency(i) in errors <==> i == id && id in deps[..m]
      invariant forall i, d :: UnknownDependency(i, d) in errors <==>
                               i == id && d in deps[..m] && d != id && d !in graph
    {
      assert deps[..m + 1] == deps[..m] + [deps[m]];
      if deps[m] == id {
        errors := errors + [SelfDependency(id)];
      } else if deps[m] !in graph {
        errors := errors + [UnknownDependency(id, deps[m])];
      }
    }
    assert deps[..|deps|] == deps;
  }

  // The outer loop of the search, over the ids in insertion order.
  method SearchAll(keys: seq<string>, graph: Graph<string>) returns (order: seq<string>, walks: seq<seq<string>>)
    requires forall n :: n in keys <==> n in graph
    ensures walks == [] <==> !Cyclic(graph)
    ensures walks == [] ==> TopoOrder(graph, order)
    ensures forall w :: w in walks ==> ClosingWalk(graph, w)
  {
    var s := new DependencySearch(graph);
    for k := 0 to |keys|
      invariant s.search.Valid(graph, [])
      invariant forall j :: 0 <= j < k ==> keys[j] in s.search.executionOrder
    {
      if s.search.ColourOf(keys[k]) == White {
        s.Dfs(keys[k], []);
      }
    }
    order, walks := s.search.executionOrder, s.search.walks;
    if walks == [] {
      TopoImpliesAcyclic(graph, order);
    } else {
      ClosingWalkIsCyclic(graph, walks[0]);
    }
  }

  function CycleErrors(walks: seq<seq<string>>): (errors: seq<PlanError>)
    ensures |errors| == |walks|
    ensures forall e :: e in errors <==> e.CyclicDependency? && e.walk in walks
  {
    if walks == [] then [] else [CyclicDependency(walks[0])] + CycleErrors(walks[1..])
  }

  // A plan is accepted exactly when it is well formed. An accepted plan comes with every step
  // once, each after all the steps it depends on; a refused one comes with the reasons.
  method ValidateStepDependencies(steps: seq<StepInput>) returns (r: DependencyValidation)
    ensures r.valid <==> WellFormed(steps)
    ensures r.valid ==> TopoOrder(PlanGraph(steps), r.executionOrder)
    ensures r.valid ==> multiset(r.executionOrder) == multiset(Ids(steps))
    ensures r.valid <==> r.errors == []
    ensures !r.valid ==> r.executionOrder == []
    ensures forall e :: e in r.errors ==> Reports(steps, e)
    ensures forall e :: Reports(steps, e) && !e.CyclicDependency? ==> e in r.errors
    ensures Cyclic(PlanGraph(steps)) <==> exists e :: e in r.errors && e.CyclicDependency?
  {
    hide WellFormed, PlanGraph, Cyclic, TopoOrder;
    var keys, graph, naming := BuildGraph(steps);
    var unresolved := CheckNames(keys, graph);
    var order, walks := SearchAll(keys, graph);
    var errors := naming + unresolved + CycleErrors(walks);
    if walks != [] {
      assert CyclicDependency(walks[0]) in errors;
    }
    ErrorsMeanIllFormed(steps, errors);
    if walks != [] || |errors| > 0 {
      return DependencyValidation(false, errors, []);
    }
    OrderIsPermutation(steps, order);
    r := DependencyValidation(true, [], order);
  }

  lemma OrderIsPermutation(steps: seq<StepInput>, order: seq<string>)
    requires WellFormed(steps) && TopoOrder(PlanGraph(steps), order)
    ensures multiset(order) == multiset(Ids(steps))
  {
    var ids := Ids(steps);
    forall n
      ensures n in order <==> n in ids
    {
      GraphNodes(steps, n);
      if Names(steps, n) {
        var i :| 0 <= i < |steps| && StepId(steps[i]) == n;
        assert ids[i] == n;
      }
    }
    forall i, j | 0 <= i < j < |ids|
      ensures ids[i] != ids[j]
    {
      assert !Repeats(steps, StepId(steps[i]));
    }
    DistinctSameElements(order, ids);
  }

  lemma {:induction false} DistinctSameElements(a: seq<string>, b: seq<string>)
    requires Distinct(a) && Distinct(b)
    requires forall n :: n in a <==> n in b
    ensures multiset(a) == multiset(b)
  {
    forall n
      ensures multiset(a)[n] == multiset(b)[n]
    {
      DistinctCount(a, n);
      DistinctCount(b, n);
    }
  }

  lemma {:induction false} DistinctCount(s: seq<string>, n: string)
    requires Distinct(s)
    ensures multiset(s)[n] == if n in s then 1 else 0
  {
    if s != [] {
      var front := s[..|s| - 1];
      assert s == front + [s[|s| - 1]];
      DistinctCount(front, n);
    }
  }

  // Having nothing to report is what being well formed means.
  lemma ErrorsMeanIllFormed(steps: seq<StepInput>, errors: seq<PlanError>)
    requires forall e :: e in errors ==> Reports(steps, e)
    requires forall e :: Reports(steps, e) && !e.CyclicDependency? ==> e in errors
    requires Cyclic(PlanGraph(steps)) <==> exists e :: e in errors && e.CyclicDependency?
    ensures errors == [] <==> WellFormed(steps)
  {
    if WellFormed(steps) && errors != [] {
      WellFormedReportsNothing(steps, errors[0]);
    }
    if errors == [] {
      NothingReported(steps);
    }
  }

  lemma WellFormedReportsNothing(steps: seq<StepInput>, e: PlanError)
    requires WellFormed(steps)
    ensures !Reports(steps, e)
  {
    match e
    case EmptyId =>
    case DuplicateId(id) =>
    case SelfDependency(id) =>
      WellFormedDependencies(steps, id);
    case UnknownDependency(id, d) =>
      WellFormedDependencies(steps, id);
    case CyclicDependency(w) =>
      if ClosingWalk(PlanGraph(steps), w) {
        ClosingWalkIsCyclic(PlanGraph(steps), w);
      }
  }

  lemma WellFormedDependencies(steps: seq<StepInput>, id: string)
    requires WellFormed(steps)
    ensures id in PlanGraph(steps) ==> id !in PlanGraph(steps)[id]
                                       && forall d :: d in PlanGraph(steps)[id] ==> d in PlanGraph(steps)
  {
    GraphNodes(steps, id);
    if id in PlanGraph(steps) {
      var i :| 0 <= i < |steps| && StepId(steps[i]) == id;
      GraphHoldsDependencies(steps, i);
      forall d | d in Dependencies(steps[i])
        ensures d in PlanGraph(steps)
      {
        GraphNodes(steps, d);
      }
    }
  }

  lemma IdsAreFine(steps: seq<StepInput>)
    requires !Reports(steps, EmptyId) && forall id :: !Reports(steps, DuplicateId(id))
    ensures forall i | 0 <= i < |steps| :: StepId(steps[i]) != "" && !Repeats(steps, StepId(steps[i]))
  {
    forall i | 0 <= i < |steps|
      ensures StepId(steps[i]) != "" && !Repeats(steps, StepId(steps[i]))
    {
      assert Names(steps, StepId(steps[i]));
      assert !Reports(steps, DuplicateId(StepId(steps[i])));
    }
  }

  lemma NothingReported(steps: seq<StepInput>)
    requires forall e :: Reports(steps, e) ==> e.CyclicDependency?
    requires !Cyclic(PlanGraph(steps))
    ensures WellFormed(steps)
  {
    IdsAreFine(steps);
    DependenciesAreFine(steps);
    hide PlanGraph, Cyclic, Reports, Names, Repeats, Dependencies, StepId;
  }

  ghost predicate NamesAnother(steps: seq<StepInput>, i: int, d: string)
    requires 0 <= i < |steps|
  {
    d != StepId(steps[i]) && Names(steps, d)
  }

  lemma FineDependency(steps: seq<StepInput>, i: nat, d: string)
    requires forall k | 0 <= k < |steps| :: StepId(steps[k]) != "" && !Repeats(steps, StepId(steps[k]))
    requires i < |steps| && d in Dependencies(steps[i])
    requires !Reports(steps, SelfDependency(StepId(steps[i]))) && !Reports(steps, UnknownDependency(StepId(steps[i]), d))
    ensures NamesAnother(steps, i, d)
  {
    GraphHoldsDependencies(steps, i);
    GraphNodes(steps, d);
    hide Names, Repeats, Dependencies, StepId;
  }

  lemma DependenciesAreFine(steps: seq<StepInput>)
    requires forall i | 0 <= i < |steps| :: StepId(steps[i]) != "" && !Repeats(steps, StepId(steps[i]))
    requires forall id :: !Reports(steps, SelfDependency(id))
    requires forall id, d :: !Reports(steps, UnknownDependency(id, d))
    ensures forall i, d | 0 <= i < |steps| && d in Dependencies(steps[i]) :: NamesAnother(steps, i, d)
  {
    hide *;
    forall i, d | 0 <= i < |steps| && d in Dependencies(steps[i])
      ensures NamesAnother(steps, i, d)
    {
      FineDependency(steps, i, d);
    }
  }
}
