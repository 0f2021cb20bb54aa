// The cycle check that admits a pipeline (AdaptiveTaskFlowEngine.validateDAG in
// src/office/autonomous-pipeline.ts).
module PipelineDag {
  import opened Wrappers
  import opened Graphs

  datatype DagStep = DagStep(id: string, dependsOn: seq<string>)

  function Known(steps: seq<DagStep>): set<string> {
    set s | s in steps :: s.id
  }

  function KnownOnly(deps: seq<string>, known: set<string>): (r: seq<string>)
    ensures forall d :: d in r <==> d in deps && d in known
  {
    if deps == [] then []
    else if deps[0] in known then [deps[0]] + KnownOnly(deps[1..], known)
    else KnownOnly(deps[1..], known)
  }

  // A repeated id keeps the dependencies of its last step.
  function StepGraph(steps: seq<DagStep>, known: set<string>): Graph<string> {
    if steps == [] then map[]
    else
      var last := steps[|steps| - 1];
      StepGraph(steps[..|steps| - 1], known)[last.id := KnownOnly(last.dependsOn, known)]
  }

  function DagOf(steps: seq<DagStep>): Graph<string> {
    StepGraph(steps, Known(steps))
  }

  lemma {:induction false} StepGraphNodes(steps: seq<DagStep>, known: set<string>)
    ensures StepGraph(steps, known).Keys == Known(steps)
  {
    if steps != [] {
      var front, last := steps[..|steps| - 1], steps[|steps| - 1];
      assert steps == front + [last];
      StepGraphNodes(front, known);
    }
  }

  // With distinct ids every step keeps its own dependencies.
  lemma {:induction false} StepGraphEdges(steps: seq<DagStep>, known: set<string>, i: nat)
    requires i < |steps|
    requires forall j, k :: 0 <= j < k < |steps| ==> steps[j].id != steps[k].id
    ensures steps[i].id in StepGraph(steps, known)
    ensures StepGraph(steps, known)[steps[i].id] == KnownOnly(steps[i].dependsOn, known)
  {
    if i < |steps| - 1 {
      var front := steps[..|steps| - 1];
      assert front[i] == steps[i];
      StepGraphEdges(front, known, i);
    }
  }

  predicate Closed(g: Graph<string>) {
    forall n, d :: n in g && d in g[n] ==> d in g
  }

  lemma {:induction false} StepGraphKnown(steps: seq<DagStep>, known: set<string>)
    ensures forall n, d :: n in StepGraph(steps, known) && d in StepGraph(steps, known)[n] ==> d in known
  {
    if steps != [] {
      StepGraphKnown(steps[..|steps| - 1], known);
    }
  }

  class DagSearch {
    const graph: Graph<string>
    var visited: set<string>
    var recursionStack: set<string>
    ghost var finished: seq<string>

    constructor (graph: Graph<string>)
      requires Closed(graph)
      ensures this.graph == graph && Valid([])
    {
      this.graph := graph;
      visited, recursionStack, finished := {}, {}, [];
    }

    ghost predicate Valid(path: seq<string>)
      reads this
    {
      && Closed(graph) && visited <= graph.Keys
      && (forall n :: n in recursionStack <==> n in path)
      && (forall n :: n in visited <==> n in path || n in finished)
      && (forall n :: n in path ==> n !in finished)
      && (path == [] || IsPath(graph, path))
      && TopoPrefix(graph, finished)
    }

    // Runs until the subtree is finished or a neighbour on the stack shows a cycle.
    method CheckCycle(node: string, ghost path: seq<string>) returns (found: bool)
      requires Valid(path) && node in graph && node !in visited
      requires path != [] ==> Edge(graph, path[|path| - 1], node)
      modifies this
      ensures !found ==> Valid(path) && node in visited && old(visited) <= visited
      ensures found ==> exists w :: ClosingWalk(graph, w) && w[0] == (path + [node])[0]
      decreases graph.Keys - visited
    {
      visited := visited + {node};
      recursionStack := recursionStack + {node};
      ghost var inner := path + [node];
      if path == [] {
        assert inner == [node];
      } else {
        WalkExtend(graph, path, node);
      }
      hide TopoPrefix;
      var neighbors := graph[node];
      for k := 0 to |neighbors|
        invariant Valid(inner) && old(visited) + {node} <= visited
        invariant forall j :: 0 <= j < k ==> neighbors[j] in finished
      {
        var neighbor := neighbors[k];
        assert Edge(graph, node, neighbor) && inner[|inner| - 1] == node;
        if neighbor !in visited {
          var below := CheckCycle(neighbor, inner);
          if below {
            ghost var w :| ClosingWalk(graph, w) && w[0] == (inner + [neighbor])[0];
            assert w[0] == inner[0];
            return true;
          }
          assert neighbor !in inner;
        } else if neighbor in recursionStack {
          ghost var w := inner + [neighbor];
          WalkExtend(graph, inner, neighbor);
          assert w[..|inner|] == inner && ClosingWalk(graph, w) && w[0] == (path + [node])[0];
          return true;
        }
      }
      Leave(path, node);
      found := false;
    }

    method Leave(ghost path: seq<string>, node: string)
      requires Valid(path + [node]) && node !in path
      requires forall b :: b in graph[node] && b in graph ==> b in finished
      modifies this`recursionStack, this`finished
      ensures Valid(path) && node in visited
    {
      assert (path + [node])[|path|] == node;
      assert forall n :: n in path + [node] <==> n in path || n == node;
      TopoExtend(graph, finished, node);
      if path != [] {
        PathFront(graph, path, node);
      }
      recursionStack := recursionStack - {node};
      finished := finished + [node];
    }
  }

  // None when the steps are admitted; otherwise the step that the thrown error names.
  method ValidateDAG(steps: seq<DagStep>) returns (r: Option<string>)
    ensures r.None? <==> !Cyclic(DagOf(steps))
    ensures r.Some? ==> r.value in Known(steps)
                        && exists w :: ClosingWalk(DagOf(steps), w) && w[0] == r.value
  {
    var known := Known(steps);
    var graph := DagOf(steps);
    StepGraphNodes(steps, known);
    StepGraphKnown(steps, known);
    var search := new DagSearch(graph);
    for i := 0 to |steps|
      invariant search.Valid([])
      invariant forall j :: 0 <= j < i ==> steps[j].id in search.visited
    {
      if steps[i].id !in search.visited {
        var found := search.CheckCycle(steps[i].id, []);
        if found {
          ghost var w :| ClosingWalk(graph, w) && w[0] == ([] + [steps[i].id])[0];
          ClosingWalkIsCyclic(graph, w);
          return Some(steps[i].id);
        }
      }
    }
    TopoImpliesAcyclic(graph, search.finished);
    r := None;
  }
}
