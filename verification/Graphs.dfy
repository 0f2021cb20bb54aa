// Dependency graphs as the planner, the pipeline engine and the mission loop
// hold them: a map from a node to the list of nodes it depends on. Names that
// are not nodes of the graph carry no edge.
module Graphs {

  type Graph<N(==)> = map<N, seq<N>>

  ghost predicate Edge<N>(g: Graph<N>, a: N, b: N) {
    a in g && b in g && b in g[a]
  }

  // A walk along dependency edges, with at least one node.
  ghost predicate IsPath<N>(g: Graph<N>, p: seq<N>) {
    && |p| > 0
    && (forall i :: 0 <= i < |p| ==> p[i] in g)
    && (forall i :: 0 <= i < |p| - 1 ==> Edge(g, p[i], p[i + 1]))
  }

  // A closed walk of at least one edge.
  ghost predicate IsCycle<N>(g: Graph<N>, p: seq<N>) {
    IsPath(g, p) && |p| > 1 && p[0] == p[|p| - 1]
  }

  ghost predicate Cyclic<N(!new)>(g: Graph<N>) {
    exists p: seq<N> :: IsCycle(g, p)
  }

  ghost predicate Distinct<N>(s: seq<N>) {
    forall i, j :: 0 <= i < j < |s| ==> s[i] != s[j]
  }

  // No node is listed twice, and everything a listed node depends on stands before it.
  ghost predicate TopoPrefix<N>(g: Graph<N>, order: seq<N>) {
    && Distinct(order)
    && (forall n :: n in order ==> n in g)
    && (forall i, b :: 0 <= i < |order| && b in g[order[i]] && b in g ==> b in order[..i])
  }

  // A full order of the nodes, dependencies first.
  ghost predicate TopoOrder<N>(g: Graph<N>, order: seq<N>) {
    TopoPrefix(g, order) && (forall n :: n in g ==> n in order)
  }

  lemma TopoExtend<N>(g: Graph<N>, order: seq<N>, n: N)
    requires TopoPrefix(g, order)
    requires n in g && n !in order
    requires forall b :: b in g[n] && b in g ==> b in order
    ensures TopoPrefix(g, order + [n])
  {
    var ext := order + [n];
    forall i, b | 0 <= i < |ext| && b in g[ext[i]] && b in g
      ensures b in ext[..i]
    {
      if i < |order| {
        assert ext[..i] == order[..i];
      } else {
        assert ext[..i] == order;
      }
    }
  }

  ghost function IndexIn<N>(s: seq<N>, n: N): (i: nat)
    requires n in s
    ensures i < |s| && s[i] == n
  {
    if s[0] == n then 0 else 1 + IndexIn(s[1..], n)
  }

  lemma {:induction false} PathDescends<N>(g: Graph<N>, order: seq<N>, p: seq<N>)
    requires TopoOrder(g, order) && IsPath(g, p)
    ensures |p| > 1 ==> IndexIn(order, p[|p| - 1]) < IndexIn(order, p[0])
    decreases |p|
  {
    if |p| > 1 {
      var i := IndexIn(order, p[0]);
      assert Edge(g, p[0], p[1]);
      assert p[1] in order[..i];
      var j :| 0 <= j < i && order[j] == p[1];
      assert IndexIn(order, p[1]) == j;
      var q := p[1..];
      forall k | 0 <= k < |q| - 1
        ensures Edge(g, q[k], q[k + 1])
      {
        assert Edge(g, p[k + 1], p[k + 2]);
      }
      PathDescends(g, order, q);
    }
  }

  // A topological order rules out every cycle.
  lemma TopoImpliesAcyclic<N(!new)>(g: Graph<N>, order: seq<N>)
    requires TopoOrder(g, order)
    ensures !Cyclic(g)
  {
    forall p: seq<N> | IsPath(g, p) && |p| > 1
      ensures p[0] != p[|p| - 1]
    {
      PathDescends(g, order, p);
    }
  }

  // A walk that revisits a node contains a cycle.
  lemma RevisitIsCycle<N(!new)>(g: Graph<N>, p: seq<N>, i: nat, j: nat)
    requires IsPath(g, p) && i < j < |p| && p[i] == p[j]
    ensures Cyclic(g)
  {
    var q := p[i..j + 1];
    forall k | 0 <= k < |q| - 1
      ensures Edge(g, q[k], q[k + 1])
    {
      assert Edge(g, p[i + k], p[i + k + 1]);
    }
    assert IsCycle(g, q);
  }

  // A walk along dependencies whose last node was met before on the walk.
  ghost predicate ClosingWalk<N>(g: Graph<N>, walk: seq<N>) {
    |walk| > 1 && IsPath(g, walk) && walk[|walk| - 1] in walk[..|walk| - 1]
  }

  lemma ClosingWalkIsCyclic<N(!new)>(g: Graph<N>, walk: seq<N>)
    requires ClosingWalk(g, walk)
    ensures Cyclic(g)
  {
    var i :| 0 <= i < |walk| - 1 && walk[i] == walk[|walk| - 1];
    RevisitIsCycle(g, walk, i, |walk| - 1);
  }

  lemma {:induction false} DistinctFits<N>(s: seq<N>, nodes: set<N>)
    requires Distinct(s) && forall n :: n in s ==> n in nodes
    ensures |s| <= |nodes|
    decreases |s|
  {
    if |s| > 0 {
      var last := s[|s| - 1];
      var init := s[..|s| - 1];
      assert s == init + [last];
      assert forall n :: n in init ==> n in nodes - {last};
      DistinctFits(init, nodes - {last});
    }
  }

  // Does n depend on some member of the set?
  ghost predicate DependsInto<N>(g: Graph<N>, n: N, nodes: set<N>) {
    n in g && exists b :: b in nodes && b in g[n]
  }

  lemma WalkExtend<N>(g: Graph<N>, p: seq<N>, b: N)
    requires IsPath(g, p) && Edge(g, p[|p| - 1], b)
    ensures IsPath(g, p + [b])
  {
  }

  lemma PathFront<N>(g: Graph<N>, path: seq<N>, n: N)
    requires path != [] && IsPath(g, path + [n])
    ensures IsPath(g, path)
  {
    var p := path + [n];
    assert forall i :: 0 <= i < |path| ==> path[i] == p[i];
    forall i | 0 <= i < |path| - 1
      ensures Edge(g, path[i], path[i + 1])
    {
      assert Edge(g, p[i], p[i + 1]);
    }
  }

  // If every node of a set has a dependency inside the set, one can walk inside it for ever.
  lemma {:induction false} LongWalk<N>(g: Graph<N>, nodes: set<N>, start: N, len: nat) returns (p: seq<N>)
    requires start in nodes && len > 0
    requires forall n :: n in nodes ==> DependsInto(g, n, nodes)
    ensures |p| == len && IsPath(g, p) && forall n :: n in p ==> n in nodes
    decreases len
  {
    assert DependsInto(g, start, nodes);
    if len == 1 {
      p := [start];
    } else {
      var init := LongWalk(g, nodes, start, len - 1);
      var last := init[|init| - 1];
      assert last in init;
      assert DependsInto(g, last, nodes);
      var b :| b in nodes && b in g[last];
      assert DependsInto(g, b, nodes);
      WalkExtend(g, init, b);
      p := init + [b];
    }
  }

  // In an acyclic graph every non-empty set of nodes has a member that depends on no other member.
  lemma AcyclicHasSource<N(!new)>(g: Graph<N>, nodes: set<N>) returns (n: N)
    requires !Cyclic(g) && nodes <= g.Keys && nodes != {}
    ensures n in nodes && forall b :: b in nodes ==> b !in g[n]
  {
    if forall m :: m in nodes ==> DependsInto(g, m, nodes) {
      var start :| start in nodes;
      var p := LongWalk(g, nodes, start, |nodes| + 1);
      if Distinct(p) {
        DistinctFits(p, nodes);
      } else {
        var i, j :| 0 <= i < j < |p| && p[i] == p[j];
        RevisitIsCycle(g, p, i, j);
      }
      assert false;
    }
    n :| n in nodes && !DependsInto(g, n, nodes);
  }
}
