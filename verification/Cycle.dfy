/** The rule checker's search for mutual recursion in a call graph. */
module Cycle {
  import opened Sets
  import opened Values

  type Node = string

  /** Callees of each function; a name without an entry calls nothing. */
  type Graph = map<Node, seq<Node>>

  function Callees(g: Graph, a: Node): seq<Node> { if a in g then g[a] else [] }

  predicate Walk(g: Graph, p: seq<Node>) {
    forall i :: 0 <= i < |p| - 1 ==> p[i] in g && p[i + 1] in g[p[i]]
  }

  /** A walk of at least one edge that ends where it began. */
  predicate IsCycle(g: Graph, p: seq<Node>) {
    |p| >= 2 && p[0] == p[|p| - 1] && Walk(g, p)
  }

  function Nodes(g: Graph): set<Node> {
    g.Keys + set a, b | a in g && b in g[a] :: b
  }

  // ----- why finished nodes lie on no cycle -----

  /** Callees of finished nodes are finished, and finished earlier. */
  ghost predicate Finished(g: Graph, visited: set<Node>, rank: map<Node, nat>) {
    && rank.Keys == visited
    && forall a, b :: a in visited && b in Callees(g, a) ==> b in visited && rank[b] < rank[a]
  }

  lemma {:induction false} RanksFall(g: Graph, visited: set<Node>, rank: map<Node, nat>, p: seq<Node>, i: nat)
    requires Finished(g, visited, rank) && Walk(g, p) && i < |p| && p[0] in visited
    ensures p[i] in visited && (i > 0 ==> rank[p[i]] < rank[p[0]])
  {
    if i > 0 {
      RanksFall(g, visited, rank, p, i - 1);
      assert p[i - 1 + 1] in Callees(g, p[i - 1]);
    }
  }

  lemma FinishedMeansAcyclic(g: Graph, visited: set<Node>, rank: map<Node, nat>, p: seq<Node>)
    requires Finished(g, visited, rank) && g.Keys <= visited
    ensures !IsCycle(g, p)
  {
    if IsCycle(g, p) {
      assert p[0 + 1] in Callees(g, p[0]);
      RanksFall(g, visited, rank, p, |p| - 1);
    }
  }

  // ----- the search -----

  class Finder {
    const graph: Graph
    var visiting: set<Node>
    var visited: set<Node>
    var stack: seq<Node>
    ghost var rank: map<Node, nat>

    /** The stack is a walk through the nodes being visited, and finished nodes lie on no cycle. */
    ghost predicate Valid()
      reads this
    {
      && Walk(graph, stack) && (forall a :: a in visiting <==> a in stack) && visiting !! visited
      && (forall i, j :: 0 <= i < j < |stack| ==> stack[i] != stack[j])
      && Finished(graph, visited, rank)
    }

    constructor (graph: Graph)
      ensures Valid() && this.graph == graph && visiting == {} && visited == {} && stack == []
    {
      this.graph := graph;
      visiting, visited, stack, rank := {}, {}, [], map[];
    }

    /** Entering a node. */
    method Enter(node: Node)
      requires Valid() && node !in visiting && node !in visited
      requires stack == [] || node in Callees(graph, stack[|stack| - 1])
      modifies this
      ensures Valid() && visiting == old(visiting) + {node} && stack == old(stack) + [node] && visited == old(visited)
    {
      hide Finished;
      visiting := visiting + {node};
      stack := stack + [node];
    }

    /** Leaving a node whose callees are finished. */
    method Leave(node: Node)
      requires Valid() && stack != [] && stack[|stack| - 1] == node
      requires forall b :: b in Callees(graph, node) ==> b in visited
      modifies this
      ensures Valid() && visiting == old(visiting) - {node} && stack == old(stack)[..|old(stack)| - 1]
      ensures visited == old(visited) + {node}
    {
      hide Finished;
      Finish(graph, visited, rank, node);
      stack := stack[..|stack| - 1];
      visiting := visiting - {node};
      visited := visited + {node};
      rank := rank[node := Above(rank)];
    }

    /** The part of the stack from `nxt` on, closed by `nxt`. */
    method CloseCycle(nxt: Node) returns (p: seq<Node>)
      requires Valid() && nxt in visiting && stack != [] && nxt in Callees(graph, stack[|stack| - 1])
      ensures IsCycle(graph, p)
    {
      hide Finished;
      var at := IndexOf(nxt);
      CycleFromStack(graph, stack, at, nxt);
      p := stack[at..] + [nxt];
    }

    /** `dfs`: a cycle, or nothing, and then everything reachable from `node` is finished. */
    method Dfs(node: Node) returns (found: Option<seq<Node>>)
      requires Valid() && node in Nodes(graph) && node !in visiting && node !in visited
      requires stack == [] || node in Callees(graph, stack[|stack| - 1])
      modifies this
      ensures found.Some? ==> IsCycle(graph, found.value)
      ensures found.None? ==> Valid() && visiting == old(visiting) && stack == old(stack)
      ensures found.None? ==> old(visited) <= visited && node in visited
      decreases |Nodes(graph) - visiting - visited|
    {
      hide Nodes, Finished, Finder.Valid, IsCycle;
      ghost var todo := Nodes(graph) - visiting - visited;
      Enter(node);
      var callees := Callees(graph, node);
      for i := 0 to |callees|
        invariant Valid() && visiting == old(visiting) + {node} && stack == old(stack) + [node]
        invariant old(visited) <= visited
        invariant forall j :: 0 <= j < i ==> callees[j] in visited
      {
        var nxt := callees[i];
        assert nxt in Callees(graph, stack[|stack| - 1]);
        if nxt in visiting {
          var cycle := CloseCycle(nxt);
          return Some(cycle);
        }
        if nxt !in visited {
          CalleeIsNode(graph, node, nxt);
          Smaller(Nodes(graph) - visiting - visited, todo, node);
          found := Dfs(nxt);
          if found.Some? { return; }
        }
      }
      Leave(node);
      NotVisiting(old(visiting), node);
      found := None;
    }

    /** `stack.index`. */
    method IndexOf(a: Node) returns (at: nat)
      requires a in stack
      ensures at < |stack| && stack[at] == a
    {
      at := 0;
      while stack[at] != a
        invariant at < |stack| && a !in stack[..at]
        decreases |stack| - at
      {
        at := at + 1;
      }
    }
  }

  lemma NotVisiting(a: set<Node>, x: Node)
    requires x !in a
    ensures a + {x} - {x} == a
  {
  }

  lemma CalleeIsNode(g: Graph, a: Node, b: Node)
    requires b in Callees(g, a)
    ensures b in Nodes(g)
  {
  }

  lemma Smaller(a: set<Node>, b: set<Node>, x: Node)
    requires a <= b && x in b && x !in a
    ensures |a| < |b|
  {
    var rest := b - {x};
    assert a <= rest;
    SubsetSize(a, rest);
  }

  /** A walk back to a node of the stack closes a cycle. */
  lemma CycleFromStack(g: Graph, stack: seq<Node>, at: nat, nxt: Node)
    requires Walk(g, stack) && at < |stack| && stack[at] == nxt && nxt in Callees(g, stack[|stack| - 1])
    ensures IsCycle(g, stack[at..] + [nxt])
  {
    var p := stack[at..] + [nxt];
    forall i | 0 <= i < |p| - 1 ensures p[i + 1] in Callees(g, p[i]) {
      if i < |p| - 2 { assert stack[at + i + 1] in Callees(g, stack[at + i]); }
    }
  }

  /** A rank above all others. */
  ghost function Above(rank: map<Node, nat>): (n: nat)
    ensures forall a :: a in rank ==> rank[a] < n
    decreases |rank|
  {
    if rank == map[] then 0
    else
      var a :| a in rank;
      var n := Above(rank - {a});
      assert forall b :: b in rank && b != a ==> b in rank - {a};
      if n > rank[a] then n else rank[a] + 1
  }

  /** A node whose callees are all finished can be finished. */
  lemma Finish(g: Graph, visited: set<Node>, rank: map<Node, nat>, node: Node)
    requires Finished(g, visited, rank) && node !in visited
    requires forall b :: b in Callees(g, node) ==> b in visited
    ensures Finished(g, visited + {node}, rank[node := Above(rank)])
  {
  }

  /** `has_cycle`: a cycle if there is one, else nothing. */
  method HasCycle(graph: Graph) returns (found: Option<seq<Node>>)
    ensures found.Some? ==> IsCycle(graph, found.value)
    ensures found.None? ==> forall p :: !IsCycle(graph, p)
  {
    hide Finished, IsCycle;
    var f := new Finder(graph);
    var names := graph.Keys;
    var left := names;
    while left != {}
      invariant f.Valid() && fresh(f) && f.graph == graph && f.stack == [] && f.visiting == {}
      invariant left <= names && names - left <= f.visited
      decreases left
    {
      var name :| name in left;
      left := left - {name};
      if name !in f.visited {
        KeyIsNode(graph, name);
        found := f.Dfs(name);
        if found.Some? { return; }
      }
    }
    forall p ensures !IsCycle(graph, p) { FinishedMeansAcyclic(graph, f.visited, f.rank, p); }
    found := None;
  }

  lemma KeyIsNode(g: Graph, a: Node)
    requires a in g
    ensures a in Nodes(g)
  {
  }
}
