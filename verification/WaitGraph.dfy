/** The wait-for graph and the search for a deadlock victim: a depth-first search that colours nodes
    white (not visited), grey (on the current path) and black (finished, no cycle through them). */
module WaitGraph {

  type Graph = map<nat, set<nat>>

  predicate Edge(g: Graph, a: nat, b: nat) {
    a in g && b in g[a]
  }

  /** A closed walk, given by its nodes. */
  ghost predicate IsCycle(g: Graph, c: seq<nat>) {
    |c| > 0 && forall i :: 0 <= i < |c| ==> Edge(g, c[i], c[if i + 1 < |c| then i + 1 else 0])
  }

  ghost predicate IsLargest(c: seq<nat>, m: nat) {
    m in c && forall x :: x in c ==> x <= m
  }

  /** Every edge from a node of the sequence leads to an earlier one. */
  ghost predicate EdgesGoBack(g: Graph, order: seq<nat>) {
    forall i, b :: 0 <= i < |order| && Edge(g, order[i], b) ==> exists j :: 0 <= j < i && order[j] == b
  }

  ghost predicate Distinct(s: seq<nat>) {
    forall i, j :: 0 <= i < j < |s| ==> s[i] != s[j]
  }

  function IndexOf(s: seq<nat>, x: nat): (i: nat)
    requires x in s
    ensures i < |s| && s[i] == x
  {
    if s[0] == x then 0 else 1 + IndexOf(s[1..], x)
  }

  lemma EdgeLowersIndex(g: Graph, order: seq<nat>, a: nat, b: nat)
    requires EdgesGoBack(g, order) && Distinct(order) && a in order && Edge(g, a, b)
    ensures b in order && IndexOf(order, b) < IndexOf(order, a)
  {
    var i := IndexOf(order, a);
    var j :| 0 <= j < i && order[j] == b;
    var k := IndexOf(order, b);
    assert k == j;
  }

  /** Along a walk the index falls. */
  lemma {:induction false} WalkFalls(g: Graph, order: seq<nat>, c: seq<nat>, k: nat)
    requires EdgesGoBack(g, order) && Distinct(order) && k < |c| && c[0] in order
    requires forall i :: 0 <= i < |c| - 1 ==> Edge(g, c[i], c[i + 1])
    ensures c[k] in order && IndexOf(order, c[k]) + k <= IndexOf(order, c[0])
  {
    if k > 0 {
      WalkFalls(g, order, c, k - 1);
      EdgeLowersIndex(g, order, c[k - 1], c[k]);
    }
  }

  lemma CycleIsWalk(g: Graph, c: seq<nat>, last: nat)
    requires IsCycle(g, c) && last + 1 == |c|
    ensures forall i :: 0 <= i < last ==> Edge(g, c[i], c[i + 1])
    ensures Edge(g, c[last], c[0]) && c[0] in g
  {
    forall i | 0 <= i < last ensures Edge(g, c[i], c[i + 1]) {
      assert Edge(g, c[i], c[if i + 1 < |c| then i + 1 else 0]);
    }
    assert Edge(g, c[last], c[if last + 1 < |c| then last + 1 else 0]);
    assert Edge(g, c[0], c[if 1 < |c| then 1 else 0]);
  }

  /** A graph whose nodes can be put in such an order has no cycle. */
  lemma OrderedIsAcyclic(g: Graph, order: seq<nat>, c: seq<nat>)
    requires EdgesGoBack(g, order) && Distinct(order) && forall a :: a in g ==> a in order
    ensures !IsCycle(g, c)
  {
    if IsCycle(g, c) {
      var last := |c| - 1;
      CycleIsWalk(g, c, last);
      WalkFalls(g, order, c, last);
      EdgeLowersIndex(g, order, c[last], c[0]);
    }
  }

  /** `x` waits for someone in `b`. */
  ghost predicate WaitsWithin(g: Graph, b: set<nat>, x: nat) {
    exists y :: y in b && Edge(g, x, y)
  }

  /** Where everyone waits for someone among them, no such order takes in all of them. */
  lemma {:induction false} ClosedIsNotOrdered(g: Graph, order: seq<nat>, b: set<nat>, x: nat)
    requires EdgesGoBack(g, order) && Distinct(order)
    requires x in b && forall y :: y in b ==> WaitsWithin(g, b, y)
    ensures x !in order
    decreases if x in order then IndexOf(order, x) else 0
  {
    if x in order {
      assert WaitsWithin(g, b, x);
      var y :| y in b && Edge(g, x, y);
      EdgeLowersIndex(g, order, x, y);
      ClosedIsNotOrdered(g, order, b, y);
    }
  }

  // ----- the search -----

  /** Where the search stands: `path` are the grey nodes, `order` the black ones as they finished. */
  ghost predicate Searching(g: Graph, path: seq<nat>, order: seq<nat>) {
    && Distinct(order) && Distinct(path)
    && EdgesGoBack(g, order)
    && (forall i :: 0 <= i < |path| - 1 ==> Edge(g, path[i], path[i + 1]))
    && (forall x :: x in path ==> x !in order)
  }

  ghost function Nodes(g: Graph): set<nat> {
    g.Keys + set a, b | a in g && b in g[a] :: b
  }

  /** An edge from the end of the path back into it closes a cycle. */
  lemma PathCloses(g: Graph, path: seq<nat>, at: nat)
    requires at < |path| && Edge(g, path[|path| - 1], path[at])
    requires forall i :: 0 <= i < |path| - 1 ==> Edge(g, path[i], path[i + 1])
    ensures IsCycle(g, path[at..])
  {
    var c := path[at..];
    forall i | 0 <= i < |c| ensures Edge(g, c[i], c[if i + 1 < |c| then i + 1 else 0]) {
      assert c[i] == path[at + i];
    }
  }

  lemma Start(g: Graph, path: seq<nat>, order: seq<nat>, node: nat)
    requires Searching(g, path, order) && node !in path && node !in order
             && (path != [] ==> Edge(g, path[|path| - 1], node))
    ensures Searching(g, path + [node], order)
  {
  }

  /** A node all of whose edges lead to finished nodes is finished. */
  lemma Finish(g: Graph, path: seq<nat>, order: seq<nat>, node: nat)
    requires Searching(g, path + [node], order) && forall b :: Edge(g, node, b) ==> b in order
    ensures Searching(g, path, order + [node]) && node !in path
  {
    var longer, done := path + [node], order + [node];
    forall i, b | 0 <= i < |done| && Edge(g, done[i], b) ensures exists j :: 0 <= j < i && done[j] == b {
      if i < |order| {
        var j :| 0 <= j < i && order[j] == b;
        assert done[j] == b;
      } else {
        var j := IndexOf(order, b);
        assert done[j] == b;
      }
    }
    forall i | 0 <= i < |path| ensures path[i] == longer[i] && path[i] != node { assert longer[i] != longer[|path|]; }
    assert node == longer[|path|];
    forall i | 0 <= i < |path| - 1 ensures Edge(g, path[i], path[i + 1]) { assert Edge(g, longer[i], longer[i + 1]); }
    forall i, j | 0 <= i < j < |path| ensures path[i] != path[j] { assert longer[i] != longer[j]; }
    assert node in longer;
    forall x | x in path ensures x !in done { assert x in longer; }
  }

  method LargestOf(c: seq<nat>) returns (m: nat)
    requires c != []
    ensures IsLargest(c, m)
  {
    m := c[0];
    for i := 1 to |c|
      invariant m in c && forall j :: 0 <= j < i ==> c[j] <= m
    {
      if c[i] > m { m := c[i]; }
    }
  }

  datatype Color = White | Grey | Black

  class Search {
    const graph: Graph
    var color: map<nat, Color>
    var path: seq<nat>
    ghost var order: seq<nat>

    /** Missing entries are white. */
    function ColorOf(n: nat): Color
      reads this`color
    {
      if n in color then color[n] else White
    }

    ghost predicate Valid()
      reads this
    {
      && Searching(graph, path, order)
      && (forall n :: ColorOf(n) == Grey <==> n in path)
      && (forall n :: ColorOf(n) == Black <==> n in order)
      && (forall n :: n in path ==> n in Nodes(graph))
    }

    ghost function Unvisited(): set<nat>
      reads this`color
    {
      set n | n in Nodes(graph) && ColorOf(n) == White
    }

    constructor (graph: Graph)
      ensures Valid() && this.graph == graph && path == [] && order == []
    {
      this.graph := graph;
      color := map[];
      path := [];
      order := [];
    }

    /** White to grey: the node joins the path. */
    method Enter(node: nat)
      requires Valid() && ColorOf(node) == White && node in Nodes(graph)
      requires path != [] ==> Edge(graph, path[|path| - 1], node)
      modifies this`color, this`path
      ensures Valid() && path == old(path) + [node] && Unvisited() == old(Unvisited()) - {node}
    {
      Start(graph, path, order, node);
      color := color[node := Grey];
      path := path + [node];
    }

    /** Grey to black: nothing white is left below the node. */
    method Leave(node: nat, ghost before: seq<nat>)
      requires Valid() && path == before + [node] && forall b :: Edge(graph, node, b) ==> b in order
      modifies this
      ensures Valid() && path == before && order == old(order) + [node] && Unvisited() == old(Unvisited())
    {
      Finish(graph, before, order, node);
      assert path[|path| - 1] == node && forall n :: n in path <==> n in before || n == node;
      path := path[..|path| - 1];
      color := color[node := Black];
      order := order + [node];
    }

    /** Visits a white node. Either everything reachable from it turns black, or a cycle is found. */
    method Visit(node: nat) returns (found: bool, victim: nat, ghost cycle: seq<nat>)
      requires Valid() && ColorOf(node) == White && node in Nodes(graph)
      requires path != [] ==> Edge(graph, path[|path| - 1], node)
      modifies this
      ensures found ==> IsCycle(graph, cycle) && IsLargest(cycle, victim)
      ensures !found ==> Valid() && path == old(path) && old(order) <= order && node in order
      ensures !found ==> Unvisited() <= old(Unvisited())
      decreases Unvisited(), 0
    {
      Enter(node);
      assert node in old(Unvisited()) && node !in Unvisited();
      found, victim, cycle := VisitAll(node);
      if found { return; }
      Leave(node, old(path));
    }

    /** Follows the edges of the last node of the path. */
    method VisitAll(node: nat) returns (found: bool, victim: nat, ghost cycle: seq<nat>)
      requires Valid() && path != [] && path[|path| - 1] == node
      modifies this
      ensures found ==> IsCycle(graph, cycle) && IsLargest(cycle, victim)
      ensures !found ==> Valid() && path == old(path) && old(order) <= order && Unvisited() <= old(Unvisited())
      ensures !found ==> forall b :: Edge(graph, node, b) ==> b in order
      decreases Unvisited(), 1
    {
      var left := if node in graph then graph[node] else {};
      while left != {}
        invariant Valid() && path == old(path) && old(order) <= order && Unvisited() <= old(Unvisited())
        invariant left <= if node in graph then graph[node] else {}
        invariant forall b :: Edge(graph, node, b) && b !in left ==> b in order
        decreases |left|
      {
        var next :| next in left;
        left := left - {next};
        assert next in Nodes(graph);
        if ColorOf(next) == White {
          found, victim, cycle := Visit(next);
          if found { return; }
        }
        if ColorOf(next) == Grey {
          var at := IndexOf(path, next);
          PathCloses(graph, path, at);
          victim := LargestOf(path[at..]);
          return true, victim, path[at..];
        }
        assert ColorOf(next) == Black;
      }
      return false, 0, [];
    }

    /** Searches from every node. Without a cycle the finishing order shows there is none. */
    method FindVictim() returns (found: bool, victim: nat, ghost cycle: seq<nat>, ghost finished: seq<nat>)
      requires Valid() && path == [] && order == []
      modifies this
      ensures found ==> IsCycle(graph, cycle) && IsLargest(cycle, victim)
      ensures !found ==> EdgesGoBack(graph, finished) && Distinct(finished) && forall a :: a in graph ==> a in finished
    {
      var left := graph.Keys;
      while left != {}
        invariant Valid() && path == []
        invariant forall a :: a in graph && a !in left ==> a in order
        decreases |left|
      {
        var node :| node in left;
        left := left - {node};
        if ColorOf(node) == White {
          if node in graph {
            found, victim, cycle := Visit(node);
            if found {
              finished := [];
              return;
            }
          }
        } else {
          assert ColorOf(node) == Black;
        }
      }
      found, victim, cycle, finished := false, 0, [], order;
    }
  }
}
