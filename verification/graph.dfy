/**
 * The friendship graph of main.c: one adjacency list per person id
 * `0 .. numVertices - 1`, each friendship stored in both endpoints' lists,
 * newest friend first. The linked `Node` lists become sequences.
 */
module Graphs {

  /** One friendship as read from the input file (a `src dest` line). */
  datatype Edge = Edge(src: int, dest: int)

  /** `numVertices` and the array of adjacency lists, list heads first. */
  datatype Graph = Graph(numVertices: int, adjLists: seq<seq<int>>) {

    /** The list array holds exactly one list per vertex. */
    predicate Sized() {
      numVertices == |adjLists|
    }

    predicate HasVertex(v: int) {
      0 <= v < numVertices
    }

    /** Sized, and every id stored in a list names a vertex. */
    predicate WellFormed() {
      && Sized()
      && forall v, k :: 0 <= v < |adjLists| && 0 <= k < |adjLists[v]| ==> HasVertex(adjLists[v][k])
    }

    /** `u` lists `v` exactly as many times as `v` lists `u`. */
    predicate Symmetric()
      requires Sized()
    {
      forall u, v :: 0 <= u < numVertices && 0 <= v < numVertices ==>
        multiset(adjLists[u])[v] == multiset(adjLists[v])[u]
    }
  }

  /** createGraph: `vertices` people, nobody has a friend yet. */
  function CreateGraph(vertices: int): (g: Graph)
    requires vertices >= 0
    ensures g.numVertices == vertices && g.WellFormed() && g.Symmetric()
    ensures forall v :: 0 <= v < vertices ==> g.adjLists[v] == []
  {
    Graph(vertices, seq(vertices, _ => []))
  }

  /**
   * addEdge: push `dest` onto the head of `src`'s list, then push `src`
   * onto the head of `dest`'s list (the second push sees the first one when
   * `src == dest`). The source checks neither endpoint.
   */
  function AddEdge(g: Graph, src: int, dest: int): (r: Graph)
    requires g.WellFormed() && g.HasVertex(src) && g.HasVertex(dest)
    ensures r.WellFormed() && r.numVertices == g.numVertices
    ensures src != dest ==> r.adjLists[src] == [dest] + g.adjLists[src]
    ensures src != dest ==> r.adjLists[dest] == [src] + g.adjLists[dest]
    ensures src == dest ==> r.adjLists[src] == [src, src] + g.adjLists[src]
    ensures forall v :: 0 <= v < g.numVertices && v != src && v != dest ==> r.adjLists[v] == g.adjLists[v]
  {
    var withDest := g.adjLists[src := [dest] + g.adjLists[src]];
    Graph(g.numVertices, withDest[dest := [src] + withDest[dest]])
  }

  /** How many more times `u` lists `v` after adding the edge `src`-`dest`. */
  function Added(src: int, dest: int, u: int, v: int): nat {
    (if u == dest && v == src then 1 else 0) + (if u == src && v == dest then 1 else 0)
  }

  lemma AddEdgeCount(g: Graph, src: int, dest: int, u: int, v: int)
    requires g.WellFormed() && g.HasVertex(src) && g.HasVertex(dest) && g.HasVertex(u)
    ensures multiset(AddEdge(g, src, dest).adjLists[u])[v] == multiset(g.adjLists[u])[v] + Added(src, dest, u, v)
  {
  }

  /** addEdge keeps the friendship relation symmetric, parallel edges included. */
  lemma AddEdgePreservesSymmetry(g: Graph, src: int, dest: int)
    requires g.WellFormed() && g.Symmetric() && g.HasVertex(src) && g.HasVertex(dest)
    ensures AddEdge(g, src, dest).Symmetric()
  {
  }

  /** Every endpoint of every edge names one of `n` vertices. */
  predicate EdgesWithin(n: int, edges: seq<Edge>) {
    forall i :: 0 <= i < |edges| ==> 0 <= edges[i].src < n && 0 <= edges[i].dest < n
  }

  /**
   * The edge-reading loop of loadGraphFromFile with the file removed: a left
   * fold of addEdge over the edges, in file order, from the empty graph.
   */
  function LoadEdges(n: int, edges: seq<Edge>): (g: Graph)
    requires n >= 0 && EdgesWithin(n, edges)
    ensures g.numVertices == n && g.WellFormed() && g.Symmetric()
    decreases |edges|
  {
    if |edges| == 0 then CreateGraph(n)
    else
      var last := edges[|edges| - 1];
      var before := LoadEdges(n, edges[..|edges| - 1]);
      AddEdgePreservesSymmetry(before, last.src, last.dest);
      AddEdge(before, last.src, last.dest)
  }

  /** The ids edge `e` puts at the head of `v`'s list, in list order. */
  function Contributed(e: Edge, v: int): seq<int> {
    (if e.dest == v then [e.src] else []) + (if e.src == v then [e.dest] else [])
  }

  /** Reference list of `v`'s friends: newest edge's contribution first. */
  function NeighboursFrom(edges: seq<Edge>, v: int): seq<int>
    decreases |edges|
  {
    if |edges| == 0 then []
    else Contributed(edges[|edges| - 1], v) + NeighboursFrom(edges[..|edges| - 1], v)
  }

  lemma AddEdgeList(g: Graph, e: Edge, v: int)
    requires g.WellFormed() && g.HasVertex(e.src) && g.HasVertex(e.dest) && g.HasVertex(v)
    ensures AddEdge(g, e.src, e.dest).adjLists[v] == Contributed(e, v) + g.adjLists[v]
  {
  }

  /** The list built for `v` is exactly the friends of `v`, newest first. */
  lemma {:induction false} LoadedLists(n: int, edges: seq<Edge>, v: int)
    requires n >= 0 && EdgesWithin(n, edges) && 0 <= v < n
    ensures LoadEdges(n, edges).adjLists[v] == NeighboursFrom(edges, v)
    decreases |edges|
  {
    if |edges| > 0 {
      var last := edges[|edges| - 1];
      var prefix := edges[..|edges| - 1];
      assert EdgesWithin(n, prefix);
      var before := LoadEdges(n, prefix);
      LoadedLists(n, prefix, v);
      assert LoadEdges(n, edges) == AddEdge(before, last.src, last.dest);
      AddEdgeList(before, last, v);
    }
  }

  /** How many endpoints of `e` are `v` (a self-friendship counts twice). */
  function Endpoints(e: Edge, v: int): nat {
    (if e.src == v then 1 else 0) + (if e.dest == v then 1 else 0)
  }

  /** Number of edge endpoints equal to `v`, counted over the edge list. */
  function Degree(edges: seq<Edge>, v: int): nat
    decreases |edges|
  {
    if |edges| == 0 then 0 else Endpoints(edges[0], v) + Degree(edges[1..], v)
  }

  lemma {:induction false} DegreeSnoc(edges: seq<Edge>, v: int)
    requires |edges| > 0
    ensures Degree(edges, v) == Degree(edges[..|edges| - 1], v) + Endpoints(edges[|edges| - 1], v)
    decreases |edges|
  {
    if |edges| > 1 {
      var tail := edges[1..];
      DegreeSnoc(tail, v);
      assert tail[..|tail| - 1] == edges[..|edges| - 1][1..];
    }
  }

  /** A person's friend count is the number of edges that touch them. */
  lemma {:induction false} FriendCountIsDegree(n: int, edges: seq<Edge>, v: int)
    requires n >= 0 && EdgesWithin(n, edges) && 0 <= v < n
    ensures |LoadEdges(n, edges).adjLists[v]| == Degree(edges, v)
    decreases |edges|
  {
    if |edges| > 0 {
      var prefix := edges[..|edges| - 1];
      assert EdgesWithin(n, prefix);
      FriendCountIsDegree(n, prefix, v);
      DegreeSnoc(edges, v);
    }
  }

  /** What displayFriendList reports. */
  datatype FriendReport = NoSuchPerson | Friends(count: nat, ids: seq<int>)

  /**
   * displayFriendList: reject an id outside the graph, otherwise count the
   * list and, when it is not empty, report its ids in list order.
   */
  method DisplayFriendList(g: Graph, personId: int) returns (r: FriendReport)
    requires g.Sized()
    ensures r.NoSuchPerson? <==> !g.HasVertex(personId)
    ensures r.Friends? ==> r.count == |g.adjLists[personId]| && r.ids == g.adjLists[personId]
  {
    if personId < 0 || personId >= g.numVertices {
      return NoSuchPerson;
    }
    var list := g.adjLists[personId];
    var friendCount := 0;
    var counter := 0;
    while counter < |list|
      invariant 0 <= counter <= |list| && friendCount == counter
    {
      friendCount := friendCount + 1;
      counter := counter + 1;
    }
    var ids := [];
    if friendCount > 0 {
      var k := 0;
      while k < |list|
        invariant 0 <= k <= |list| && ids == list[..k]
      {
        ids := ids + [list[k]];
        k := k + 1;
      }
    }
    return Friends(friendCount, ids);
  }
}
