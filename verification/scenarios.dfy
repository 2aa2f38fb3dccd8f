/**
 * Small worked graphs: the chain 0-1-2-3 and a three-person graph with one
 * friendship, run through the friend query and the connection search.
 */
module Scenarios {
  import opened Graphs
  import opened Connection

  function Chain(): seq<Edge> {
    [Edge(0, 1), Edge(1, 2), Edge(2, 3)]
  }

  /** The adjacency lists loading the chain produces. */
  function ChainLists(): seq<seq<int>> {
    [[1], [2, 0], [3, 1], [2]]
  }

  lemma ChainNeighbours(e: seq<Edge>, v: int)
    requires e == Chain() && 0 <= v < 4
    ensures NeighboursFrom(e, v) == ChainLists()[v]
  {
    var e2, e1 := e[..2], e[..2][..1];
    assert e1[..0] == [] && e1 == [Edge(0, 1)] && e2 == [Edge(0, 1), Edge(1, 2)] && e2[..1] == e1;
    assert NeighboursFrom(e1, v) == Contributed(Edge(0, 1), v);
    assert NeighboursFrom(e2, v) == Contributed(Edge(1, 2), v) + Contributed(Edge(0, 1), v);
  }

  lemma ChainLoaded(e: seq<Edge>)
    requires e == Chain()
    ensures LoadEdges(4, e).adjLists == ChainLists()
  {
    forall v | 0 <= v < 4
      ensures LoadEdges(4, e).adjLists[v] == ChainLists()[v]
    {
      LoadedLists(4, e, v);
      ChainNeighbours(e, v);
    }
  }

  /** In the chain, the only walk from 0 to 3 of at most four people is the chain itself. */
  lemma ChainWalk(g: Graph, p: seq<int>)
    requires g.adjLists == ChainLists()
    requires IsWalk(g, p, 0, 3) && |p| <= 4
    ensures p == [0, 1, 2, 3]
  {
    assert p[1] in g.adjLists[0];
    assert p[2] in g.adjLists[p[1]];
  }

  lemma ChainReachable(g: Graph)
    requires g.adjLists == ChainLists()
    ensures Reachable(g, 0, 3)
  {
    assert IsWalk(g, [0, 1, 2, 3], 0, 3);
  }

  lemma ChainResult(g: Graph, r: ConnectionResult)
    requires g.adjLists == ChainLists() && r.Connected?
    requires IsWalk(g, r.path, 0, 3) && |r.path| <= 4
    requires |r.pairs| == |r.path| - 1
    requires forall k :: 0 <= k < |r.pairs| ==> r.pairs[k] == (r.path[k], r.path[k + 1])
    ensures r == Connected([0, 1, 2, 3], [(0, 1), (1, 2), (2, 3)])
  {
    ChainWalk(g, r.path);
    assert r.pairs[0] == (0, 1) && r.pairs[1] == (1, 2) && r.pairs[2] == (2, 3);
  }

  /** In the chain, person 1's friends are 2 then 0, newest first. */
  method ChainFriendsOfOne() returns (r: FriendReport)
    ensures r == Friends(2, [2, 0])
  {
    var e := Chain();
    var g := LoadEdges(4, e);
    ChainLoaded(e);
    r := DisplayFriendList(g, 1);
  }

  /** In the chain, the connection from 0 to 3 is the whole chain. */
  method ChainConnection() returns (r: ConnectionResult)
    ensures r == Connected([0, 1, 2, 3], [(0, 1), (1, 2), (2, 3)])
  {
    var e := Chain();
    var g := LoadEdges(4, e);
    ChainLoaded(e);
    ChainReachable(g);
    r := FindConnection(g, 0, 3);
    ChainResult(g, r);
  }

  /** With only 0-1 known, person 2 cannot be reached from person 0. */
  method NoConnection() returns (r: ConnectionResult)
    ensures r == NotConnected
  {
    var edges := [Edge(0, 1)];
    var g := LoadEdges(3, edges);
    assert edges[..0] == [];
    assert g == AddEdge(CreateGraph(3), 0, 1);
    var inside := [true, true, false];
    assert Closed(g, inside, 0) && Closed(g, inside, 1);
    forall p | IsWalk(g, p, 0, 2)
      ensures false
    {
      WalkStaysVisited(g, inside, p, 0, 2);
    }
    r := FindConnection(g, 0, 2);
  }
}
