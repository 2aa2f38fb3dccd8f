/**
 * findConnection of main.c: range checks, a breadth-first search from `src`
 * over `visited`/`parent` arrays and the FIFO queue that stops as soon as it
 * discovers `dest`, path reconstruction along `parent`, and the
 * "X is friends with Y" pairs it prints. The `printf` branches become the
 * cases of `ConnectionResult`.
 */
module Connection {
  import opened Graphs
  import opened Queues

  datatype ConnectionResult =
    | OutOfRange
    | SameVertex
    | Connected(path: seq<int>, pairs: seq<(int, int)>)
    | NotConnected

  /** `v` is on the adjacency list of vertex `u`. */
  predicate Adjacent(g: Graph, u: int, v: int) {
    0 <= u < |g.adjLists| && v in g.adjLists[u]
  }

  /** `p` is a walk from `s` to `t` that follows adjacency lists. */
  predicate IsWalk(g: Graph, p: seq<int>, s: int, t: int) {
    && |p| > 0 && p[0] == s && p[|p| - 1] == t
    && (forall i :: 0 <= i < |p| ==> 0 <= p[i] < |g.adjLists|)
    && (forall i :: 0 <= i < |p| - 1 ==> Adjacent(g, p[i], p[i + 1]))
  }

  ghost predicate Reachable(g: Graph, s: int, t: int) {
    exists p :: IsWalk(g, p, s, t)
  }

  /** Number of marked entries, i.e. how many vertices are visited. */
  function CountTrue(s: seq<bool>): (c: nat)
    ensures c <= |s|
  {
    if |s| == 0 then 0 else (if s[0] then 1 else 0) + CountTrue(s[1..])
  }

  lemma {:induction false} CountTrueNone(n: nat)
    ensures CountTrue(seq(n, _ => false)) == 0
  {
    if n > 0 {
      assert seq(n, _ => false)[1..] == seq(n - 1, _ => false);
      CountTrueNone(n - 1);
    }
  }

  lemma {:induction false} CountTrueMark(s: seq<bool>, i: int)
    requires 0 <= i < |s| && !s[i]
    ensures CountTrue(s[i := true]) == CountTrue(s) + 1
  {
    if i == 0 {
      assert s[i := true][1..] == s[1..];
    } else {
      assert s[i := true][1..] == s[1..][i - 1 := true];
      CountTrueMark(s[1..], i - 1);
    }
  }

  /**
   * The search's records so far: `src` is visited with no parent at level 0;
   * an unvisited vertex has no parent; every other visited vertex was
   * discovered from a visited parent whose list holds it, one level deeper;
   * and no level reaches the number of visited vertices.
   */
  ghost predicate ParentTree(g: Graph, src: int, visited: seq<bool>, parent: seq<int>, dist: seq<int>)
    requires g.WellFormed()
  {
    && |visited| == |parent| == |dist| == g.numVertices
    && g.HasVertex(src) && visited[src] && parent[src] == -1 && dist[src] == 0
    && (forall v :: 0 <= v < g.numVertices && !visited[v] ==> parent[v] == -1)
    && (forall v {:trigger parent[v]} :: 0 <= v < g.numVertices && visited[v] && v != src ==>
          && 0 <= parent[v] < g.numVertices && visited[parent[v]]
          && v in g.adjLists[parent[v]] && dist[v] == dist[parent[v]] + 1)
    && (forall v :: 0 <= v < g.numVertices && visited[v] ==> 0 <= dist[v] < CountTrue(visited))
  }

  /** Every neighbour of `u` is visited. */
  ghost predicate Closed(g: Graph, visited: seq<bool>, u: int)
    requires g.WellFormed() && |visited| == g.numVertices && g.HasVertex(u)
  {
    forall k :: 0 <= k < |g.adjLists[u]| ==> visited[g.adjLists[u][k]]
  }

  /** Every visited vertex below level `d` is closed. */
  ghost predicate ClosedBelow(g: Graph, visited: seq<bool>, dist: seq<int>, d: int)
    requires g.WellFormed() && |visited| == |dist| == g.numVertices
  {
    forall u :: 0 <= u < g.numVertices && visited[u] && dist[u] < d ==> Closed(g, visited, u)
  }

  /** Along an edge between visited vertices the level grows by at most one. */
  ghost predicate Triangle(g: Graph, visited: seq<bool>, dist: seq<int>)
    requires g.WellFormed() && |visited| == |dist| == g.numVertices
  {
    forall u, k :: 0 <= u < g.numVertices && 0 <= k < |g.adjLists[u]| && visited[u] && visited[g.adjLists[u][k]] ==>
      dist[g.adjLists[u][k]] <= dist[u] + 1
  }

  /** The queue holds visited vertices in non-decreasing level order, all at level `lo` or `lo + 1`. */
  ghost predicate Frontier(g: Graph, visited: seq<bool>, dist: seq<int>, items: seq<int>, lo: int)
    requires g.WellFormed() && |visited| == |dist| == g.numVertices
  {
    && (forall i :: 0 <= i < |items| ==> g.HasVertex(items[i]) && visited[items[i]])
    && (forall i :: 0 <= i < |items| ==> lo <= dist[items[i]] <= lo + 1)
    && (forall i, j :: 0 <= i <= j < |items| ==> dist[items[i]] <= dist[items[j]])
  }

  /** A walk out of `s` never leaves a visited set in which every vertex is closed. */
  lemma {:induction false} WalkStaysVisited(g: Graph, visited: seq<bool>, p: seq<int>, s: int, t: int)
    requires g.WellFormed() && |visited| == g.numVertices
    requires IsWalk(g, p, s, t) && visited[s]
    requires forall u :: 0 <= u < g.numVertices && visited[u] ==> Closed(g, visited, u)
    ensures visited[t]
    decreases |p|
  {
    if |p| > 1 {
      var front := p[..|p| - 1];
      var u := p[|p| - 2];
      assert IsWalk(g, front, s, u);
      WalkStaysVisited(g, visited, front, s, u);
      assert t in g.adjLists[u];
      var k :| 0 <= k < |g.adjLists[u]| && g.adjLists[u][k] == t;
    }
  }

  /**
   * A walk from `s` of at most `d` steps ends at a visited vertex whose
   * level is at most the walk's length.
   */
  lemma {:induction false} WalkLevel(g: Graph, visited: seq<bool>, dist: seq<int>, p: seq<int>, s: int, t: int, d: int)
    requires g.WellFormed() && |visited| == |dist| == g.numVertices
    requires IsWalk(g, p, s, t) && visited[s] && dist[s] == 0
    requires Triangle(g, visited, dist) && ClosedBelow(g, visited, dist, d)
    requires |p| - 1 <= d
    ensures visited[t] && dist[t] <= |p| - 1
    decreases |p|
  {
    if |p| > 1 {
      var front := p[..|p| - 1];
      var u := p[|p| - 2];
      assert IsWalk(g, front, s, u);
      WalkLevel(g, visited, dist, front, s, u, d);
      assert t in g.adjLists[u];
      var k :| 0 <= k < |g.adjLists[u]| && g.adjLists[u][k] == t;
      assert Closed(g, visited, u);
    }
  }

  lemma ClosedGrows(g: Graph, visited: seq<bool>, w: int, u: int)
    requires g.WellFormed() && |visited| == g.numVertices && g.HasVertex(w) && g.HasVertex(u)
    requires Closed(g, visited, u)
    ensures Closed(g, visited[w := true], u)
  {
  }

  /** Discovering `w` from `current` keeps the parent records consistent. */
  lemma DiscoverKeepsTree(g: Graph, src: int, current: int, w: int,
                          visited: seq<bool>, parent: seq<int>, dist: seq<int>)
    requires g.WellFormed() && ParentTree(g, src, visited, parent, dist)
    requires g.HasVertex(current) && visited[current] && g.HasVertex(w) && !visited[w]
    requires w in g.adjLists[current]
    ensures ParentTree(g, src, visited[w := true], parent[w := current], dist[w := dist[current] + 1])
    ensures CountTrue(visited[w := true]) == CountTrue(visited) + 1
  {
    CountTrueMark(visited, w);
  }

  /**
   * Discovering `w` from `current` keeps the level bound along edges, given
   * that every visited vertex listing `w` is still waiting or is `current`.
   */
  lemma DiscoverKeepsTriangle(g: Graph, current: int, w: int, visited: seq<bool>, dist: seq<int>, items: seq<int>)
    requires g.WellFormed() && |visited| == |dist| == g.numVertices && Triangle(g, visited, dist)
    requires g.HasVertex(current) && visited[current] && g.HasVertex(w) && !visited[w]
    requires Frontier(g, visited, dist, items, dist[current])
    requires forall v :: 0 <= v < g.numVertices && visited[v] ==> dist[v] <= dist[current] + 1
    requires forall u :: 0 <= u < g.numVertices && visited[u] && u !in items && u != current ==> Closed(g, visited, u)
    ensures Triangle(g, visited[w := true], dist[w := dist[current] + 1])
  {
  }

  /** Enqueueing the newly discovered `w` one level below `current` keeps the queue ordered by level. */
  lemma DiscoverKeepsFrontier(g: Graph, current: int, w: int, visited: seq<bool>, dist: seq<int>, items: seq<int>)
    requires g.WellFormed() && |visited| == |dist| == g.numVertices
    requires g.HasVertex(current) && g.HasVertex(w) && !visited[w]
    requires Frontier(g, visited, dist, items, dist[current])
    ensures Frontier(g, visited[w := true], dist[w := dist[current] + 1], items + [w], dist[current])
  {
  }

  /** After discovering and enqueueing `w`, every visited vertex out of the queue other than `current` is still closed. */
  lemma DiscoverKeepsClosed(g: Graph, current: int, w: int, visited: seq<bool>, dist: seq<int>, items: seq<int>)
    requires g.WellFormed() && |visited| == |dist| == g.numVertices
    requires g.HasVertex(w) && !visited[w]
    requires forall u :: 0 <= u < g.numVertices && visited[u] && u !in items && u != current ==> Closed(g, visited, u)
    ensures forall u :: 0 <= u < g.numVertices && visited[w := true][u] && u !in items + [w] && u != current ==>
      Closed(g, visited[w := true], u)
  {
  }

  /**
   * State between two dequeues of the outer loop while `dest` is still
   * undiscovered: parent records, level bound along edges, a queue ordered
   * by level within `lo .. lo + 1`, no level above `lo + 1`, and every
   * visited vertex that has left the queue closed.
   */
  ghost predicate Searching(g: Graph, src: int, dest: int, lo: int,
                            visited: seq<bool>, parent: seq<int>, dist: seq<int>, items: seq<int>)
    requires g.WellFormed()
  {
    && ParentTree(g, src, visited, parent, dist) && Triangle(g, visited, dist)
    && g.HasVertex(dest) && !visited[dest]
    && Frontier(g, visited, dist, items, lo)
    && (forall v :: 0 <= v < g.numVertices && visited[v] ==> dist[v] <= lo + 1)
    && (forall u :: 0 <= u < g.numVertices && visited[u] && u !in items ==> Closed(g, visited, u))
  }

  /**
   * State while the list of `current` is being scanned: as `Searching` at
   * the level of `current`, except that `current` itself need not be closed.
   */
  ghost predicate Scanning(g: Graph, src: int, dest: int, current: int,
                           visited: seq<bool>, parent: seq<int>, dist: seq<int>, items: seq<int>)
    requires g.WellFormed()
  {
    && ParentTree(g, src, visited, parent, dist) && Triangle(g, visited, dist)
    && g.HasVertex(dest) && !visited[dest]
    && g.HasVertex(current) && visited[current]
    && Frontier(g, visited, dist, items, dist[current])
    && (forall v :: 0 <= v < g.numVertices && visited[v] ==> dist[v] <= dist[current] + 1)
    && (forall u :: 0 <= u < g.numVertices && visited[u] && u !in items && u != current ==> Closed(g, visited, u))
  }

  /**
   * State once `dest` is discovered: parent records, level bound along
   * edges, and every visited vertex two or more levels above `dest` closed.
   */
  ghost predicate Discovered(g: Graph, src: int, dest: int, visited: seq<bool>, parent: seq<int>, dist: seq<int>)
    requires g.WellFormed()
  {
    && ParentTree(g, src, visited, parent, dist) && Triangle(g, visited, dist)
    && g.HasVertex(dest) && visited[dest]
    && ClosedBelow(g, visited, dist, dist[dest] - 1)
  }

  lemma SearchStarts(g: Graph, src: int, dest: int)
    requires g.WellFormed() && g.HasVertex(src) && g.HasVertex(dest) && src != dest
    ensures Searching(g, src, dest, 0, seq(g.numVertices, _ => false)[src := true],
                      seq(g.numVertices, _ => -1), seq(g.numVertices, _ => 0), [src])
    ensures CountTrue(seq(g.numVertices, _ => false)[src := true]) == 1
  {
    CountTrueNone(g.numVertices);
    CountTrueMark(seq(g.numVertices, _ => false), src);
  }

  /** Taking the front of the queue starts the scan of its list. */
  lemma DequeueStartsScan(g: Graph, src: int, dest: int, lo: int,
                          visited: seq<bool>, parent: seq<int>, dist: seq<int>, items: seq<int>)
    requires g.WellFormed() && Searching(g, src, dest, lo, visited, parent, dist, items) && |items| > 0
    ensures Scanning(g, src, dest, items[0], visited, parent, dist, items[1..])
  {
  }

  /** Discovering an unvisited neighbour other than `dest` keeps the scan state. */
  lemma ScanDiscovers(g: Graph, src: int, dest: int, current: int, w: int,
                      visited: seq<bool>, parent: seq<int>, dist: seq<int>, items: seq<int>)
    requires g.WellFormed() && Scanning(g, src, dest, current, visited, parent, dist, items)
    requires w in g.adjLists[current] && !visited[w] && w != dest
    ensures Scanning(g, src, dest, current, visited[w := true], parent[w := current],
                     dist[w := dist[current] + 1], items + [w])
    ensures CountTrue(visited[w := true]) == CountTrue(visited) + 1
  {
    DiscoverKeepsTree(g, src, current, w, visited, parent, dist);
    DiscoverKeepsFrontier(g, current, w, visited, dist, items);
    DiscoverKeepsTriangle(g, current, w, visited, dist, items);
    DiscoverKeepsClosed(g, current, w, visited, dist, items);
  }

  /**
   * Discovering `dest` from `current`: every visited vertex below the level
   * of `current` has left the queue, so it is closed.
   */
  lemma ScanFindsDest(g: Graph, src: int, dest: int, current: int,
                      visited: seq<bool>, parent: seq<int>, dist: seq<int>, items: seq<int>)
    requires g.WellFormed() && Scanning(g, src, dest, current, visited, parent, dist, items)
    requires dest in g.adjLists[current]
    ensures Discovered(g, src, dest, visited[dest := true], parent[dest := current], dist[dest := dist[current] + 1])
    ensures CountTrue(visited[dest := true]) == CountTrue(visited) + 1
  {
    DiscoverKeepsTree(g, src, current, dest, visited, parent, dist);
    DiscoverKeepsTriangle(g, current, dest, visited, dist, items);
    var visited', dist' := visited[dest := true], dist[dest := dist[current] + 1];
    forall u | 0 <= u < g.numVertices && visited'[u] && dist'[u] < dist'[dest] - 1
      ensures Closed(g, visited', u)
    {
      assert u != dest && u != current && u !in items;
      ClosedGrows(g, visited, dest, u);
    }
  }

  /** A scan that reaches the end of the list leaves `current` closed. */
  lemma ScanEnds(g: Graph, src: int, dest: int, current: int,
                 visited: seq<bool>, parent: seq<int>, dist: seq<int>, items: seq<int>)
    requires g.WellFormed() && Scanning(g, src, dest, current, visited, parent, dist, items)
    requires Closed(g, visited, current)
    ensures Searching(g, src, dest, dist[current], visited, parent, dist, items)
  {
  }

  /**
   * The inner loop of findConnection (main.c:208-223): scan the list of
   * `current` in order; mark, parent and enqueue every unvisited neighbour,
   * and stop at once when that neighbour is `dest`.
   */
  method Expand(g: Graph, src: int, dest: int, current: int,
                visited0: seq<bool>, parent0: seq<int>, queue0: Queue, ghost dist0: seq<int>)
    returns (found: bool, visited: seq<bool>, parent: seq<int>, queue: Queue, ghost dist: seq<int>)
    requires g.WellFormed() && Scanning(g, src, dest, current, visited0, parent0, dist0, queue0.items)
    ensures |queue.items| - |queue0.items| == CountTrue(visited) - CountTrue(visited0)
    ensures found ==> Discovered(g, src, dest, visited, parent, dist)
    ensures !found ==> Searching(g, src, dest, dist0[current], visited, parent, dist, queue.items)
  {
    visited, parent, queue, dist := visited0, parent0, queue0, dist0;
    found := false;
    var neighbours := g.adjLists[current];
    var j := 0;
    while j < |neighbours|
      invariant 0 <= j <= |neighbours|
      invariant Scanning(g, src, dest, current, visited, parent, dist, queue.items)
      invariant dist[current] == dist0[current]
      invariant forall k :: 0 <= k < j ==> visited[neighbours[k]]
      invariant |queue.items| - |queue0.items| == CountTrue(visited) - CountTrue(visited0)
    {
      var neighbour := neighbours[j];
      if !visited[neighbour] {
        assert neighbour in g.adjLists[current];
        if neighbour == dest {
          ScanFindsDest(g, src, dest, current, visited, parent, dist, queue.items);
        } else {
          ScanDiscovers(g, src, dest, current, neighbour, visited, parent, dist, queue.items);
        }
        visited := visited[neighbour := true];
        parent := parent[neighbour := current];
        dist := dist[neighbour := dist[current] + 1];
        queue := Enqueue(queue, neighbour);
        if neighbour == dest {
          found := true;
          return;
        }
      }
      j := j + 1;
    }
    ScanEnds(g, src, dest, current, visited, parent, dist, queue.items);
  }

  /**
   * The search of findConnection (main.c:190-224) for two distinct vertices
   * of the graph. `dequeues` counts the iterations of the outer loop.
   */
  method Search(g: Graph, src: int, dest: int)
    returns (found: bool, visited: seq<bool>, parent: seq<int>, ghost dequeues: nat, ghost dist: seq<int>)
    requires g.WellFormed() && g.HasVertex(src) && g.HasVertex(dest) && src != dest
    ensures ParentTree(g, src, visited, parent, dist)
    ensures |parent| == g.numVertices && parent[src] == -1
    ensures forall v :: 0 <= v < g.numVertices && parent[v] != -1 ==>
      visited[v] && 0 <= parent[v] < g.numVertices && v in g.adjLists[parent[v]]
    ensures found <==> visited[dest]
    ensures found ==> forall p :: IsWalk(g, p, src, dest) ==> dist[dest] < |p|
    ensures !found ==> forall p :: !IsWalk(g, p, src, dest)
    ensures dequeues <= g.numVertices
  {
    visited := seq(g.numVertices, _ => false);
    parent := seq(g.numVertices, _ => -1);
    dist := seq(g.numVertices, _ => 0);
    var queue := CreateQueue();
    SearchStarts(g, src, dest);
    visited := visited[src := true];
    queue := Enqueue(queue, src);
    found := false;
    dequeues := 0;
    ghost var lo := 0;
    while !IsEmpty(queue) && !found
      invariant found ==> Discovered(g, src, dest, visited, parent, dist)
      invariant !found ==> Searching(g, src, dest, lo, visited, parent, dist, queue.items)
      invariant |visited| == g.numVertices && dequeues + |queue.items| == CountTrue(visited)
      decreases g.numVertices - dequeues
    {
      DequeueStartsScan(g, src, dest, lo, visited, parent, dist, queue.items);
      var next := Dequeue(queue);
      var current := next.0;
      queue := next.1;
      dequeues := dequeues + 1;
      lo := dist[current];
      found, visited, parent, queue, dist := Expand(g, src, dest, current, visited, parent, queue, dist);
    }
    if found {
      forall p | IsWalk(g, p, src, dest)
        ensures dist[dest] < |p|
      {
        if |p| - 1 < dist[dest] {
          WalkLevel(g, visited, dist, p, src, dest, dist[dest] - 1);
        }
      }
    } else {
      forall p | IsWalk(g, p, src, dest)
        ensures false
      {
        WalkStaysVisited(g, visited, p, src, dest);
      }
    }
  }

  /**
   * Path reconstruction (main.c:229-237): follow `parent` from `dest` until
   * the -1 of `src`, collecting vertices into a buffer of `numVertices` slots.
   */
  method Reconstruct(g: Graph, src: int, dest: int, visited: seq<bool>, parent: seq<int>, ghost dist: seq<int>)
    returns (buffer: seq<int>)
    requires g.WellFormed() && ParentTree(g, src, visited, parent, dist)
    requires g.HasVertex(dest) && visited[dest]
    ensures |buffer| == dist[dest] + 1 <= g.numVertices
    ensures buffer[0] == dest && buffer[|buffer| - 1] == src
    ensures forall i :: 0 <= i < |buffer| ==> g.HasVertex(buffer[i])
    ensures forall i :: 0 <= i < |buffer| - 1 ==> Adjacent(g, buffer[i + 1], buffer[i])
  {
    buffer := [];
    var current := dest;
    while current != -1
      invariant current == -1 || (g.HasVertex(current) && visited[current])
      invariant current != -1 ==> |buffer| + dist[current] == dist[dest]
      invariant current == -1 ==> |buffer| == dist[dest] + 1 && buffer[|buffer| - 1] == src
      invariant |buffer| == 0 ==> current == dest
      invariant |buffer| > 0 ==> buffer[0] == dest
      invariant forall i :: 0 <= i < |buffer| ==> g.HasVertex(buffer[i]) && visited[buffer[i]]
      invariant |buffer| > 0 && current != -1 ==> current == parent[buffer[|buffer| - 1]] && buffer[|buffer| - 1] != src
      invariant forall i :: 0 <= i < |buffer| - 1 ==> Adjacent(g, buffer[i + 1], buffer[i])
      decreases if current == -1 then 0 else dist[current] + 1
    {
      buffer := buffer + [current];
      current := parent[current];
    }
  }

  function Reverse(s: seq<int>): (r: seq<int>)
    ensures |r| == |s| && forall i :: 0 <= i < |s| ==> r[i] == s[|s| - 1 - i]
  {
    seq(|s|, i requires 0 <= i < |s| => s[|s| - 1 - i])
  }

  /** The buffer read back to front is a walk from `src` to `dest`. */
  lemma ReversedBufferIsWalk(g: Graph, buffer: seq<int>, src: int, dest: int)
    requires |buffer| > 0 && buffer[0] == dest && buffer[|buffer| - 1] == src
    requires forall i :: 0 <= i < |buffer| ==> 0 <= buffer[i] < |g.adjLists|
    requires forall i :: 0 <= i < |buffer| - 1 ==> Adjacent(g, buffer[i + 1], buffer[i])
    ensures IsWalk(g, Reverse(buffer), src, dest)
  {
  }

  /**
   * The printing loop (main.c:240-242): for i from the last buffer slot down
   * to 1, the pair (buffer[i], buffer[i - 1]).
   */
  method FriendPairs(buffer: seq<int>) returns (pairs: seq<(int, int)>)
    ensures |pairs| == if |buffer| == 0 then 0 else |buffer| - 1
    ensures forall k :: 0 <= k < |pairs| ==> pairs[k] == (buffer[|buffer| - 1 - k], buffer[|buffer| - 2 - k])
  {
    pairs := [];
    var i := |buffer| - 1;
    while i > 0
      invariant 0 <= i <= |buffer| || (|buffer| == 0 && i == -1)
      invariant |pairs| == if |buffer| == 0 then 0 else |buffer| - 1 - i
      invariant forall k :: 0 <= k < |pairs| ==> pairs[k] == (buffer[|buffer| - 1 - k], buffer[|buffer| - 2 - k])
    {
      pairs := pairs + [(buffer[i], buffer[i - 1])];
      i := i - 1;
    }
  }

  /**
   * findConnection: out-of-range ids are refused before the same-person
   * case, and neither runs the search; otherwise the result is a shortest
   * walk from `src` to `dest` with its friendship pairs from `src` onwards,
   * or the report that `dest` cannot be reached.
   */
  method FindConnection(g: Graph, src: int, dest: int) returns (r: ConnectionResult)
    requires g.WellFormed()
    ensures r.OutOfRange? <==> !g.HasVertex(src) || !g.HasVertex(dest)
    ensures r.SameVertex? <==> g.HasVertex(src) && g.HasVertex(dest) && src == dest
    ensures r.Connected? <==> g.HasVertex(src) && g.HasVertex(dest) && src != dest && Reachable(g, src, dest)
    ensures r.Connected? ==> IsWalk(g, r.path, src, dest) && |r.path| <= g.numVertices
    ensures r.Connected? ==> forall p :: IsWalk(g, p, src, dest) ==> |r.path| <= |p|
    ensures r.Connected? ==> |r.pairs| == |r.path| - 1
    ensures r.Connected? ==> forall k :: 0 <= k < |r.pairs| ==> r.pairs[k] == (r.path[k], r.path[k + 1])
    ensures r.NotConnected? ==> forall p :: !IsWalk(g, p, src, dest)
  {
    if src < 0 || src >= g.numVertices || dest < 0 || dest >= g.numVertices {
      return OutOfRange;
    }
    if src == dest {
      return SameVertex;
    }
    var found, visited, parent;
    ghost var dequeues, dist;
    found, visited, parent, dequeues, dist := Search(g, src, dest);
    if found {
      var buffer := Reconstruct(g, src, dest, visited, parent, dist);
      var pairs := FriendPairs(buffer);
      var path := Reverse(buffer);
      ReversedBufferIsWalk(g, buffer, src, dest);
      r := Connected(path, pairs);
    } else {
      r := NotConnected;
    }
  }
}
