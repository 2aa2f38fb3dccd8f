# Friendship graph and connection search

This Dafny project models the core of a small social-network program
(`main.c`). People are vertices `0 .. numVertices - 1`. Friendships are
undirected edges kept in per-person adjacency lists, with the newest friend
first. The program answers two queries:

- the friend list of one person;
- a connection between two people, found by breadth-first search (BFS) and
  printed as a chain of "X is friends with Y" pairs.

Modules:

- `Graphs` (`graph.dfy`) models `createGraph` and `addEdge`. It also models
  the edge-reading loop of `loadGraphFromFile` as a left fold (`LoadEdges`),
  and `displayFriendList` as a method that returns a `FriendReport` instead
  of printing. The linked `Node` lists are `seq<int>`, head first.
- `Queues` (`queue.dfy`) models the BFS queue: `createQueue`, `enqueue`,
  `dequeue` (which returns -1 when the queue is empty) and `isEmpty`. The
  queue is a `seq<int>`, front first. `Drain` is the dequeue-until-empty
  loop of `freeQueue`.
- `Connection` (`connection.dfy`) models `findConnection`:
  - the range check and the same-person check;
  - the search over `visited`/`parent` arrays, which stops the moment `dest`
    is discovered (`Search`, with the inner neighbour loop in `Expand`);
  - the walk back along `parent` into a buffer (`Reconstruct`);
  - the pairs printed from that buffer (`FriendPairs`).

  Each `printf` branch becomes one case of `ConnectionResult`: `OutOfRange`,
  `SameVertex`, `Connected(path, pairs)` or `NotConnected`.
- `Scenarios` (`scenarios.dfy`) works through two small graphs: the chain
  0-1-2-3, and three people where only 0 and 1 are friends.

A walk (`IsWalk`) is a non-empty sequence of vertex ids in which each entry
lies on the adjacency list of the entry before it. `Reachable` means that
some walk exists. The search is proved correct for any well-formed graph,
whether or not the graph is symmetric. The proof uses a ghost level `dist`
for each visited vertex and three facts:

- the level grows by at most one along any edge between visited vertices
  (`Triangle`);
- the queue holds levels `lo` or `lo + 1`, in non-decreasing order
  (`Frontier`);
- every visited vertex that has left the queue has all its neighbours
  visited (`Closed`).

## Model

| member | source | states |
|---|---|---|
| `Graphs.CreateGraph` | main.c:54-65 | For `vertices >= 0`: the graph has `vertices` vertices and that many lists, all empty. It is well-formed and symmetric. |
| `Graphs.AddEdge` | main.c:68-78 | `dest` goes to the head of `src`'s list and `src` to the head of `dest`'s list. A self-friendship puts `src` twice at the head of its own list. Every other list is unchanged, and all ids stay in range. |
| `Graphs.AddEdgeCount` | main.c:68-78 | After adding `src`-`dest`, `u` lists `v` once more for each orientation of the new edge that joins `u` to `v`. All other counts are unchanged. |
| `Graphs.AddEdgePreservesSymmetry` | main.c:68-78 | Adding an edge to a symmetric graph leaves it symmetric: `u` lists `v` exactly as often as `v` lists `u`, counting parallel edges. |
| `Graphs.LoadEdges` | main.c:91-98 | Folding `addEdge` over in-range edges, starting from `createGraph(n)`, gives a well-formed, symmetric graph with `n` vertices. |
| `Graphs.AddEdgeList` | main.c:68-78 | Adding edge `e` puts exactly the ids `e` contributes to `v` at the head of `v`'s list, in front of the old list. |
| `Graphs.LoadedLists` | main.c:91-98 | In a loaded graph, each person's list equals the reference list `NeighboursFrom`: the friends contributed by each edge, newest edge first. |
| `Graphs.DegreeSnoc` | main.c:94-98 | The endpoint count over an edge list equals the count over all but the last edge, plus the last edge's endpoints at `v`. |
| `Graphs.FriendCountIsDegree` | main.c:116-123 | In a loaded graph, the length of a person's list equals the number of edge endpoints at that person. Parallel edges count each time, and a self-friendship counts twice. |
| `Graphs.DisplayFriendList` | main.c:105-136 | An id outside `[0, numVertices)` is refused before any list is read. Otherwise the friend count is the length of the list, and the reported ids are the list's contents in list order. |
| `Queues.CreateQueue` | main.c:139-143 | A new queue is empty. |
| `Queues.IsEmpty` | main.c:174-176 | True exactly when no vertex is waiting. |
| `Queues.Enqueue` | main.c:145-157 | The new vertex is the last element. Everything already queued keeps its place in front of it. |
| `Queues.Dequeue` | main.c:159-172 | On an empty queue the result is -1 and the queue is unchanged. Otherwise the result is the oldest element, and the rest of the queue is everything behind it. |
| `Queues.EnqueueAllAppends` | main.c:145-157 | Enqueueing a sequence appends it, in order, behind the current contents. |
| `Queues.Drain` | main.c:255-257 | Dequeueing until `isEmpty` hands back exactly as many values as were waiting, and nothing at all from an empty queue. `DrainInOrder` adds that they come out front first. |
| `Queues.DrainInOrder` | main.c:254-259 | Dequeueing until `isEmpty` returns every element exactly once, front first. |
| `Queues.Fifo` | main.c:145-176 | Values leave the queue in the order they entered. Elements queued earlier come out before elements queued later, and nothing is lost or repeated. |
| `Queues.DequeueAfterEnqueue` | main.c:145-172 | Enqueue followed by dequeue: on a non-empty queue the old front leaves and the new vertex waits at the rear. On an empty queue the new vertex leaves at once. |
| `Connection.CountTrueMark` | main.c:212-213 | Marking an unvisited vertex adds exactly one to the number of visited vertices. |
| `Connection.SearchStarts` | main.c:194-201 | After initialisation only `src` is visited. `src` is at level 0 with parent -1, no other vertex has a parent, and the queue holds just `src`. |
| `Connection.DequeueStartsScan` | main.c:205-208 | Dequeueing the front vertex gives a valid start for scanning its list. The rest of the queue is within one level of it. |
| `Connection.DiscoverKeepsTree` | main.c:212-215 | Marking an unvisited neighbour and setting its parent to `current` keeps the parent records consistent. The new vertex is visited, is on its parent's list, and sits one level below that parent. |
| `Connection.DiscoverKeepsTriangle` | main.c:212-215 | Discovering a vertex one level below `current` keeps the bound that levels grow by at most one along any edge between visited vertices. |
| `Connection.DiscoverKeepsFrontier` | main.c:212-215 | Enqueueing the newly discovered vertex keeps the queue ordered by level, with every level within `lo .. lo + 1`. |
| `Connection.DiscoverKeepsClosed` | main.c:212-215 | After a discovery, every visited vertex other than `current` that is no longer queued still has all its neighbours visited. |
| `Connection.ScanDiscovers` | main.c:212-216 | Discovering a neighbour other than `dest` keeps the scan state, and the visited count goes up by one. |
| `Connection.ScanFindsDest` | main.c:212-220 | When `dest` is discovered, every visited vertex more than one level above `dest` already has all its neighbours visited. |
| `Connection.ScanEnds` | main.c:209-223 | Once `current`'s whole list has been scanned, `current` is closed and the outer-loop state holds again. |
| `Connection.Expand` | main.c:208-223 | Scanning `current`'s list in order either discovers `dest`, with the shortest-path facts established, or closes `current`. The queue grows by exactly the number of newly visited vertices. |
| `Connection.WalkStaysVisited` | main.c:245-246 | If `src` is visited and every visited vertex is closed, every walk from `src` ends at a visited vertex. |
| `Connection.WalkLevel` | main.c:205-224 | If every visited vertex below level `d` is closed, a walk from `src` of at most `d` steps ends at a visited vertex. That vertex's level is at most the walk's length. |
| `Connection.Search` | main.c:190-224 | The loop dequeues at most `numVertices` times, and `parent[src]` stays -1. Each vertex with a parent is visited and appears on its parent's list. `dest` is visited exactly when it was found. If found, every walk from `src` to `dest` has more than `dist[dest]` entries. If not found, no walk from `src` to `dest` exists. |
| `Connection.Reconstruct` | main.c:229-237 | Following `parent` from `dest` reaches `src` and fills at most `numVertices` buffer slots. The buffer runs from `dest` to `src`, and each entry is on the list of the entry after it. |
| `Connection.ReversedBufferIsWalk` | main.c:239-242 | Read back to front, the buffer is a walk from `src` to `dest`. |
| `Connection.FriendPairs` | main.c:240-242 | The printed pairs are (`buffer[i]`, `buffer[i-1]`) for `i` from the last slot down to 1. There is one pair fewer than there are buffer entries. |
| `Connection.FindConnection` | main.c:179-252 | An out-of-range id gives `OutOfRange`, even when the two ids are equal. Equal in-range ids give `SameVertex`. Neither case runs the search. Otherwise the result is `Connected` exactly when `dest` is reachable. The path is then a shortest walk from `src` to `dest`, no longer than `numVertices`, and its pairs run from `src` toward `dest`. `NotConnected` means that no walk exists. |
| `Scenarios.ChainNeighbours` | main.c:91-98 | Loading edges 0-1, 1-2, 2-3 gives the reference lists `[1]`, `[2, 0]`, `[3, 1]`, `[2]`. |
| `Scenarios.ChainLoaded` | main.c:91-98 | Loading the chain 0-1, 1-2, 2-3 gives the lists `[1]`, `[2, 0]`, `[3, 1]`, `[2]`. |
| `Scenarios.ChainWalk` | main.c:179-252 | In the chain, the only walk from 0 to 3 with at most four entries is 0, 1, 2, 3. |
| `Scenarios.ChainReachable` | main.c:179-252 | In the chain, 3 is reachable from 0. |
| `Scenarios.ChainResult` | main.c:179-252 | In the chain, any result meeting the search's contract for 0 to 3 is the path 0, 1, 2, 3 with pairs (0,1), (1,2), (2,3). |
| `Scenarios.ChainFriendsOfOne` | main.c:105-136 | In the chain, person 1 has 2 friends, listed as 2 then 0. |
| `Scenarios.ChainConnection` | main.c:179-252 | In the chain, the connection from 0 to 3 is 0, 1, 2, 3, printed as (0,1), (1,2), (2,3). |
| `Scenarios.NoConnection` | main.c:245-246 | With three people and only the friendship 0-1, there is no connection from 0 to 2. |

## Left out

- Opening the file, `fscanf` of the two counts and of each edge, and
  building the `data/` path (main.c:81-90, 100-102, 293-299) are I/O. The
  model starts from already-parsed values: a vertex count and an edge list.
- The interactive menu and the `scanf` dispatch loop (main.c:262-268,
  306-333) are console I/O.
- `printf` text is not modelled. Results are `FriendReport` and
  `ConnectionResult` values, and the printed lines are the `pairs` sequence.
- `malloc`/`free`, `createNode`, `freeGraph` and the freeing part of
  `freeQueue` (main.c:46-51, 254-259, 271-285) are memory management.
  Sequences replace the linked lists.
- Graphs.CreateGraph: a negative vertex count is a precondition. The source
  does not check it and passes it straight to `malloc` (main.c:57).
- Graphs.AddEdge: an out-of-range endpoint is a precondition. The source
  writes through unchecked indices (main.c:71-77). A loaded graph therefore
  needs every edge in range (`EdgesWithin`). No `InvalidSize` or
  `OutOfRange` load error is modelled, because the code never produces one.
- Connection.Search: it is stated for graphs whose stored ids are all in
  range (`WellFormed`). This holds for every graph built by `LoadEdges`, and
  the source would index `visited` out of bounds otherwise.
- C `int` is 32 bits wide, but ids and counts here are unbounded integers.
  Counts are bounded by list lengths, so 32-bit overflow is not modelled.
- The printed pairs run from `src` toward `dest`: `path[0]` is `dest` in the
  C buffer, and the loop at main.c:240-242 runs `i` downward.
