/**
 * The BFS work queue of main.c. The linked `QueueNode` list with its
 * `front`/`rear` pointers becomes the sequence of waiting vertices, front
 * first.
 */
module Queues {

  /** What dequeue hands back when there is nothing to dequeue. */
  const NoVertex: int := -1

  datatype Queue = Queue(items: seq<int>)

  /** createQueue: nothing waiting. */
  function CreateQueue(): (q: Queue)
    ensures IsEmpty(q)
  {
    Queue([])
  }

  /** isEmpty: true when the front pointer is null. */
  predicate IsEmpty(q: Queue)
    ensures IsEmpty(q) <==> q.items == []
  {
    |q.items| == 0
  }

  /** enqueue: link a new node behind the rear. */
  function Enqueue(q: Queue, vertex: int): (r: Queue)
    ensures |r.items| == |q.items| + 1 && r.items[|q.items|] == vertex
    ensures r.items[..|q.items|] == q.items
  {
    Queue(q.items + [vertex])
  }

  /**
   * dequeue: unlink the front node and return its vertex; on an empty queue
   * return `NoVertex` and change nothing.
   */
  function Dequeue(q: Queue): (r: (int, Queue))
    ensures IsEmpty(q) ==> r == (NoVertex, q)
    ensures !IsEmpty(q) ==> r.0 == q.items[0] && [r.0] + r.1.items == q.items
  {
    if IsEmpty(q) then (NoVertex, q) else (q.items[0], Queue(q.items[1..]))
  }

  /** Enqueue each of `xs` in turn. */
  function EnqueueAll(q: Queue, xs: seq<int>): Queue
    decreases |xs|
  {
    if |xs| == 0 then q else EnqueueAll(Enqueue(q, xs[0]), xs[1..])
  }

  /**
   * The loop of freeQueue: dequeue until isEmpty, collecting what comes out
   * in the order it comes out.
   */
  function Drain(q: Queue): (r: seq<int>)
    ensures |r| == |q.items|
    ensures r == [] <==> IsEmpty(q)
    decreases |q.items|
  {
    if IsEmpty(q) then [] else var (v, rest) := Dequeue(q); [v] + Drain(rest)
  }

  lemma {:induction false} EnqueueAllAppends(q: Queue, xs: seq<int>)
    ensures EnqueueAll(q, xs).items == q.items + xs
    decreases |xs|
  {
    if |xs| > 0 {
      EnqueueAllAppends(Enqueue(q, xs[0]), xs[1..]);
      assert q.items + [xs[0]] + xs[1..] == q.items + xs;
    }
  }

  lemma {:induction false} DrainInOrder(q: Queue)
    ensures Drain(q) == q.items
    decreases |q.items|
  {
    if !IsEmpty(q) {
      DrainInOrder(Dequeue(q).1);
    }
  }

  /**
   * FIFO: whatever was waiting comes out first, then the enqueued values in
   * the order they went in; nothing is lost, repeated or reordered.
   */
  lemma Fifo(q: Queue, xs: seq<int>)
    ensures Drain(EnqueueAll(q, xs)) == q.items + xs
  {
    EnqueueAllAppends(q, xs);
    DrainInOrder(EnqueueAll(q, xs));
  }

  /**
   * Dequeue after enqueue: on a non-empty queue the oldest element leaves
   * and the new one waits at the rear; on an empty one the new element
   * leaves at once.
   */
  lemma DequeueAfterEnqueue(q: Queue, vertex: int)
    ensures !IsEmpty(q) ==> Dequeue(Enqueue(q, vertex)) == (q.items[0], Enqueue(Dequeue(q).1, vertex))
    ensures IsEmpty(q) ==> Dequeue(Enqueue(q, vertex)) == (vertex, q)
  {
    if !IsEmpty(q) {
      assert (q.items + [vertex])[1..] == q.items[1..] + [vertex];
    }
  }
}
