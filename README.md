# Directed graphs, heaps and Dijkstra's shortest paths, in Dafny

This project models the core of a teaching library of data structures written in
Python:

- the weighted **digraph** (`DataStructures/Graph/digraph.py`): a map from vertex
  key to a vertex record `{key, info, adjacents}`, where `adjacents` maps a
  destination key to the edge `{from, to, weight}`, plus an edge counter
  `num_edges`;
- the binary **min-heap** (`DataStructures/Priority_queue/priority_queue.py`):
  entries `{key, value}` in a growable list, ordered by key under a three-way
  comparison function, with a `size` field;
- **Dijkstra's algorithm** (`DataStructures/Algorithms/dijsktra.py`): a search
  structure holding the source, a map from vertex to `{marked, edgeTo, distTo}`
  and an indexed minimum priority queue, built by `initSearch`, advanced by
  `relax`, and read by `distTo`, `hasPathTo` and `pathTo`;
- the **stack** (`DataStructures/Stack/stack.py`) and the **queue**
  (`DataStructures/Queue/queue.py`), both thin layers over a list.

Each mutable structure is a Dafny `class` whose methods update its fields in
place: `Digraphs.Digraph`, `PriorityQueue.MinHeap`, `ShortestPaths.Search`,
`IndexedPQ.IndexMinPQ`, `Stacks.Stack` and `Queues.Queue`. Hash maps and lists
are Dafny `map`s and `seq`s. Float weights and distances are `real`. The
infinity `math.inf` is the `Inf` case of `ShortestPaths.Dist`.

The main results:

- **Digraph.** `Digraph.Valid` means that every edge joins two stored
  vertices, that it is filed under its destination in its origin's adjacency,
  and that `num_edges` equals the number of stored edges. The operations
  require only the first two parts, so they also run on a graph whose counter
  has gone stale. Each mutating operation leaves the graph valid exactly when
  it was valid before, except `insert_vertex` on a key whose record has
  out-edges, which makes the counter stale. That case is a finding (below);
  `StaleCounterDrifts` shows that the wrong count survives a later `add_edge`.
  `InsertVertexCounted` is the corrected operation, which keeps validity.
- **Heap.** `insert` and `remove` keep the list in heap order, as a permutation
  of the old contents plus or minus one entry. `remove` returns a least key.
- **Dijkstra.** On a graph with no negative weight, `Dijkstra` ends with an
  empty queue. Every edge of the graph is then relaxed: the destination's
  distance is at most the origin's distance plus the edge's weight. Every
  marked vertex other than the source is linked through `edgeTo` to a vertex
  settled before it. Two consequences are proved:
  - `pathTo` returns a chain of graph edges from the source whose weight is the
    vertex's distance;
  - no chain of graph edges from the source is lighter than that distance
    (`ShortestPathBound`).

## Model

| member | source | states |
|---|---|---|
| Digraphs.Digraph.constructor | DataStructures/Graph/digraph.py:20-23 | a new graph has no vertices and an edge counter of 0, and is valid |
| Digraphs.Digraph.InsertVertex | DataStructures/Graph/digraph.py:25-28 | as written, on any graph whose edges join stored vertices: a fresh record with empty adjacency replaces any record under the key and the counter is unchanged; a valid graph stays valid exactly when the key was new or its old record had no out-edges |
| Digraphs.InsertVertexStaleCounter | DataStructures/Graph/digraph.py:25-28 | a vertex map holding one self-loop has edge total 1, and replacing that vertex's record by a fresh one brings the total to 0 |
| Digraphs.InsertVertexStaleScenario | DataStructures/Graph/digraph.py:25-28 | end to end on a new graph (insert vertex 0, add the edge 0→0, insert vertex 0 again): the counter says 1, no edge is stored, vertex 0 holds the new record with no out-edges, and the graph is no longer valid |
| Digraphs.SelfLoopGraph | DataStructures/Graph/digraph.py:126-145 | a new graph after inserting vertex 0 and adding the edge 0→0 is valid, with one edge counted and one stored out of vertex 0 |
| Digraphs.StaleCounterDrifts | DataStructures/Graph/digraph.py:126-145 | on the graph the stale scenario leaves, adding the edge 0→0 again counts it as new: the counter says 2 while one edge is stored, so the error persists through later operations |
| Digraphs.Digraph.InsertVertexCounted | DataStructures/Graph/digraph.py:25-28 | corrected insert: the record is replaced, the counter drops by the replaced record's out-degree, and the graph is valid afterwards exactly when it was before |
| Digraphs.Digraph.UpdateVertexInfo | DataStructures/Graph/digraph.py:50-57 | reports whether the key exists; if so only that vertex's payload changes, otherwise nothing changes; edges and counter are kept, so validity is unchanged |
| Digraphs.Digraph.RemoveVertex | DataStructures/Graph/digraph.py:77-95 | absent key: nothing changes; present key: the vertex and every edge into it are gone, the counter drops by its out-degree plus its in-degree, and the graph is valid afterwards exactly when it was before |
| Digraphs.DropEdgesInto | DataStructures/Graph/digraph.py:89-93 | the scan over the remaining vertices returns the graph with every edge into the key removed and the number of edges it removed, which is the drop in edge total |
| Digraphs.DropCount | DataStructures/Graph/digraph.py:89-93 | removing the edges into a key lowers the edge total by exactly the number of vertices that had such an edge |
| Digraphs.DropEdgeTotal | DataStructures/Graph/digraph.py:89-93 | removing one vertex's edge into the key lowers the edge total by one exactly when that edge existed |
| Digraphs.PurgeWellFormed | DataStructures/Graph/digraph.py:82-93 | removing a vertex and then every edge into it leaves a graph whose edges all join stored vertices |
| Digraphs.PurgeRemove | DataStructures/Graph/digraph.py:89-93 | a vertex's adjacency loses one edge in the purge exactly when it had an edge into the key, and purging commutes with removing that vertex |
| Digraphs.EdgeTotalRemove | DataStructures/Graph/digraph.py:82-85 | removing a vertex record lowers the edge total by that record's out-degree |
| Digraphs.Digraph.AddEdge | DataStructures/Graph/digraph.py:126-145 | fails naming the first missing endpoint (origin checked first) and then changes nothing; otherwise stores the edge under its destination, replacing the weight of an existing one, counts it only if new; the graph is valid afterwards exactly when it was before |
| Digraphs.AddEdgeTotal | DataStructures/Graph/digraph.py:133-143 | storing an edge raises the edge total by one exactly when the origin had no edge to that destination |
| Digraphs.WellFormedAddEdge | DataStructures/Graph/digraph.py:133-143 | storing an edge between two stored vertices keeps every edge between stored vertices |
| Digraphs.Digraph.Order | DataStructures/Graph/digraph.py:147-151 | the number of vertex keys, which is 0 exactly for a graph without vertices |
| Digraphs.Digraph.Size | DataStructures/Graph/digraph.py:153-157 | returns the counter, which equals the number of edges stored whenever the graph is valid |
| Digraphs.Digraph.Degree | DataStructures/Graph/digraph.py:191-194 | `None` exactly for an absent vertex; otherwise the out-degree, which is at most the order, and at most the size when the graph is valid |
| Digraphs.DegreeAtMostSize | DataStructures/Graph/digraph.py:191-194 | a vertex's out-degree never exceeds the total number of edges |
| Digraphs.DegreeAtMostOrder | DataStructures/Graph/digraph.py:133-143 | since edges are filed by destination, a vertex has at most one edge per vertex, so its out-degree is at most the order |
| Digraphs.Digraph.Vertices | DataStructures/Graph/digraph.py:159-173 | every vertex key appears exactly once, and nothing else appears |
| PriorityQueue.DfltCmp | DataStructures/Priority_queue/priority_queue.py:17-31 | 1, -1 or 0 exactly when the first key is greater, smaller or equal |
| PriorityQueue.DfltCmpIsTotalPreorder | DataStructures/Priority_queue/priority_queue.py:17-31 | the default comparison is total and transitive, as the heap needs |
| PriorityQueue.MinHeap.constructor | DataStructures/Priority_queue/priority_queue.py:49-58 | a new heap is empty, its size is 0, and it keeps the given comparison |
| PriorityQueue.MinHeap.Size | DataStructures/Priority_queue/priority_queue.py:74 | the size field is the number of entries |
| PriorityQueue.MinHeap.IsEmpty | DataStructures/Priority_queue/priority_queue.py:89 | true exactly when there are no entries |
| PriorityQueue.MinHeap.GetFirstPriority | DataStructures/Priority_queue/priority_queue.py:127-133 | `None` exactly for an empty heap; otherwise a key present in the heap and no greater than any key in it |
| PriorityQueue.MinHeap.Insert | DataStructures/Priority_queue/priority_queue.py:102-113 | the heap gains exactly the new entry, the size grows by one, and heap order holds |
| PriorityQueue.MinHeap.Remove | DataStructures/Priority_queue/priority_queue.py:147-164 | an empty heap returns `None` unchanged; otherwise returns the root's key, which is no greater than any key, loses exactly the root entry, shrinks by one and stays in heap order |
| PriorityQueue.MinHeap.Swim | DataStructures/Priority_queue/priority_queue.py:177-187 | from heap order broken only above one slot, restores heap order and permutes the entries |
| PriorityQueue.MinHeap.Sink | DataStructures/Priority_queue/priority_queue.py:200-223 | from heap order broken only below one slot, restores heap order and permutes the entries |
| PriorityQueue.Smallest | DataStructures/Priority_queue/priority_queue.py:201-216 | the chosen slot is the parent or an existing child, and its key is no greater than the parent's or either child's |
| PriorityQueue.RootIsMin | DataStructures/Priority_queue/priority_queue.py:131-133 | in heap order the root's key is no greater than any entry's |
| PriorityQueue.RootIsLeast | DataStructures/Priority_queue/priority_queue.py:153-164 | the root that `remove` returns is a least entry of the heap |
| PriorityQueue.Swap | DataStructures/Priority_queue/priority_queue.py:183-185 | an exchange trades two slots, leaves every other slot alone and keeps the multiset of entries |
| PriorityQueue.SwimStep | DataStructures/Priority_queue/priority_queue.py:181-185 | one exchange of `_swim` moves the single break in heap order from a slot to its parent |
| PriorityQueue.ExceptUpHealed | DataStructures/Priority_queue/priority_queue.py:177-187 | `_swim` stops with heap order restored, at the root or at a parent that is no greater |
| PriorityQueue.SinkOnce | DataStructures/Priority_queue/priority_queue.py:219-221 | one exchange of `_sink` moves the single break in heap order from a slot down to its smaller child |
| PriorityQueue.SinkDone | DataStructures/Priority_queue/priority_queue.py:222-223 | `_sink` stops with heap order restored once the slot is no greater than its children |
| PriorityQueue.RemoveLastIntoRoot | DataStructures/Priority_queue/priority_queue.py:154-158 | moving the last entry into the root and dropping the last slot loses exactly the root |
| PriorityQueue.LastIntoRootOrder | DataStructures/Priority_queue/priority_queue.py:154-162 | after the move, heap order is broken only below the root, which is what `_sink` repairs |
| PriorityQueue.RemoveSlotsAsWritten | DataStructures/Priority_queue/priority_queue.py:154-160 | as written: the list keeps its length, the last live slot becomes `None`, the last entry moves to the root, and the size drops by one |
| PriorityQueue.InsertSlotsAsWritten | DataStructures/Priority_queue/priority_queue.py:109-111 | as written: the entry is appended after the list's last slot, wherever the size is |
| PriorityQueue.RemoveThenInsertAsWritten | DataStructures/Priority_queue/priority_queue.py:156-158 | after `remove` then `insert` on a full list, the live slots end with `None` and the new entry lies beyond them |
| PriorityQueue.RemoveThenInsertCounterexample | DataStructures/Priority_queue/priority_queue.py:156-158 | one entry removed, then one inserted: the size is 1 and the only live slot is `None` |
| IndexedPQ.IndexMinPQ.constructor | DataStructures/Algorithms/dijsktra.py:207-210 | a new indexed queue holds no key |
| IndexedPQ.IndexMinPQ.IsEmpty | DataStructures/Algorithms/dijsktra.py:54 | true exactly when no key is queued |
| IndexedPQ.IndexMinPQ.Contains | DataStructures/Algorithms/dijsktra.py:90 | true exactly when the key is queued |
| IndexedPQ.IndexMinPQ.Insert | DataStructures/Algorithms/dijsktra.py:93 | an absent key joins with its priority; nothing else changes |
| IndexedPQ.IndexMinPQ.DecreaseKey | DataStructures/Algorithms/dijsktra.py:91 | a queued key gets a strictly smaller priority; nothing else changes |
| IndexedPQ.IndexMinPQ.DelMin | DataStructures/Algorithms/dijsktra.py:55 | returns a key of least priority and removes exactly that key |
| IndexedPQ.MinKeyExists | DataStructures/Algorithms/dijsktra.py:54-55 | a non-empty queue has a key of least priority, so `delMin` can always answer |
| ShortestPaths.Initial | DataStructures/Algorithms/dijsktra.py:197-206 | the initial records cover the graph's vertices and the source |
| ShortestPaths.Search.constructor | DataStructures/Algorithms/dijsktra.py:187-212 | every listed vertex is unmarked, unlinked and at infinity; the source is marked at 0; the queue holds only the source, at priority 0 |
| ShortestPaths.InitSearch | DataStructures/Algorithms/dijsktra.py:173-214 | builds that initial search over the graph's vertex keys |
| ShortestPaths.RelaxStep | DataStructures/Algorithms/dijsktra.py:78-93 | relaxing an edge changes at most its destination's record, never raises a distance, leaves the destination no farther than origin plus weight, and changes something exactly when the path through the edge is strictly shorter |
| ShortestPaths.Search.Relax | DataStructures/Algorithms/dijsktra.py:78-94 | `relax` updates the records and the queue as `RelaxStep` says (decrease-key when queued, insert otherwise), keeping records and queue consistent |
| ShortestPaths.RelaxSparesSettled | DataStructures/Algorithms/dijsktra.py:84-93 | with non-negative weights, an edge from the vertex just settled that shortens a path never leads to a settled vertex, to the source or back to that vertex |
| ShortestPaths.RelaxLinkage | DataStructures/Algorithms/dijsktra.py:86-89 | the new `edgeTo` links the destination to a settled vertex |
| ShortestPaths.RelaxKeepsInv | DataStructures/Algorithms/dijsktra.py:78-93 | relaxing an edge of the vertex being settled preserves the search invariant |
| ShortestPaths.RelaxAll | DataStructures/Algorithms/dijsktra.py:58-59 | `relax` applied to each listed edge in turn keeps the same vertices and never raises a distance |
| ShortestPaths.RelaxAllSnoc | DataStructures/Algorithms/dijsktra.py:58-59 | relaxing one more edge of the list is one more `RelaxStep` after the fold of the edges before it |
| ShortestPaths.Search.RelaxEdges | DataStructures/Algorithms/dijsktra.py:57-59 | the records and the queue become `RelaxAll` of the old ones over the listed edges, in list order; the invariant holds and all of the settled vertex's edges are relaxed |
| ShortestPaths.AdjacentInVisited | DataStructures/Algorithms/dijsktra.py:56-59 | every edge leaving a vertex of the graph leads between vertices that have records, so `relax` can look both up |
| ShortestPaths.ListedFinish | DataStructures/Algorithms/dijsktra.py:57-59 | once every edge leaving the settled vertex is listed and relaxed, the invariant holds with nothing pending |
| ShortestPaths.FinishKeepsInv | DataStructures/Algorithms/dijsktra.py:56-59 | once all of the settled vertex's edges are relaxed, the invariant holds with nothing pending |
| ShortestPaths.PopSettled | DataStructures/Algorithms/dijsktra.py:55 | the vertex `delMin` returns is unsettled, at a finite distance equal to its priority and no smaller than the last one; once ranked, every settled vertex is no farther than it and every queued priority is at least it |
| ShortestPaths.PopKeepsInv | DataStructures/Algorithms/dijsktra.py:55 | `delMin` of a least-distance vertex, which is then settled, preserves the invariant |
| ShortestPaths.Search.Settle | DataStructures/Algorithms/dijsktra.py:55 | removes exactly a least-priority vertex, whose priority is its distance; the records are unchanged, and the vertex, not settled before, gets the next rank |
| ShortestPaths.AdjacentEdges | DataStructures/Algorithms/dijsktra.py:56 | `None` exactly for a non-vertex; otherwise exactly the edges leaving the vertex |
| ShortestPaths.Search.Round | DataStructures/Algorithms/dijsktra.py:54-59 | one round of the main loop removes a least-priority vertex `v`. The records and queue become `RelaxAll` over `v`'s out-edges (none if `v` is not a vertex), starting from the old records and the queue without `v`. `v` gets the next rank, the invariant holds, and no more vertices are settled than exist |
| ShortestPaths.InitialInv | DataStructures/Algorithms/dijsktra.py:197-211 | the state `initSearch` builds satisfies the search invariant |
| ShortestPaths.Dijkstra | DataStructures/Algorithms/dijsktra.py:40-62 | with no negative weight: terminates with an empty queue, a record for every vertex and the source, every marked vertex traced back to the source, and every edge relaxed |
| ShortestPaths.DoneIsTracedAndRelaxed | DataStructures/Algorithms/dijsktra.py:54 | when the queue is empty, the marked vertices are exactly the settled ones, each is linked back, and every edge is relaxed |
| ShortestPaths.ChainBound | DataStructures/Algorithms/dijsktra.py:54-59 | along any chain of graph edges, the end's distance is at most the start's distance plus the chain's weight |
| ShortestPaths.ShortestPathBound | DataStructures/Algorithms/dijsktra.py:54-59 | in a finished search no chain of graph edges from the source to a vertex weighs less than its distance |
| ShortestPaths.Search.DistTo | DataStructures/Algorithms/dijsktra.py:113-116 | infinity for an unknown vertex, the recorded distance otherwise |
| ShortestPaths.Search.HasPathTo | DataStructures/Algorithms/dijsktra.py:134-137 | true exactly when the vertex's distance is finite |
| ShortestPaths.Search.PathTo | DataStructures/Algorithms/dijsktra.py:155-163 | `None` exactly when there is no path; otherwise a new stack whose pop order is a chain of graph edges from the source to the vertex weighing exactly its distance |
| ShortestPaths.StepBack | DataStructures/Algorithms/dijsktra.py:158-162 | following `edgeTo` from a settled vertex other than the source reaches a vertex settled earlier, and extends the popped chain by one edge |
| ShortestPaths.PushEdge | DataStructures/Algorithms/dijsktra.py:161 | pushing the edge into the current vertex puts it at the front of the pop order and adds its weight |
| ShortestPaths.Reversed | DataStructures/Algorithms/dijsktra.py:157-163 | a stack's pop order is its push order reversed |
| Stacks.Stack.constructor | DataStructures/Stack/stack.py:55 | a new stack is empty |
| Stacks.Stack.Push | DataStructures/Stack/stack.py:74-75 | the element becomes the top and the elements below are untouched |
| Stacks.Stack.Pop | DataStructures/Stack/stack.py:93-96 | on an empty stack fails and changes nothing; otherwise returns the top and removes only it |
| Stacks.Stack.Top | DataStructures/Stack/stack.py:132 | the element last pushed and not yet popped |
| Stacks.Stack.IsEmpty | DataStructures/Stack/stack.py:114 | true exactly when the size is 0 |
| Stacks.Stack.Size | DataStructures/Stack/stack.py:149 | 0 exactly for an empty stack |
| Stacks.Stack.PushThenPop | DataStructures/Stack/stack.py:74-94 | a push then a pop returns the pushed element and restores the stack |
| Queues.Queue.constructor | DataStructures/Queue/queue.py:25 | a new queue is empty |
| Queues.Queue.Enqueue | DataStructures/Queue/queue.py:41-42 | the element joins at the back and the elements before it are untouched |
| Queues.Queue.Dequeue | DataStructures/Queue/queue.py:57 | returns the front element and removes only it |
| Queues.Queue.Peek | DataStructures/Queue/queue.py:72 | the front element, which stays in the queue |
| Queues.Queue.IsEmpty | DataStructures/Queue/queue.py:87 | true exactly when the size is 0 |
| Queues.Queue.Size | DataStructures/Queue/queue.py:103 | 0 exactly for an empty queue |
| Queues.Queue.EnqueueThenDrain | DataStructures/Queue/queue.py:41-57 | first in, first out, on any queue: after enqueuing `x`, dequeuing everything returns the elements already queued, in order, then `x`, and leaves the queue empty |

## Left out

- Floating point: weights and distances are exact reals, so rounding is not modelled. `math.inf` is `Dist.Inf`, and adding a weight to it gives `Inf`, as float addition does.
- Hash tables: maps are Dafny `map`s, so linear probing, load factors and rehashing are not modelled. `new_graph`'s `order` argument only sizes the table and has no effect here.
- Error wrappers: every `error.reraise` or `error_handler` becomes one of three things: a `Result` or `Outcome` value (`pop`, `add_edge`), an `Option` (`get_first_priority`, `remove`, `degree`, `pathTo`), or a precondition (below). The messages they attach are not modelled.
- The list layer is not part of this model. `list.py` picks a backend module by name, and the single-linked and array lists behind it are unseen. A stack and a queue are sequences, so the `cmpfunction`, `module`, `key`, `filename` and `delim` arguments of `new_stack` and `new_queue` are left out. The `sys.path` set-up is left out too.
- The map, vertex and edge modules are not part of this model. Entries are read as plain values, whether `dijsktra.py` reads them through `['value']` or `digraph.py` reads them directly. `new_vertex` is taken to build a record with an empty adjacency.
- `map.remove` is taken to return a value exactly when the key was present, which is what `remove_vertex`'s counter relies on. `Digraph.RemoveVertex` returns a flag where the source returns the graph or `None`.
- The graph module that `dijsktra.py` imports (`DataStructures.Graph.graph`, line 33) is not part of this model. The search runs on `Digraphs.Digraph` instead: `g.vertices` (line 197) is `Digraph.Vertices`, and `g.adjacent_edges` (line 56) is `ShortestPaths.AdjacentEdges`. `initSearch` also reads `g.numVertices` (line 193), which only sizes the `visited` table, and `graph['cmpfunction']` (lines 195 and 208), which the `visited` map and the priority queue compare keys with. Both are left out: the model's maps and queue compare keys by equality, so a custom key comparison is not modelled. A record built by `digraph.py`'s `new_graph` has no `cmpfunction` field, so the source would fail at line 195 if handed such a graph; the model assumes a graph module that supplies one.
- The `indexminpq` module is not part of this model. `IndexedPQ.IndexMinPQ` specifies only what the search uses, over a map from key to priority. Ties among equal priorities are resolved arbitrarily.
- Stacks.Stack.Top: requires a non-empty stack. On an empty stack the answer comes from the unseen list module.
- Queues.Queue.Peek: requires a non-empty queue, for the same reason.
- Queues.Queue.Dequeue: requires a non-empty queue, for the same reason.
- A stack or queue reference that is `None` cannot occur, because references are class objects.
- IndexedPQ.IndexMinPQ.Insert: requires an absent key. This is the only way the search calls it; the duplicate-key failure is not modelled.
- IndexedPQ.IndexMinPQ.DecreaseKey: requires a strictly smaller priority, as the search guarantees; the invalid-update failure is not modelled.
- ShortestPaths.Dijkstra: requires no negative edge weight, and that every edge joins two vertices. It does not require the edge counter to be right, because the search never reads it. With negative weights the search may settle a vertex too early or fail to terminate, and the model says nothing about that case.
- ShortestPaths.Search.Relax: requires both endpoints to have records. `Dijkstra` guarantees this, because every edge joins two vertices. It also makes `relax`'s `visited_w is None` test unreachable; the lookup before that test would fail first anyway.
- ShortestPaths.Search.PathTo: requires a finished search (`Traced`), which is what `Dijkstra` returns. On a half-finished search the model says nothing.
- `add_edge`'s default weight of 1.0 is not modelled: `Digraph.AddEdge` always takes the weight as an argument.
- `Digraph.Vertices` returns the keys in an unspecified order, where the source uses hash-table order.
- `update_vertex_info` and `add_edge` mutate a shared record in place. The model replaces the record in the map by value, so aliasing between records is not modelled.
- PriorityQueue.MinHeap.constructor: takes the comparison function as an argument, which must be a total preorder. `DfltCmp` compares reals only. So `new_heap`'s `None` default corresponds to passing `DfltCmp` only for real keys; Python's `>` and `<` on other key types are not modelled.
- PriorityQueue.MinHeap.Remove: models the corrected `remove` of the second finding. The class keeps `|elements| == size`, so `MinHeap.Insert` after `MinHeap.Remove` is the corrected behaviour. The as-written list, with its trailing `None` slot, is modelled only by the slot functions `RemoveSlotsAsWritten` and `InsertSlotsAsWritten`.
- The as-written slot functions of the heap leave out `_sink` and `_swim`. They only show where entries and `None` go in the list.
- `ShortestPaths.Search.rank` is a ghost numbering of settled vertices used in the proofs. It has no counterpart in the source.

## Findings

| source | as written | input that shows it | evidently intended | confidence | as-written member | corrected member |
|---|---|---|---|---|---|---|
| DataStructures/Graph/digraph.py:25-28 | `insert_vertex` on an existing key stores a new record with no out-edges and leaves `num_edges` alone, so the counter still counts the dropped edges | a graph with vertex 0 and a self-loop 0→0 (`num_edges` 1), then `insert_vertex(g, 0, "b")`: no edge is stored but `size` says 1 | the counter drops by the out-degree of the replaced record, so `size` stays the number of edges | not executed | Digraphs.Digraph.InsertVertex, Digraphs.InsertVertexStaleScenario | Digraphs.Digraph.InsertVertexCounted |
| DataStructures/Priority_queue/priority_queue.py:156-158 | `remove` writes `None` into slot `size-1` but keeps the list length; `insert` (line 109) then appends after the list's end while `size` and `_swim` use slot `size-1` | a heap holding one entry: `remove`, then `insert(heap, 2.0, "b")`; the list is `[None, b]` with `size` 1, so `get_first_priority` reads `None["key"]` | `remove` drops the last slot, so the list length stays equal to `size` and the heap order covers every entry | not executed | PriorityQueue.RemoveThenInsertAsWritten, PriorityQueue.RemoveThenInsertCounterexample | PriorityQueue.MinHeap.Remove |
