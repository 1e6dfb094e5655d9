/**
 * The shortest-path search of `dijsktra.py` over the digraph: per-vertex
 * records `{marked, edgeTo, distTo}`, an indexed minimum priority queue of the
 * vertices still to settle, and the queries on the finished search.
 */
module ShortestPaths {
  import opened Wrappers
  import opened Digraphs
  import opened IndexedPQ
  import opened Stacks

  /** A distance: a real number, or the infinity that stands for "not reached". */
  datatype Dist = Fin(d: real) | Inf

  /** A distance plus an edge weight; infinity stays infinity. */
  function Add(a: Dist, w: real): Dist {
    if a.Inf? then Inf else Fin(a.d + w)
  }

  /** `a < b`, every real being below infinity. */
  predicate Less(a: Dist, b: Dist) {
    a.Fin? && (b.Inf? || a.d < b.d)
  }

  /** `a <= b`, every real being below infinity. */
  predicate AtMost(a: Dist, b: Dist) {
    !Less(b, a)
  }

  /** The per-vertex record of the search. */
  datatype Visit<K> = Visit(marked: bool, edgeTo: Option<Edge<K>>, distTo: Dist)

  /** `either`: the vertex an edge leaves. */
  function Either<K>(e: Edge<K>): K {
    e.from
  }

  /** `other`: the endpoint of `e` that is not `v`. */
  function Other<K(==)>(e: Edge<K>, v: K): K {
    if v == e.from then e.to else e.from
  }

  /** `e` is stored in the graph, in the adjacency of its origin under its destination. */
  ghost predicate IsEdge<K, I>(vs: map<K, Vertex<K, I>>, e: Edge<K>) {
    e.from in vs && e.to in vs[e.from].adjacents && vs[e.from].adjacents[e.to] == e
  }

  /** No edge of the graph has a negative weight. */
  ghost predicate NonNegative<K, I>(vs: map<K, Vertex<K, I>>) {
    forall u, v :: u in vs && v in vs[u].adjacents ==> vs[u].adjacents[v].weight >= 0.0
  }

  /** `es` leads from `a` to `b`: each edge leaves the vertex the previous one reached. */
  ghost predicate Chain<K>(es: seq<Edge<K>>, a: K, b: K)
    decreases |es|
  {
    if es == [] then a == b else es[0].from == a && Chain(es[1..], es[0].to, b)
  }

  /** The total weight of a sequence of edges. */
  function Weight<K>(es: seq<Edge<K>>): real
    decreases |es|
  {
    if es == [] then 0.0 else es[0].weight + Weight(es[1..])
  }

  /** A sequence read from the back: the order in which a stack's elements are popped. */
  function Reversed<T>(s: seq<T>): (r: seq<T>)
    ensures |r| == |s|
    ensures forall i :: 0 <= i < |s| ==> r[i] == s[|s| - 1 - i]
  {
    if s == [] then [] else [s[|s| - 1]] + Reversed(s[..|s| - 1])
  }

  /** The records `initSearch` builds: every vertex unreached, then the source at distance 0. */
  function Initial<K>(keys: set<K>, source: K): (m: map<K, Visit<K>>)
    ensures m.Keys == keys + {source}
  {
    (map k | k in keys :: Visit(false, None, Inf))[source := Visit(true, None, Fin(0.0))]
  }

  /**
   * The records and the queue after `relax(e)`: when the path through `e` is
   * shorter, `e`'s destination is marked, reached through `e`, and queued with
   * its new distance (by `decreaseKey` if already queued, by `insert` if not).
   */
  function RelaxStep<K>(visited: map<K, Visit<K>>, pq: map<K, real>, e: Edge<K>): (r: (map<K, Visit<K>>, map<K, real>))
    requires e.from in visited && e.to in visited
    ensures r.0.Keys == visited.Keys
    ensures forall k :: k in visited ==> AtMost(r.0[k].distTo, visited[k].distTo)
    ensures forall k :: k in visited && k != e.to ==> r.0[k] == visited[k]
    ensures AtMost(r.0[e.to].distTo, Add(visited[e.from].distTo, e.weight))
    ensures r.0 != visited <==> Less(Add(visited[e.from].distTo, e.weight), visited[e.to].distTo)
  {
    var cand := Add(visited[e.from].distTo, e.weight);
    if Less(cand, visited[e.to].distTo) then
      (visited[e.to := Visit(true, Some(e), cand)], pq[e.to := cand.d])
    else
      (visited, pq)
  }

  /** Records and queue agree: a vertex is marked exactly when reached, and a queued vertex carries its distance. */
  ghost predicate Consistent<K>(source: K, visited: map<K, Visit<K>>, pq: map<K, real>) {
    source in visited &&
    (forall k :: k in visited ==> (visited[k].marked <==> visited[k].distTo.Fin?)) &&
    (forall k :: k in pq ==> k in visited && visited[k].distTo == Fin(pq[k]))
  }

  /** No reached vertex is at a negative distance. */
  ghost predicate NonNegativeDist<K>(visited: map<K, Visit<K>>) {
    forall k :: k in visited && visited[k].distTo.Fin? ==> 0.0 <= visited[k].distTo.d
  }

  /**
   * The settled vertices (numbered by `rank` in the order they left the queue)
   * are reached, no farther than `d`, and out of the queue.
   */
  ghost predicate SettledBelow<K>(visited: map<K, Visit<K>>, pq: map<K, real>, rank: map<K, nat>, d: real) {
    forall k :: k in rank ==>
      k in visited && visited[k].distTo.Fin? && visited[k].distTo.d <= d && k !in pq && rank[k] < |rank|
  }

  /** Every queued priority is at least `d`. */
  ghost predicate QueuedAbove<K>(pq: map<K, real>, d: real) {
    forall k :: k in pq ==> d <= pq[k]
  }

  /** A marked vertex is settled or still queued. */
  ghost predicate Accounted<K>(visited: map<K, Visit<K>>, pq: map<K, real>, rank: map<K, nat>) {
    forall k :: k in visited && visited[k].marked ==> k in rank || k in pq
  }

  /**
   * `k` was reached through a graph edge from a settled vertex, settled
   * before `k` if `k` is settled, and `k`'s distance is that vertex's plus the weight.
   */
  ghost predicate Linked<K, I>(vs: map<K, Vertex<K, I>>, visited: map<K, Visit<K>>, rank: map<K, nat>, k: K)
    requires k in visited
  {
    visited[k].edgeTo.Some? &&
    var e := visited[k].edgeTo.value;
    e.to == k && IsEdge(vs, e) && e.from in visited && e.from in rank &&
    (k in rank ==> rank[e.from] < rank[k]) &&
    visited[k].distTo == Add(visited[e.from].distTo, e.weight)
  }

  /** Every marked vertex but the source is linked. */
  ghost predicate Linkage<K, I>(vs: map<K, Vertex<K, I>>, source: K, visited: map<K, Visit<K>>, rank: map<K, nat>) {
    forall k :: k in visited && visited[k].marked && k != source ==> Linked(vs, visited, rank, k)
  }

  /** Every edge leaving `u` is relaxed: its destination is no farther than `u` plus the weight. */
  ghost predicate RelaxedFrom<K, I>(vs: map<K, Vertex<K, I>>, visited: map<K, Visit<K>>, u: K)
    requires u in vs && u in visited
  {
    forall w :: w in vs[u].adjacents && w in visited ==>
      AtMost(visited[w].distTo, Add(visited[u].distTo, vs[u].adjacents[w].weight))
  }

  /** The edges of every settled vertex outside `pending` are relaxed. */
  ghost predicate SettledRelaxed<K, I>(vs: map<K, Vertex<K, I>>, visited: map<K, Visit<K>>, rank: map<K, nat>, pending: set<K>) {
    forall u :: u in rank && u in vs && u in visited && u !in pending ==> RelaxedFrom(vs, visited, u)
  }

  /**
   * The invariant of the main loop of `Dijkstra`, with `d` the priority last
   * removed from the queue and `pending` the settled vertex whose edges are
   * being relaxed. It is stated as one fact, which the lemmas below take
   * apart and put back together through `InvParts`.
   */
  ghost predicate Inv<K, I>(vs: map<K, Vertex<K, I>>, source: K, visited: map<K, Visit<K>>,
                            pq: map<K, real>, rank: map<K, nat>, d: real, pending: set<K>) {
    InvParts(vs, source, visited, pq, rank, d, pending) == true
  }

  /** The parts of `Inv`. */
  ghost predicate InvParts<K, I>(vs: map<K, Vertex<K, I>>, source: K, visited: map<K, Visit<K>>,
                                 pq: map<K, real>, rank: map<K, nat>, d: real, pending: set<K>) {
    WellFormed(vs) && NonNegative(vs) &&
    Consistent(source, visited, pq) && visited.Keys == vs.Keys + {source} &&
    visited[source] == Visit(true, None, Fin(0.0)) && NonNegativeDist(visited) && 0.0 <= d &&
    SettledBelow(visited, pq, rank, d) && QueuedAbove(pq, d) && Accounted(visited, pq, rank) &&
    Linkage(vs, source, visited, rank) && SettledRelaxed(vs, visited, rank, pending)
  }

  /** `initSearch` establishes the invariant. */
  lemma InitialInv<K, I>(vs: map<K, Vertex<K, I>>, source: K)
    requires WellFormed(vs) && NonNegative(vs)
    ensures Inv(vs, source, Initial(vs.Keys, source), map[source := 0.0], map[], 0.0, {})
  {
    assert InvParts(vs, source, Initial(vs.Keys, source), map[source := 0.0], map[], 0.0, {});
  }

  /** The settled vertices are among the search's vertices. */
  lemma RankWithinVertices<K, I>(vs: map<K, Vertex<K, I>>, source: K, visited: map<K, Visit<K>>,
                                 pq: map<K, real>, rank: map<K, nat>, d: real)
    requires Inv(vs, source, visited, pq, rank, d, {})
    ensures |rank| <= |vs.Keys + {source}|
  {
    assert rank.Keys <= visited.Keys;
    SubsetCard(rank.Keys, visited.Keys);
  }

  /** Removing a key of least priority settles it: it was not settled, and no queued priority is below it. */
  lemma PopSettled<K>(source: K, visited: map<K, Visit<K>>, pq: map<K, real>, rank: map<K, nat>, d: real, v: K)
    requires Consistent(source, visited, pq) && SettledBelow(visited, pq, rank, d) && QueuedAbove(pq, d)
    requires IsMinKey(pq, v)
    ensures v in visited && v !in rank && visited[v].distTo == Fin(pq[v]) && d <= pq[v]
    ensures |rank[v := |rank|]| == |rank| + 1
    ensures SettledBelow(visited, pq - {v}, rank[v := |rank|], pq[v])
    ensures QueuedAbove(pq - {v}, pq[v])
  {
    var rank' := rank[v := |rank|];
    assert rank'.Keys == rank.Keys + {v};
    assert |rank'| == |rank| + 1;
    forall k | k in rank'
      ensures k in visited && visited[k].distTo.Fin? && visited[k].distTo.d <= pq[v] && k !in pq - {v} && rank'[k] < |rank'|
    {
      if k != v {
        assert k in rank;
      }
    }
  }

  /** Settling a vertex keeps every link: its own link points to an earlier-settled vertex. */
  lemma PopLinkage<K, I>(vs: map<K, Vertex<K, I>>, source: K, visited: map<K, Visit<K>>,
                         pq: map<K, real>, rank: map<K, nat>, d: real, v: K)
    requires Linkage(vs, source, visited, rank) && SettledBelow(visited, pq, rank, d) && v !in rank
    ensures Linkage(vs, source, visited, rank[v := |rank|])
  {
    var rank' := rank[v := |rank|];
    forall k | k in visited && visited[k].marked && k != source
      ensures Linked(vs, visited, rank', k)
    {
      assert Linked(vs, visited, rank, k);
    }
  }

  /** Removing a key of least priority settles it, and keeps the invariant with that vertex pending. */
  lemma PopKeepsInv<K, I>(vs: map<K, Vertex<K, I>>, source: K, visited: map<K, Visit<K>>,
                          pq: map<K, real>, rank: map<K, nat>, d: real, v: K)
    requires Inv(vs, source, visited, pq, rank, d, {}) && IsMinKey(pq, v)
    ensures v in visited && v !in rank && visited[v].distTo == Fin(pq[v]) && |rank[v := |rank|]| == |rank| + 1
    ensures Inv(vs, source, visited, pq - {v}, rank[v := |rank|], pq[v], {v})
  {
    PopSettled(source, visited, pq, rank, d, v);
    PopLinkage(vs, source, visited, pq, rank, d, v);
    assert Accounted(visited, pq - {v}, rank[v := |rank|]);
    assert InvParts(vs, source, visited, pq - {v}, rank[v := |rank|], pq[v], {v});
  }

  /**
   * Relaxing an edge out of the pending vertex `v` (at distance `d`) never
   * improves a settled vertex, the source or `v` itself.
   */
  lemma RelaxSparesSettled<K, I>(vs: map<K, Vertex<K, I>>, source: K, visited: map<K, Visit<K>>,
                                 pq: map<K, real>, rank: map<K, nat>, d: real, v: K, e: Edge<K>)
    requires Inv(vs, source, visited, pq, rank, d, {v}) && v in rank && visited[v].distTo == Fin(d)
    requires IsEdge(vs, e) && e.from == v
    requires Less(Add(visited[v].distTo, e.weight), visited[e.to].distTo)
    ensures e.weight >= 0.0 && e.to !in rank && e.to != source && e.to != v
  {
    assert vs[v].adjacents[e.to].weight >= 0.0;
  }

  /** Relaxing an improving edge out of the pending vertex keeps every link. */
  lemma RelaxLinkage<K, I>(vs: map<K, Vertex<K, I>>, source: K, visited: map<K, Visit<K>>,
                           rank: map<K, nat>, v: K, e: Edge<K>)
    requires Linkage(vs, source, visited, rank) && v in rank && v in visited && e.to in visited
    requires IsEdge(vs, e) && e.from == v && e.to !in rank && e.to != source
    requires visited[v].distTo.Fin?
    ensures Linkage(vs, source, visited[e.to := Visit(true, Some(e), Add(visited[v].distTo, e.weight))], rank)
  {
    var visited' := visited[e.to := Visit(true, Some(e), Add(visited[v].distTo, e.weight))];
    forall k | k in visited' && visited'[k].marked && k != source
      ensures Linked(vs, visited', rank, k)
    {
      if k != e.to {
        assert Linked(vs, visited, rank, k);
      }
    }
  }

  /** Lowering one distance keeps the edges of every other settled vertex relaxed. */
  lemma RelaxSettledRelaxed<K, I>(vs: map<K, Vertex<K, I>>, visited: map<K, Visit<K>>, visited': map<K, Visit<K>>,
                                  rank: map<K, nat>, pending: set<K>, w: K)
    requires SettledRelaxed(vs, visited, rank, pending) && w !in rank
    requires visited'.Keys == visited.Keys
    requires forall k :: k in visited ==> AtMost(visited'[k].distTo, visited[k].distTo)
    requires forall k :: k in visited && k != w ==> visited'[k] == visited[k]
    ensures SettledRelaxed(vs, visited', rank, pending)
  {
    forall u | u in rank && u in vs && u in visited' && u !in pending
      ensures RelaxedFrom(vs, visited', u)
    {
      assert RelaxedFrom(vs, visited, u);
    }
  }

  /**
   * Lowering the distance of a reached, unsettled vertex `e.to` to `c`, no
   * less than `d`, and queueing it at `c` keeps records, queue and ranks in agreement.
   */
  lemma ImproveKeepsQueue<K>(source: K, visited: map<K, Visit<K>>, pq: map<K, real>, rank: map<K, nat>,
                             d: real, e: Edge<K>, c: real)
    requires Consistent(source, visited, pq) && SettledBelow(visited, pq, rank, d) && QueuedAbove(pq, d)
    requires Accounted(visited, pq, rank) && NonNegativeDist(visited)
    requires e.to in visited && e.to !in rank && 0.0 <= d <= c
    ensures var visited', pq' := visited[e.to := Visit(true, Some(e), Fin(c))], pq[e.to := c];
      Consistent(source, visited', pq') && SettledBelow(visited', pq', rank, d) && QueuedAbove(pq', d) &&
      Accounted(visited', pq', rank) && NonNegativeDist(visited')
  {
  }

  /** Relaxing an edge out of the pending vertex keeps the invariant, and leaves that vertex alone. */
  lemma RelaxKeepsInv<K, I>(vs: map<K, Vertex<K, I>>, source: K, visited: map<K, Visit<K>>,
                            pq: map<K, real>, rank: map<K, nat>, d: real, v: K, e: Edge<K>)
    requires Inv(vs, source, visited, pq, rank, d, {v}) && v in rank && visited[v].distTo == Fin(d)
    requires IsEdge(vs, e) && e.from == v
    ensures e.to in visited
    ensures Inv(vs, source, RelaxStep(visited, pq, e).0, RelaxStep(visited, pq, e).1, rank, d, {v})
    ensures RelaxStep(visited, pq, e).0[v] == visited[v]
  {
    var (visited', pq') := RelaxStep(visited, pq, e);
    if Less(Add(visited[v].distTo, e.weight), visited[e.to].distTo) {
      RelaxSparesSettled(vs, source, visited, pq, rank, d, v, e);
      RelaxLinkage(vs, source, visited, rank, v, e);
      RelaxSettledRelaxed(vs, visited, visited', rank, {v}, e.to);
      ImproveKeepsQueue(source, visited, pq, rank, d, e, visited'[e.to].distTo.d);
    }
    assert InvParts(vs, source, visited', pq', rank, d, {v});
  }

  /** Every edge listed in `es` leads to a reached vertex no farther than `d` plus its weight. */
  ghost predicate ListedRelaxed<K>(visited: map<K, Visit<K>>, d: real, es: seq<Edge<K>>) {
    forall e :: e in es ==> e.to in visited && AtMost(visited[e.to].distTo, Add(Fin(d), e.weight))
  }

  /** Relaxing the next listed edge out of a vertex at distance `d` keeps the edges listed before it relaxed. */
  lemma RelaxExtendsListed<K>(visited: map<K, Visit<K>>, pq: map<K, real>, d: real, es: seq<Edge<K>>, i: nat)
    requires i < |es| && es[i].from in visited && es[i].to in visited && visited[es[i].from].distTo == Fin(d)
    requires ListedRelaxed(visited, d, es[..i])
    ensures ListedRelaxed(RelaxStep(visited, pq, es[i]).0, d, es[..i + 1])
  {
    var after := RelaxStep(visited, pq, es[i]).0;
    forall f | f in es[..i + 1]
      ensures f.to in after && AtMost(after[f.to].distTo, Add(Fin(d), f.weight))
    {
      if f != es[i] {
        assert f in es[..i];
      }
    }
  }

  /** Both endpoints of every edge of `es` have records. */
  predicate EndpointsIn<K>(visited: map<K, Visit<K>>, es: seq<Edge<K>>) {
    forall j :: 0 <= j < |es| ==> es[j].from in visited && es[j].to in visited
  }

  /**
   * The records and the queue after `relax` on each edge of `es` in turn: the
   * same vertices, none of them farther than before.
   */
  function RelaxAll<K>(visited: map<K, Visit<K>>, pq: map<K, real>, es: seq<Edge<K>>): (r: (map<K, Visit<K>>, map<K, real>))
    requires EndpointsIn(visited, es)
    ensures r.0.Keys == visited.Keys
    ensures forall k :: k in visited ==> AtMost(r.0[k].distTo, visited[k].distTo)
    decreases |es|
  {
    if es == [] then (visited, pq)
    else
      var p := RelaxAll(visited, pq, es[..|es| - 1]);
      RelaxStep(p.0, p.1, es[|es| - 1])
  }

  /** Relaxing one more edge of the list extends the fold by one step. */
  lemma RelaxAllSnoc<K>(visited: map<K, Visit<K>>, pq: map<K, real>, es: seq<Edge<K>>, i: nat)
    requires EndpointsIn(visited, es) && i < |es|
    ensures EndpointsIn(visited, es[..i]) && EndpointsIn(visited, es[..i + 1])
    ensures es[i].from in RelaxAll(visited, pq, es[..i]).0 && es[i].to in RelaxAll(visited, pq, es[..i]).0
    ensures RelaxAll(visited, pq, es[..i + 1]) ==
            RelaxStep(RelaxAll(visited, pq, es[..i]).0, RelaxAll(visited, pq, es[..i]).1, es[i])
  {
    assert es[..i + 1][..i] == es[..i];
  }

  /** The edges leaving a vertex of the graph lead between vertices that have records. */
  lemma AdjacentInVisited<K, I>(vs: map<K, Vertex<K, I>>, source: K, visited: map<K, Visit<K>>,
                                pq: map<K, real>, rank: map<K, nat>, d: real, pending: set<K>,
                                v: K, es: seq<Edge<K>>)
    requires Inv(vs, source, visited, pq, rank, d, pending)
    requires v in vs && forall e :: e in es <==> e in vs[v].adjacents.Values
    ensures EndpointsIn(visited, es)
  {
    forall j | 0 <= j < |es|
      ensures es[j].from in visited && es[j].to in visited
    {
      assert es[j] in es;
      ValueIsEdge(vs, v, es[j]);
    }
  }

  /** The prefix of a sequence up to its length is the whole sequence. */
  lemma WholePrefix<T>(s: seq<T>)
    ensures s[..|s|] == s
  {
  }

  /** When every edge leaving the pending vertex `v` is listed and relaxed, nothing is pending. */
  lemma ListedFinish<K, I>(vs: map<K, Vertex<K, I>>, source: K, visited: map<K, Visit<K>>,
                           pq: map<K, real>, rank: map<K, nat>, d: real, v: K, es: seq<Edge<K>>)
    requires Inv(vs, source, visited, pq, rank, d, {v}) && v in visited && visited[v].distTo == Fin(d)
    requires v in vs && forall e :: e in es <==> e in vs[v].adjacents.Values
    requires ListedRelaxed(visited, d, es)
    ensures Inv(vs, source, visited, pq, rank, d, {})
  {
    forall w | w in vs[v].adjacents && w in visited
      ensures AtMost(visited[w].distTo, Add(visited[v].distTo, vs[v].adjacents[w].weight))
    {
      assert vs[v].adjacents[w] in es;
    }
    FinishKeepsInv(vs, source, visited, pq, rank, d, v);
  }

  /** Once the pending vertex has all its edges relaxed, nothing is pending. */
  lemma FinishKeepsInv<K, I>(vs: map<K, Vertex<K, I>>, source: K, visited: map<K, Visit<K>>,
                             pq: map<K, real>, rank: map<K, nat>, d: real, v: K)
    requires Inv(vs, source, visited, pq, rank, d, {v})
    requires v in vs && v in visited ==> RelaxedFrom(vs, visited, v)
    ensures Inv(vs, source, visited, pq, rank, d, {})
  {
    assert InvParts(vs, source, visited, pq, rank, d, {});
  }

  /**
   * The links of a finished search: the source's record is the one
   * `initSearch` wrote, the marked vertices are exactly the settled ones, and
   * each but the source is linked to one settled before it.
   */
  ghost predicate Traced<K, I>(vs: map<K, Vertex<K, I>>, source: K, visited: map<K, Visit<K>>, rank: map<K, nat>) {
    source in visited && visited[source] == Visit(true, None, Fin(0.0)) &&
    (forall k :: k in rank ==> k in visited && visited[k].marked) &&
    (forall k :: k in visited && visited[k].marked ==> k in rank) &&
    Linkage(vs, source, visited, rank)
  }

  /** Every edge of the graph is relaxed: its destination is no farther than its origin plus its weight. */
  ghost predicate AllRelaxed<K, I>(vs: map<K, Vertex<K, I>>, visited: map<K, Visit<K>>) {
    forall u, w :: u in vs && w in vs[u].adjacents && u in visited && w in visited ==>
      AtMost(visited[w].distTo, Add(visited[u].distTo, vs[u].adjacents[w].weight))
  }

  /** When the queue runs empty, the search is traced and every edge is relaxed. */
  lemma DoneIsTracedAndRelaxed<K, I>(vs: map<K, Vertex<K, I>>, source: K, visited: map<K, Visit<K>>,
                                     rank: map<K, nat>, d: real)
    requires Inv(vs, source, visited, map[], rank, d, {})
    ensures Traced(vs, source, visited, rank)
    ensures AllRelaxed(vs, visited)
  {
    forall u, w | u in vs && w in vs[u].adjacents && u in visited && w in visited
      ensures AtMost(visited[w].distTo, Add(visited[u].distTo, vs[u].adjacents[w].weight))
    {
      if u in rank {
        assert RelaxedFrom(vs, visited, u);
      } else {
        assert visited[u].distTo == Inf;
      }
    }
  }

  /**
   * Along any chain of graph edges, the distance of the end is at most the
   * distance of the start plus the chain's weight.
   */
  lemma {:induction false} ChainBound<K, I>(vs: map<K, Vertex<K, I>>, visited: map<K, Visit<K>>,
                                            es: seq<Edge<K>>, a: K, b: K)
    requires WellFormed(vs) && AllRelaxed(vs, visited) && vs.Keys <= visited.Keys && a in visited
    requires Chain(es, a, b) && forall i :: 0 <= i < |es| ==> IsEdge(vs, es[i])
    ensures b in visited
    ensures AtMost(visited[b].distTo, Add(visited[a].distTo, Weight(es)))
    decreases |es|
  {
    if es != [] {
      var e := es[0];
      assert e.to in visited;
      assert forall i :: 0 <= i < |es[1..]| ==> IsEdge(vs, es[1..][i]) by {
        forall i | 0 <= i < |es[1..]| ensures IsEdge(vs, es[1..][i]) {
          assert es[1..][i] == es[i + 1];
        }
      }
      ChainBound(vs, visited, es[1..], e.to, b);
      assert AtMost(visited[e.to].distTo, Add(visited[a].distTo, e.weight));
    }
  }

  /**
   * In a finished search no chain of graph edges from the source to `b` weighs
   * less than `b`'s distance.
   */
  lemma ShortestPathBound<K, I>(vs: map<K, Vertex<K, I>>, source: K, visited: map<K, Visit<K>>,
                                rank: map<K, nat>, es: seq<Edge<K>>, b: K)
    requires WellFormed(vs) && vs.Keys <= visited.Keys
    requires Traced(vs, source, visited, rank) && AllRelaxed(vs, visited)
    requires Chain(es, source, b) && forall i :: 0 <= i < |es| ==> IsEdge(vs, es[i])
    ensures b in visited && AtMost(visited[b].distTo, Fin(Weight(es)))
  {
    ChainBound(vs, visited, es, source, b);
  }

  /** Every edge in the adjacency of `v` is a graph edge leaving `v`. */
  lemma ValueIsEdge<K, I>(vs: map<K, Vertex<K, I>>, v: K, e: Edge<K>)
    requires WellFormed(vs) && v in vs && e in vs[v].adjacents.Values
    ensures IsEdge(vs, e) && e.from == v
  {
    var w :| w in vs[v].adjacents && vs[v].adjacents[w] == e;
  }

  /**
   * `adjacent_edges` of the graph module, on the digraph: the edges leaving
   * `v`, or `None` when `v` is not a vertex.
   */
  method AdjacentEdges<K(==), I>(vertices: map<K, Vertex<K, I>>, v: K) returns (r: Option<seq<Edge<K>>>)
    ensures r.None? <==> v !in vertices
    ensures r.Some? ==> forall e :: e in r.value <==> e in vertices[v].adjacents.Values
  {
    if v !in vertices {
      return None;
    }
    var adj := vertices[v].adjacents;
    var es: seq<Edge<K>> := [];
    var rest := adj.Keys;
    while rest != {}
      invariant rest <= adj.Keys
      invariant forall e :: e in es <==> exists w :: w in adj && w !in rest && adj[w] == e
      decreases rest
    {
      var w :| w in rest;
      es := es + [adj[w]];
      rest := rest - {w};
    }
    return Some(es);
  }

  /** The search structure of `dijsktra.py`. */
  class Search<K(==)> {
    const source: K
    var visited: map<K, Visit<K>>
    const pq: IndexMinPQ<K>
    /** The settled vertices, numbered in the order they left the queue. */
    ghost var rank: map<K, nat>

    /** Records and queue agree. */
    ghost predicate Valid()
      reads this, pq
    {
      Consistent(source, visited, pq.items)
    }

    /** `Inv` on this search's state. */
    ghost predicate Invariant<I>(vs: map<K, Vertex<K, I>>, d: real, pending: set<K>)
      reads this, pq
    {
      Inv(vs, source, visited, pq.items, rank, d, pending)
    }

    /**
     * `initSearch`, given the graph's vertex list: every vertex unreached,
     * then the source marked at distance 0 and alone in the queue, with priority 0.
     */
    constructor (vertices: seq<K>, source: K)
      ensures this.source == source && Valid()
      ensures visited == Initial((set k | k in vertices), source)
      ensures fresh(pq) && pq.items == map[source := 0.0]
      ensures rank == map[]
    {
      this.source := source;
      var m: map<K, Visit<K>> := map[];
      for i := 0 to |vertices|
        invariant m == map k | k in vertices[..i] :: Visit(false, None, Inf)
      {
        assert vertices[..i + 1] == vertices[..i] + [vertices[i]];
        m := m[vertices[i] := Visit(false, None, Inf)];
      }
      assert vertices[..|vertices|] == vertices;
      visited := m[source := Visit(true, None, Fin(0.0))];
      pq := new IndexMinPQ();
      rank := map[];
      new;
      pq.Insert(source, 0.0);
    }

    /**
     * `relax`: when the path through `e` is shorter than the distance of `e`'s
     * destination, the destination's record is replaced and it is queued
     * with its new distance.
     */
    method Relax(e: Edge<K>)
      requires Valid() && e.from in visited && e.to in visited
      modifies this, pq
      ensures Valid()
      ensures (visited, pq.items) == RelaxStep(old(visited), old(pq.items), e)
      ensures rank == old(rank)
    {
      var v := Either(e);
      var w := Other(e, v);
      var distw := visited[w].distTo;
      var distv := Add(visited[v].distTo, e.weight);
      if Less(distv, distw) {
        visited := visited[w := Visit(true, Some(e), distv)];
        if pq.Contains(w) {
          pq.DecreaseKey(w, distv.d);
        } else {
          pq.Insert(w, distv.d);
        }
      }
    }

    /**
     * The `for` loop of `Dijkstra`: `relax` on each edge leaving the vertex
     * `v` just removed from the queue, in list order; afterwards all of
     * `v`'s edges are relaxed.
     */
    method RelaxEdges<I>(ghost vs: map<K, Vertex<K, I>>, v: K, es: seq<Edge<K>>, ghost d: real)
      requires Invariant(vs, d, {v}) && v in rank && visited[v].distTo == Fin(d)
      requires v in vs && forall e :: e in es <==> e in vs[v].adjacents.Values
      requires EndpointsIn(visited, es)
      modifies this, pq
      ensures (visited, pq.items) == RelaxAll(old(visited), old(pq.items), es)
      ensures Invariant(vs, d, {})
      ensures rank == old(rank)
    {
      for i := 0 to |es|
        invariant Invariant(vs, d, {v}) && rank == old(rank)
        invariant visited[v].distTo == Fin(d)
        invariant ListedRelaxed(visited, d, es[..i])
        invariant EndpointsIn(old(visited), es[..i])
        invariant (visited, pq.items) == RelaxAll(old(visited), old(pq.items), es[..i])
      {
        ValueIsEdge(vs, v, es[i]);
        RelaxKeepsInv(vs, source, visited, pq.items, rank, d, v, es[i]);
        RelaxExtendsListed(visited, pq.items, d, es, i);
        RelaxAllSnoc(old(visited), old(pq.items), es, i);
        Relax(es[i]);
      }
      WholePrefix(es);
      ListedFinish(vs, source, visited, pq.items, rank, d, v, es);
    }

    /**
     * `delMin` in the main loop of `Dijkstra`: the removed vertex, of least
     * priority, is settled (it gets the next rank) and its edges are pending.
     */
    method Settle<I>(vs: map<K, Vertex<K, I>>, ghost d: real) returns (v: K, ghost d': real)
      requires Invariant(vs, d, {}) && pq.items != map[]
      modifies this, pq
      ensures IsMinKey(old(pq.items), v) && d' == old(pq.items)[v] && pq.items == old(pq.items) - {v}
      ensures visited == old(visited) && v !in old(rank) && rank == old(rank)[v := |old(rank)|]
      ensures Invariant(vs, d', {v}) && v in rank && visited[v].distTo == Fin(d')
      ensures |rank| == |old(rank)| + 1
    {
      ghost var vis, before, rk := visited, pq.items, rank;
      v := pq.DelMin();
      PopKeepsInv(vs, source, vis, before, rk, d, v);
      rank := rk[v := |rk|];
      d' := before[v];
    }

    /**
     * One round of the main loop of `Dijkstra`: `delMin` removes a vertex of
     * least distance, which is settled, and every edge leaving it is relaxed.
     */
    method Round<I>(vs: map<K, Vertex<K, I>>, ghost d: real) returns (v: K, ghost es: seq<Edge<K>>, ghost d': real)
      requires Invariant(vs, d, {}) && pq.items != map[]
      modifies this, pq
      ensures IsMinKey(old(pq.items), v) && v !in old(rank) && rank == old(rank)[v := |old(rank)|]
      ensures v in vs ==> forall e :: e in es <==> e in vs[v].adjacents.Values
      ensures v !in vs ==> es == []
      ensures EndpointsIn(old(visited), es)
      ensures (visited, pq.items) == RelaxAll(old(visited), old(pq.items) - {v}, es)
      ensures Invariant(vs, d', {})
      ensures |rank| == |old(rank)| + 1 && |rank| <= |vs.Keys + {source}|
    {
      v, d' := Settle(vs, d);
      var edges := AdjacentEdges(vs, v);
      if edges.Some? {
        es := edges.value;
        AdjacentInVisited(vs, source, visited, pq.items, rank, d', {v}, v, es);
        RelaxEdges(vs, v, edges.value, d');
      } else {
        es := [];
        FinishKeepsInv(vs, source, visited, pq.items, rank, d', v);
      }
      RankWithinVertices(vs, source, visited, pq.items, rank, d');
    }

    /** `distTo`: infinity for a vertex the search does not know, its recorded distance otherwise. */
    function DistTo(vertex: K): (r: Dist)
      reads this
      ensures vertex !in visited ==> r == Inf
      ensures vertex in visited ==> r == visited[vertex].distTo
    {
      if vertex !in visited then Inf else visited[vertex].distTo
    }

    /** `hasPathTo`: the vertex is known and marked, which is to say reached at a finite distance. */
    function HasPathTo(vertex: K): (b: bool)
      reads this, pq
      requires Valid()
      ensures b <==> DistTo(vertex).Fin?
    {
      vertex in visited && visited[vertex].marked
    }

    /**
     * `pathTo`: `None` when there is no path; otherwise a stack of `edgeTo`
     * edges pushed from `vertex` back to the source, so that popping it
     * yields a chain of graph edges from the source to `vertex` whose weight
     * is `vertex`'s distance.
     */
    method PathTo<I>(ghost vs: map<K, Vertex<K, I>>, vertex: K) returns (path: Option<Stack<Edge<K>>>)
      requires Valid() && Traced(vs, source, visited, rank)
      ensures path.None? <==> !HasPathTo(vertex)
      ensures path.Some? ==>
        fresh(path.value) && vertex in visited &&
        Chain(Reversed(path.value.items), source, vertex) &&
        visited[vertex].distTo == Fin(Weight(Reversed(path.value.items))) &&
        forall i :: 0 <= i < |path.value.items| ==> IsEdge(vs, path.value.items[i])
    {
      if !HasPathTo(vertex) {
        return None;
      }
      var st := new Stack<Edge<K>>();
      var cur := vertex;
      while cur != source
        invariant fresh(st) && Backtracked(vs, visited, rank, st.items, cur, vertex)
        decreases rank[cur]
      {
        StepBack(vs, source, visited, rank, st.items, cur, vertex);
        var e := visited[cur].edgeTo.value;
        st.Push(e);
        cur := Either(e);
      }
      return Some(st);
    }
  }

  /**
   * The state of `pathTo`'s loop: the edges pushed so far, popped, form a
   * chain of graph edges from the settled vertex `cur` to `vertex` whose
   * weight is the difference of their distances.
   */
  ghost predicate Backtracked<K, I>(vs: map<K, Vertex<K, I>>, visited: map<K, Visit<K>>, rank: map<K, nat>,
                                    items: seq<Edge<K>>, cur: K, vertex: K) {
    cur in visited && visited[cur].marked && cur in rank && vertex in visited &&
    Chain(Reversed(items), cur, vertex) &&
    visited[vertex].distTo == Add(visited[cur].distTo, Weight(Reversed(items))) &&
    forall i :: 0 <= i < |items| ==> IsEdge(vs, items[i])
  }

  /** Following the link of a settled vertex other than the source reaches one settled before it, one edge further back. */
  lemma StepBack<K, I>(vs: map<K, Vertex<K, I>>, source: K, visited: map<K, Visit<K>>, rank: map<K, nat>,
                       items: seq<Edge<K>>, cur: K, vertex: K)
    requires Traced(vs, source, visited, rank) && Backtracked(vs, visited, rank, items, cur, vertex) && cur != source
    ensures visited[cur].edgeTo.Some?
    ensures var e := visited[cur].edgeTo.value;
      e.from in rank && rank[e.from] < rank[cur] && Backtracked(vs, visited, rank, items + [e], e.from, vertex)
  {
    assert Linked(vs, visited, rank, cur);
    var e := visited[cur].edgeTo.value;
    PushEdge(items, e, cur, vertex);
    forall i | 0 <= i < |items + [e]|
      ensures IsEdge(vs, (items + [e])[i])
    {
      if i < |items| {
        assert (items + [e])[i] == items[i];
      }
    }
  }

  /** Pushing the edge into `cur` extends the popped chain backwards, to the edge's origin. */
  lemma PushEdge<K>(items: seq<Edge<K>>, e: Edge<K>, cur: K, vertex: K)
    requires Chain(Reversed(items), cur, vertex) && e.to == cur
    ensures Chain(Reversed(items + [e]), e.from, vertex)
    ensures Weight(Reversed(items + [e])) == e.weight + Weight(Reversed(items))
  {
    assert (items + [e])[..|items|] == items;
    assert Reversed(items + [e]) == [e] + Reversed(items);
    assert ([e] + Reversed(items))[1..] == Reversed(items);
  }

  /** `initSearch`: the search state over the graph's vertices, with the source alone in the queue. */
  method InitSearch<K(==), I>(g: Digraph<K, I>, source: K) returns (search: Search<K>)
    ensures fresh(search) && fresh(search.pq) && search.source == source && search.Valid()
    ensures search.visited == Initial(g.vertices.Keys, source)
    ensures search.pq.items == map[source := 0.0] && search.rank == map[]
  {
    var vertices := g.Vertices();
    assert (set k | k in vertices) == g.vertices.Keys;
    search := new Search(vertices, source);
  }

  /**
   * `Dijkstra`: the search from `source`, run until the queue is empty.  With
   * no negative weight, it ends with every marked vertex traced back to the
   * source through `edgeTo` and every edge of the graph relaxed.
   */
  method Dijkstra<K(==), I>(g: Digraph<K, I>, source: K) returns (search: Search<K>)
    requires WellFormed(g.vertices) && NonNegative(g.vertices)
    ensures fresh(search) && fresh(search.pq) && search.source == source && search.Valid()
    ensures search.pq.items == map[]
    ensures search.visited.Keys == g.vertices.Keys + {source}
    ensures Traced(g.vertices, source, search.visited, search.rank)
    ensures AllRelaxed(g.vertices, search.visited)
  {
    var vs := g.vertices;
    search := InitSearch(g, source);
    ghost var d := 0.0;
    InitialInv(vs, source);
    while !search.pq.IsEmpty()
      invariant fresh(search) && fresh(search.pq) && search.source == source
      invariant search.Invariant(vs, d, {})
      invariant |search.rank| <= |vs.Keys + {source}|
      decreases |vs.Keys + {source}| - |search.rank|
    {
      var v;
      ghost var es;
      v, es, d := search.Round(vs, d);
    }
    DoneIsTracedAndRelaxed(vs, source, search.visited, search.rank, d);
  }
}
