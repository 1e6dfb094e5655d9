/**
 * The weighted directed graph: a map from vertex key to a vertex record whose
 * adjacency map sends each destination key to the edge that reaches it, and a
 * counter of the edges stored.  The hash table behind both maps is modelled by
 * Dafny's `map`.
 */
module Digraphs {
  import opened Wrappers

  /** A directed weighted edge; it is stored in the adjacency map of `from`, under `to`. */
  datatype Edge<K> = Edge(from: K, to: K, weight: real)

  /** A vertex record: its key, its payload and its outgoing edges keyed by destination. */
  datatype Vertex<K, I> = Vertex(key: K, info: I, adjacents: map<K, Edge<K>>)

  /** Why `add_edge` refuses to add an edge. */
  datatype GraphError = VertexUMissing | VertexVMissing

  /**
   * Every record is stored under its own key, and every adjacency entry `u -> v`
   * is the edge from `u` to `v`, with `v` a vertex of the graph.
   */
  ghost predicate WellFormed<K, I>(vs: map<K, Vertex<K, I>>) {
    forall u :: u in vs ==>
      vs[u].key == u &&
      forall v :: v in vs[u].adjacents ==>
        v in vs && vs[u].adjacents[v].from == u && vs[u].adjacents[v].to == v
  }

  /** Storing a record whose edges leave it and reach existing vertices keeps the graph well formed. */
  lemma WellFormedUpdate<K, I>(vs: map<K, Vertex<K, I>>, u: K, x: Vertex<K, I>)
    requires WellFormed(vs) && x.key == u
    requires forall v :: v in x.adjacents ==> v in vs && x.adjacents[v].from == u && x.adjacents[v].to == v
    ensures WellFormed(vs[u := x])
  {
    var vs' := vs[u := x];
    forall w | w in vs'
      ensures vs'[w].key == w
      ensures forall v :: v in vs'[w].adjacents ==> v in vs' && vs'[w].adjacents[v].from == w && vs'[w].adjacents[v].to == v
    {
      if w != u {
        assert vs'[w] == vs[w];
      }
    }
  }

  /** Adding or re-weighting the edge `u -> v` between two vertices keeps the graph well formed. */
  lemma WellFormedAddEdge<K, I>(vs: map<K, Vertex<K, I>>, u: K, v: K, weight: real)
    requires WellFormed(vs) && u in vs && v in vs
    ensures WellFormed(vs[u := vs[u].(adjacents := vs[u].adjacents[v := Edge(u, v, weight)])])
  {
    WellFormedUpdate(vs, u, vs[u].(adjacents := vs[u].adjacents[v := Edge(u, v, weight)]));
  }

  /** The number of edges stored: the sum of the sizes of all adjacency maps. */
  ghost function EdgeTotal<K, I>(vs: map<K, Vertex<K, I>>): nat
    decreases |vs|
  {
    if vs == map[] then 0
    else
      var u :| u in vs;
      assert (vs - {u}).Keys < vs.Keys;
      |vs[u].adjacents| + EdgeTotal(vs - {u})
  }

  /** Removing a present key shrinks a map. */
  lemma RemoveShrinks<K, V>(m: map<K, V>, u: K)
    requires u in m
    ensures |m - {u}| < |m|
  {
    assert (m - {u}).Keys < m.Keys;
  }

  /** Removing two keys in either order gives the same map. */
  lemma RemoveCommutes<K, V>(m: map<K, V>, u: K, w: K)
    ensures m - {w} - {u} == m - {u} - {w}
  {
  }

  /** Storing under a key and then removing it leaves what removing it alone leaves. */
  lemma UpdateThenRemove<K, V>(m: map<K, V>, u: K, x: V)
    ensures m[u := x] - {u} == m - {u}
  {
  }

  /** Removing an absent key changes nothing. */
  lemma RemoveAbsent<K, V>(m: map<K, V>, u: K)
    requires u !in m
    ensures m - {u} == m
  {
  }

  /** The sum does not depend on the order in which the records are visited. */
  lemma {:induction false} EdgeTotalRemove<K, I>(vs: map<K, Vertex<K, I>>, u: K)
    requires u in vs
    ensures EdgeTotal(vs) == |vs[u].adjacents| + EdgeTotal(vs - {u})
    decreases |vs|
  {
    var w :| w in vs && EdgeTotal(vs) == |vs[w].adjacents| + EdgeTotal(vs - {w});
    if w != u {
      RemoveShrinks(vs, w);
      RemoveShrinks(vs, u);
      EdgeTotalRemove(vs - {w}, u);
      EdgeTotalRemove(vs - {u}, w);
      RemoveCommutes(vs, u, w);
    }
  }

  /** Replacing or adding one record changes the total by the difference of adjacency sizes. */
  lemma EdgeTotalUpdate<K, I>(vs: map<K, Vertex<K, I>>, u: K, x: Vertex<K, I>)
    ensures EdgeTotal(vs[u := x]) ==
            EdgeTotal(vs) - (if u in vs then |vs[u].adjacents| else 0) + |x.adjacents|
  {
    EdgeTotalRemove(vs[u := x], u);
    UpdateThenRemove(vs, u, x);
    if u in vs {
      EdgeTotalRemove(vs, u);
    } else {
      RemoveAbsent(vs, u);
    }
  }

  /** Adding the edge `u -> v` adds one to the total exactly when `u` had no edge to `v`. */
  lemma AddEdgeTotal<K, I>(vs: map<K, Vertex<K, I>>, u: K, v: K, weight: real)
    requires u in vs
    ensures EdgeTotal(vs[u := vs[u].(adjacents := vs[u].adjacents[v := Edge(u, v, weight)])]) ==
            EdgeTotal(vs) + (if v in vs[u].adjacents then 0 else 1)
  {
    var adj := vs[u].adjacents;
    EdgeTotalUpdate(vs, u, vs[u].(adjacents := adj[v := Edge(u, v, weight)]));
    if v in adj {
      assert adj[v := Edge(u, v, weight)].Keys == adj.Keys;
    }
  }

  /** A vertex's out-degree never exceeds the number of edges of the graph. */
  lemma DegreeAtMostSize<K, I>(vs: map<K, Vertex<K, I>>, u: K)
    requires u in vs
    ensures |vs[u].adjacents| <= EdgeTotal(vs)
  {
    EdgeTotalRemove(vs, u);
  }

  /** A subset of a finite set is no larger than the set. */
  lemma {:induction false} SubsetCard<K>(a: set<K>, b: set<K>)
    requires a <= b
    ensures |a| <= |b|
    decreases |b|
  {
    if a != {} {
      var x :| x in a;
      SubsetCard(a - {x}, b - {x});
    }
  }

  /** No parallel edges: the out-degree of a vertex is at most the order of the graph. */
  lemma DegreeAtMostOrder<K, I>(vs: map<K, Vertex<K, I>>, u: K)
    requires WellFormed(vs) && u in vs
    ensures |vs[u].adjacents| <= |vs|
  {
    SubsetCard(vs[u].adjacents.Keys, vs.Keys);
  }

  /** The vertices left by removing `key`, with every edge into `key` dropped from their adjacency. */
  function Purge<K, I>(vs: map<K, Vertex<K, I>>, key: K): map<K, Vertex<K, I>>
  {
    map u | u in vs && u != key :: vs[u].(adjacents := vs[u].adjacents - {key})
  }

  /** Removing a vertex together with every edge that touches it keeps the graph well formed. */
  lemma PurgeWellFormed<K, I>(vs: map<K, Vertex<K, I>>, key: K)
    requires WellFormed(vs)
    ensures WellFormed(Purge(vs, key))
    ensures Purge(vs, key).Keys == vs.Keys - {key}
    ensures forall u :: u in Purge(vs, key) ==> key !in Purge(vs, key)[u].adjacents
  {
  }

  /** Whether `key` itself is still among the vertices makes no difference to the purge. */
  lemma PurgeIgnoresKey<K, I>(vs: map<K, Vertex<K, I>>, key: K)
    ensures Purge(vs - {key}, key) == Purge(vs, key)
    ensures Incoming(vs - {key}, key) == Incoming(vs, key)
  {
  }

  /** The other vertices that have an edge into `key`. */
  function Incoming<K, I>(vs: map<K, Vertex<K, I>>, key: K): set<K>
  {
    set u | u in vs && u != key && key in vs[u].adjacents
  }

  /** Splitting one vertex off the incoming set. */
  lemma IncomingRemove<K, I>(vs: map<K, Vertex<K, I>>, key: K, u: K)
    requires u in vs && u != key
    ensures Incoming(vs, key) == Incoming(vs - {u}, key) + (if key in vs[u].adjacents then {u} else {})
    ensures |Incoming(vs, key)| == |Incoming(vs - {u}, key)| + (if key in vs[u].adjacents then 1 else 0)
  {
    var a := Incoming(vs, key);
    var b := Incoming(vs - {u}, key) + (if key in vs[u].adjacents then {u} else {});
    forall x | x in a ensures x in b {
      if x != u { assert x in vs - {u}; }
    }
    assert u !in Incoming(vs - {u}, key);
  }

  /** Splitting one vertex off a purged map. */
  lemma PurgeRemove<K, I>(vs: map<K, Vertex<K, I>>, key: K, u: K)
    requires u in vs && u != key
    ensures u in Purge(vs, key)
    ensures Purge(vs, key) - {u} == Purge(vs - {u}, key)
    ensures |Purge(vs, key)[u].adjacents| == |vs[u].adjacents| - (if key in vs[u].adjacents then 1 else 0)
  {
    assert Purge(vs, key)[u].adjacents.Keys == vs[u].adjacents.Keys - {key};
  }

  /** Dropping the edges into `key` removes exactly one edge per vertex that had one. */
  lemma {:induction false} DropCount<K, I>(vs: map<K, Vertex<K, I>>, key: K)
    requires key !in vs
    ensures EdgeTotal(Purge(vs, key)) == EdgeTotal(vs) - |Incoming(vs, key)|
    decreases |vs|
  {
    if vs == map[] {
      assert Incoming(vs, key) == {};
      assert Purge(vs, key) == map[];
    } else {
      var u :| u in vs;
      var rest := vs - {u};
      assert rest.Keys < vs.Keys;
      DropCount(rest, key);
      EdgeTotalRemove(vs, u);
      PurgeRemove(vs, key, u);
      EdgeTotalRemove(Purge(vs, key), u);
      IncomingRemove(vs, key, u);
    }
  }

  /**
   * Part way through the scan of `remove_vertex`: the vertices outside `rest`
   * have lost their edge into `key`, those in `rest` are untouched.
   */
  ghost predicate PurgedOutside<K, I>(vs: map<K, Vertex<K, I>>, r: map<K, Vertex<K, I>>, key: K, rest: set<K>) {
    rest <= vs.Keys && r.Keys == vs.Keys &&
    (forall u :: u in vs && u !in rest ==> r[u] == vs[u].(adjacents := vs[u].adjacents - {key})) &&
    (forall u :: u in rest ==> r[u] == vs[u])
  }

  /** One step of the scan: vertex `u` loses its edge into `key`, and the total drops by one exactly when it had one. */
  lemma PurgeStep<K, I>(vs: map<K, Vertex<K, I>>, r: map<K, Vertex<K, I>>, key: K, rest: set<K>, u: K)
    requires PurgedOutside(vs, r, key, rest) && u in rest
    ensures PurgedOutside(vs, r[u := r[u].(adjacents := r[u].adjacents - {key})], key, rest - {u})
    ensures EdgeTotal(r[u := r[u].(adjacents := r[u].adjacents - {key})]) ==
            EdgeTotal(r) - (if key in r[u].adjacents then 1 else 0)
  {
    DropEdgeTotal(r, key, u);
  }

  /** Dropping `u`'s edge into `key` lowers the total by one exactly when there was one. */
  lemma DropEdgeTotal<K, I>(r: map<K, Vertex<K, I>>, key: K, u: K)
    requires u in r
    ensures EdgeTotal(r[u := r[u].(adjacents := r[u].adjacents - {key})]) ==
            EdgeTotal(r) - (if key in r[u].adjacents then 1 else 0)
  {
    var adj := r[u].adjacents;
    EdgeTotalUpdate(r, u, r[u].(adjacents := adj - {key}));
    if key in adj {
      assert (adj - {key}).Keys == adj.Keys - {key};
    } else {
      assert adj - {key} == adj;
    }
  }

  /** At the end of the scan every vertex has been purged. */
  lemma PurgeDone<K, I>(vs: map<K, Vertex<K, I>>, r: map<K, Vertex<K, I>>, key: K)
    requires PurgedOutside(vs, r, key, {}) && key !in vs
    ensures r == Purge(vs, key)
  {
  }

  /**
   * The scan of `remove_vertex` over the remaining vertices: each loses its edge
   * into `key`, and every edge dropped is counted.
   */
  method DropEdgesInto<K, I>(vs: map<K, Vertex<K, I>>, key: K) returns (r: map<K, Vertex<K, I>>, removed: nat)
    requires key !in vs
    ensures r == Purge(vs, key)
    ensures EdgeTotal(r) == EdgeTotal(vs) - removed
    ensures removed == |Incoming(vs, key)|
  {
    r := vs;
    removed := 0;
    var rest := vs.Keys;
    while rest != {}
      invariant PurgedOutside(vs, r, key, rest)
      invariant EdgeTotal(r) == EdgeTotal(vs) - removed
      decreases rest
    {
      var u :| u in rest;
      var vu := r[u];
      PurgeStep(vs, r, key, rest, u);
      r := r[u := vu.(adjacents := vu.adjacents - {key})];
      if key in vu.adjacents {
        removed := removed + 1;
      }
      rest := rest - {u};
    }
    PurgeDone(vs, r, key);
    DropCount(vs, key);
  }

  /**
   * `insert_vertex` as written, on the smallest vertex map: vertex 0 with a
   * self-loop holds one edge, and replacing its record by a fresh one leaves
   * none.  `InsertVertexStaleScenario` shows the counter beside it.
   */
  lemma InsertVertexStaleCounter()
    ensures var vs := map[0 := Vertex(0, "a", map[0 := Edge(0, 0, 1.0)])];
            WellFormed(vs) && EdgeTotal(vs) == 1 &&
            EdgeTotal(vs[0 := Vertex(0, "b", map[])]) == 0
  {
    var e: map<int, Vertex<int, string>> := map[];
    var vs := e[0 := Vertex(0, "a", map[0 := Edge(0, 0, 1.0)])];
    EdgeTotalUpdate(e, 0, vs[0]);
    EdgeTotalUpdate(vs, 0, Vertex(0, "b", map[]));
  }

  /** The graph of `digraph.py`: vertex records and the edge counter. */
  class Digraph<K(==), I> {
    var vertices: map<K, Vertex<K, I>>
    var numEdges: int

    /**
     * The counter agrees with the edges stored, and every edge joins two
     * vertices.  Every operation keeps the second part; `insert_vertex` as
     * written can break the first, and the others run on such a graph too.
     */
    ghost predicate Valid()
      reads this
    {
      WellFormed(vertices) && numEdges == EdgeTotal(vertices)
    }

    /** `new_graph`: no vertices and no edges; the order hint only sizes the hash table. */
    constructor (order: nat)
      ensures Valid()
      ensures vertices == map[] && numEdges == 0
    {
      vertices := map[];
      numEdges := 0;
    }

    /**
     * `insert_vertex` as written: a fresh record with an empty adjacency replaces
     * whatever was stored under `key`, and the edge counter is left alone.  The
     * counter is then right exactly when the key was new or had no outgoing edges.
     */
    method InsertVertex(key: K, info: I)
      requires WellFormed(vertices)
      modifies this
      ensures WellFormed(vertices)
      ensures vertices == old(vertices)[key := Vertex(key, info, map[])]
      ensures numEdges == old(numEdges)
      ensures old(Valid()) ==> (Valid() <==> key !in old(vertices) || old(vertices)[key].adjacents == map[])
    {
      EdgeTotalUpdate(vertices, key, Vertex(key, info, map[]));
      WellFormedUpdate(vertices, key, Vertex(key, info, map[]));
      vertices := vertices[key := Vertex(key, info, map[])];
    }

    /**
     * `insert_vertex` with the counter corrected: the out-edges of a replaced
     * record are no longer counted.
     */
    method InsertVertexCounted(key: K, info: I)
      requires WellFormed(vertices)
      modifies this
      ensures WellFormed(vertices) && (Valid() <==> old(Valid()))
      ensures vertices == old(vertices)[key := Vertex(key, info, map[])]
      ensures numEdges ==
              old(numEdges) - (if key in old(vertices) then |old(vertices)[key].adjacents| else 0)
    {
      EdgeTotalUpdate(vertices, key, Vertex(key, info, map[]));
      WellFormedUpdate(vertices, key, Vertex(key, info, map[]));
      if key in vertices {
        numEdges := numEdges - |vertices[key].adjacents|;
      }
      vertices := vertices[key := Vertex(key, info, map[])];
    }

    /** `update_vertex_info`: only the payload of an existing vertex changes. */
    method UpdateVertexInfo(key: K, info: I) returns (found: bool)
      requires WellFormed(vertices)
      modifies this
      ensures WellFormed(vertices) && (Valid() <==> old(Valid()))
      ensures found <==> key in old(vertices)
      ensures found ==> vertices == old(vertices)[key := old(vertices)[key].(info := info)]
      ensures !found ==> vertices == old(vertices)
      ensures numEdges == old(numEdges)
    {
      if key !in vertices {
        return false;
      }
      var v := vertices[key];
      EdgeTotalUpdate(vertices, key, v.(info := info));
      WellFormedUpdate(vertices, key, v.(info := info));
      vertices := vertices[key := v.(info := info)];
      return true;
    }

    /**
     * `remove_vertex`: the record goes, with its out-edges, and then every
     * remaining vertex is scanned once and loses its edge into `key`.
     */
    method RemoveVertex(key: K) returns (found: bool)
      requires WellFormed(vertices)
      modifies this
      ensures WellFormed(vertices) && (Valid() <==> old(Valid()))
      ensures found <==> key in old(vertices)
      ensures !found ==> vertices == old(vertices) && numEdges == old(numEdges)
      ensures found ==> vertices == Purge(old(vertices), key)
      ensures found ==> numEdges == old(numEdges) - |old(vertices)[key].adjacents|
                                   - |Incoming(old(vertices), key)|
    {
      if key !in vertices {
        return false;
      }
      ghost var vs := vertices;
      var outCount := |vertices[key].adjacents|;
      EdgeTotalRemove(vs, key);
      PurgeIgnoresKey(vs, key);
      PurgeWellFormed(vs, key);
      var purged, removed := DropEdgesInto(vertices - {key}, key);
      assert EdgeTotal(purged) == EdgeTotal(vs) - outCount - removed;
      vertices, numEdges := purged, numEdges - outCount - removed;
      return true;
    }

    /**
     * `add_edge`: both endpoints must exist (u is checked first); an existing
     * edge only gets the new weight, a new one is counted.
     */
    method AddEdge(u: K, v: K, weight: real) returns (r: Outcome<GraphError>)
      requires WellFormed(vertices)
      modifies this
      ensures WellFormed(vertices) && (Valid() <==> old(Valid()))
      ensures u !in old(vertices) ==> r == Fail(VertexUMissing)
      ensures u in old(vertices) && v !in old(vertices) ==> r == Fail(VertexVMissing)
      ensures r.Fail? ==> vertices == old(vertices) && numEdges == old(numEdges)
      ensures r.Pass? <==> u in old(vertices) && v in old(vertices)
      ensures r.Pass? ==>
        vertices == old(vertices)[u := old(vertices)[u].(adjacents :=
                                         old(vertices)[u].adjacents[v := Edge(u, v, weight)])]
      ensures r.Pass? ==>
        numEdges == old(numEdges) + (if v in old(vertices)[u].adjacents then 0 else 1)
    {
      if u !in vertices {
        return Fail(VertexUMissing);
      }
      if v !in vertices {
        return Fail(VertexVMissing);
      }
      var src := vertices[u];
      AddEdgeTotal(vertices, u, v, weight);
      WellFormedAddEdge(vertices, u, v, weight);
      if v !in src.adjacents {
        numEdges := numEdges + 1;
      }
      vertices := vertices[u := src.(adjacents := src.adjacents[v := Edge(u, v, weight)])];
      return Pass;
    }

    /** `order`: the number of vertices, zero exactly for a graph without any. */
    function Order(): (n: nat)
      reads this
      ensures n == |vertices.Keys|
      ensures n == 0 <==> vertices == map[]
    {
      |vertices|
    }

    /** `size`: the edge counter, which is the number of edges stored when the graph is valid. */
    function Size(): (n: int)
      reads this
      ensures Valid() ==> n == EdgeTotal(vertices)
    {
      numEdges
    }

    /** `degree`: the out-degree of a vertex, `None` for an absent key. */
    function Degree(u: K): (d: Option<nat>)
      reads this
      requires WellFormed(vertices)
      ensures d.None? <==> u !in vertices
      ensures d.Some? ==> d.value == |vertices[u].adjacents| && d.value <= Order()
      ensures d.Some? && Valid() ==> d.value <= Size()
    {
      if u !in vertices then None
      else
        DegreeAtMostSize(vertices, u);
        DegreeAtMostOrder(vertices, u);
        Some(|vertices[u].adjacents|)
    }

    /** `vertices`: every key exactly once. */
    method Vertices() returns (ks: seq<K>)
      ensures |ks| == Order()
      ensures forall k :: k in ks <==> k in vertices
      ensures forall i, j :: 0 <= i < j < |ks| ==> ks[i] != ks[j]
    {
      ks := [];
      var rest := vertices.Keys;
      while rest != {}
        invariant rest <= vertices.Keys
        invariant forall k :: k in ks <==> k in vertices && k !in rest
        invariant forall i, j :: 0 <= i < j < |ks| ==> ks[i] != ks[j]
        invariant |ks| + |rest| == |vertices|
        decreases rest
      {
        var k :| k in rest;
        ks := ks + [k];
        rest := rest - {k};
      }
    }
  }

  /**
   * `insert_vertex` as written, end to end: after vertex 0 gets a self-loop,
   * inserting 0 again leaves no edge stored while the counter still says one.
   */
  method InsertVertexStaleScenario() returns (g: Digraph<int, string>)
    ensures g.numEdges == 1 && EdgeTotal(g.vertices) == 0 && !g.Valid()
    ensures WellFormed(g.vertices) && 0 in g.vertices && g.vertices[0] == Vertex(0, "b", map[])
  {
    g := SelfLoopGraph();
    ghost var before := g.vertices;
    g.InsertVertex(0, "b");
    EdgeTotalUpdate(before, 0, Vertex(0, "b", map[]));
  }

  /** A new graph after `insert_vertex(g, 0, "a")` and `add_edge(g, 0, 0, 1.0)`: valid, with one edge. */
  method SelfLoopGraph() returns (g: Digraph<int, string>)
    ensures fresh(g)
    ensures g.Valid() && 0 in g.vertices && |g.vertices[0].adjacents| == 1 && g.numEdges == 1
  {
    g := new Digraph(1);
    g.InsertVertex(0, "a");
    var r := g.AddEdge(0, 0, 1.0);
  }

  /**
   * The stale counter lives on: on the graph `InsertVertexStaleScenario`
   * leaves, adding the edge 0 -> 0 again counts it, so the counter says two
   * while one edge is stored.
   */
  method StaleCounterDrifts(g: Digraph<int, string>)
    requires WellFormed(g.vertices) && 0 in g.vertices && g.vertices[0].adjacents == map[]
    requires g.numEdges == 1 && EdgeTotal(g.vertices) == 0
    modifies g
    ensures g.numEdges == 2 && EdgeTotal(g.vertices) == 1 && !g.Valid()
  {
    AddEdgeTotal(g.vertices, 0, 0, 1.0);
    var r := g.AddEdge(0, 0, 1.0);
  }
}
