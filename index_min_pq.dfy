/**
 * The indexed minimum priority queue that the shortest-path search uses
 * (`indexminpq`).  Its implementation is not part of this model: it is
 * specified by the contracts the search relies on, over a map from key to
 * priority.
 */
module IndexedPQ {
  /** `k` is queued and no queued key has a smaller priority. */
  predicate IsMinKey<K>(items: map<K, real>, k: K) {
    k in items && forall j :: j in items ==> items[k] <= items[j]
  }

  /** Every non-empty queue has a key of least priority. */
  lemma {:induction false} MinKeyExists<K>(items: map<K, real>)
    requires items != map[]
    ensures exists k :: IsMinKey(items, k)
    decreases |items|
  {
    var u :| u in items;
    var rest := items - {u};
    assert forall j :: j in items ==> j == u || j in rest;
    if rest == map[] {
      assert IsMinKey(items, u);
    } else {
      MinKeyExists(rest);
      var k :| IsMinKey(rest, k);
      if items[u] <= items[k] {
        assert IsMinKey(items, u);
      } else {
        assert IsMinKey(items, k);
      }
    }
  }

  class IndexMinPQ<K(==)> {
    /** The queued keys and their priorities. */
    var items: map<K, real>

    /** `newIndexMinPQ`: an empty queue. */
    constructor ()
      ensures items == map[]
    {
      items := map[];
    }

    /** `isEmpty`. */
    function IsEmpty(): (b: bool)
      reads this
      ensures b <==> forall k :: k !in items
    {
      items == map[]
    }

    /** `contains`. */
    function Contains(k: K): (b: bool)
      reads this
      ensures b <==> k in items
    {
      k in items
    }

    /** `insert`, as the search uses it: a key not yet queued joins with its priority. */
    method Insert(k: K, priority: real)
      requires k !in items
      modifies this
      ensures items == old(items)[k := priority]
    {
      items := items[k := priority];
    }

    /** `decreaseKey`, as the search uses it: a queued key gets a smaller priority. */
    method DecreaseKey(k: K, priority: real)
      requires k in items && priority < items[k]
      modifies this
      ensures items == old(items)[k := priority]
    {
      items := items[k := priority];
    }

    /** `delMin`: a key of least priority leaves the queue and is returned. */
    method DelMin() returns (k: K)
      requires items != map[]
      modifies this
      ensures IsMinKey(old(items), k)
      ensures items == old(items) - {k}
    {
      MinKeyExists(items);
      k :| IsMinKey(items, k);
      items := items - {k};
    }
  }
}
