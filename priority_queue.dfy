/**
 * The binary min-heap of `priority_queue.py`: entries `{key, value}` kept in a
 * growable list ordered by `key` under a three-way comparison function, with an
 * explicit `size` field.
 */
module PriorityQueue {
  import opened Wrappers

  /** One heap entry; the heap is ordered by `key`, never by `value`. */
  datatype Entry<K, V> = Entry(key: K, value: V)

  /** `dflt_heap_elm_cmp`: 1, -1 or 0 as the first argument is greater, smaller or equal. */
  function DfltCmp(a: real, b: real): (r: int)
    ensures r == 1 <==> a > b
    ensures r == -1 <==> a < b
    ensures r == 0 <==> a == b
  {
    if a > b then 1 else if a < b then -1 else 0
  }

  /**
   * What the heap needs of a comparison function: "not greater" (`cmp(a, b) <= 0`)
   * is total and transitive.
   */
  ghost predicate TotalPreorder<K(!new)>(cmp: (K, K) -> int) {
    (forall a, b :: cmp(a, b) <= 0 || cmp(b, a) <= 0) &&
    (forall a, b, c :: cmp(a, b) <= 0 && cmp(b, c) <= 0 ==> cmp(a, c) <= 0)
  }

  /** The default comparison function is a total preorder on its keys. */
  lemma DfltCmpIsTotalPreorder()
    ensures TotalPreorder(DfltCmp)
  {
  }

  /** Heap order: no entry's key is smaller than its parent's. */
  ghost predicate HeapOrdered<K, V>(s: seq<Entry<K, V>>, cmp: (K, K) -> int) {
    forall p: nat, c :: c < |s| && (c == 2 * p + 1 || c == 2 * p + 2) ==> cmp(s[p].key, s[c].key) <= 0
  }

  /**
   * Heap order holds except between slot `k` and its parent; `k`'s parent is
   * still no greater than `k`'s children.  This is what `_swim` repairs.
   */
  ghost predicate HeapOrderedExceptUp<K, V>(s: seq<Entry<K, V>>, cmp: (K, K) -> int, k: nat) {
    (forall p: nat, c :: c < |s| && (c == 2 * p + 1 || c == 2 * p + 2) && c != k ==> cmp(s[p].key, s[c].key) <= 0) &&
    (forall c :: c < |s| && (c == 2 * k + 1 || c == 2 * k + 2) && k > 0 ==> cmp(s[(k - 1) / 2].key, s[c].key) <= 0)
  }

  /**
   * Heap order holds except between slot `k` and its children; `k`'s parent is
   * still no greater than `k`'s children.  This is what `_sink` repairs.
   */
  ghost predicate HeapOrderedExceptDown<K, V>(s: seq<Entry<K, V>>, cmp: (K, K) -> int, k: nat) {
    (forall p: nat, c :: c < |s| && (c == 2 * p + 1 || c == 2 * p + 2) && p != k ==> cmp(s[p].key, s[c].key) <= 0) &&
    (forall c :: c < |s| && (c == 2 * k + 1 || c == 2 * k + 2) && k > 0 ==> cmp(s[(k - 1) / 2].key, s[c].key) <= 0)
  }

  /** The root of a heap-ordered sequence is no greater than any entry. */
  lemma {:induction false} RootIsMin<K(!new), V>(s: seq<Entry<K, V>>, cmp: (K, K) -> int, i: nat)
    requires TotalPreorder(cmp) && HeapOrdered(s, cmp) && i < |s|
    ensures cmp(s[0].key, s[i].key) <= 0
    decreases i
  {
    if i > 0 {
      RootIsMin(s, cmp, (i - 1) / 2);
    }
  }

  /** `exchange` on the backing list: two slots trade entries, nothing else moves. */
  function Swap<T>(s: seq<T>, i: nat, j: nat): (r: seq<T>)
    requires i < |s| && j < |s|
    ensures |r| == |s| && r[i] == s[j] && r[j] == s[i]
    ensures forall k :: 0 <= k < |s| && k != i && k != j ==> r[k] == s[k]
    ensures multiset(r) == multiset(s)
  {
    s[i := s[j]][j := s[i]]
  }

  /**
   * The slot `_sink` moves slot `i` to: the left child if its key is smaller
   * than `i`'s, then the right child if its key is smaller than the one chosen.
   */
  function Smallest<K(!new), V>(s: seq<Entry<K, V>>, cmp: (K, K) -> int, i: nat): (m: nat)
    requires TotalPreorder(cmp) && (i < |s| || i == 0)
    ensures m == i || (m == 2 * i + 1 && m < |s|) || (m == 2 * i + 2 && m < |s|)
    ensures i < |s| ==> cmp(s[m].key, s[i].key) <= 0
    ensures 2 * i + 1 < |s| ==> cmp(s[m].key, s[2 * i + 1].key) <= 0
    ensures 2 * i + 2 < |s| ==> cmp(s[m].key, s[2 * i + 2].key) <= 0
  {
    var left := 2 * i + 1;
    var right := 2 * i + 2;
    var m := if left < |s| && cmp(s[i].key, s[left].key) > 0 then left else i;
    if right < |s| && cmp(s[m].key, s[right].key) > 0 then right else m
  }

  /** The heap of `priority_queue.py`. */
  class MinHeap<K(!new), V> {
    var elements: seq<Entry<K, V>>
    var size: nat
    const cmp: (K, K) -> int

    /** `size` counts the entries of the list, which are in heap order. */
    ghost predicate Valid()
      reads this
    {
      TotalPreorder(cmp) && size == |elements| && HeapOrdered(elements, cmp)
    }

    /** `new_heap` with a given comparison function: an empty heap. */
    constructor (cmp: (K, K) -> int)
      requires TotalPreorder(cmp)
      ensures Valid() && this.cmp == cmp
      ensures elements == [] && size == 0
    {
      this.cmp := cmp;
      elements := [];
      size := 0;
    }

    /** `size`: the number of entries. */
    function Size(): (n: nat)
      reads this
      requires Valid()
      ensures n == |elements|
    {
      size
    }

    /** `is_empty`: there are no entries. */
    function IsEmpty(): (b: bool)
      reads this
      requires Valid()
      ensures b <==> elements == []
    {
      size == 0
    }

    /** `get_first_priority`: the smallest key, or `None` for an empty heap. */
    function GetFirstPriority(): (r: Option<K>)
      reads this
      requires Valid()
      ensures r.None? <==> elements == []
      ensures r.Some? ==> exists i :: 0 <= i < |elements| && elements[i].key == r.value
      ensures r.Some? ==> forall i :: 0 <= i < |elements| ==> cmp(r.value, elements[i].key) <= 0
    {
      if size == 0 then None
      else
        assert forall i :: 0 <= i < |elements| ==> cmp(elements[0].key, elements[i].key) <= 0 by {
          forall i | 0 <= i < |elements| {
            RootIsMin(elements, cmp, i);
          }
        }
        Some(elements[0].key)
    }

    /** `_swim`: moves the entry at `idx` up until its parent is no greater. */
    method Swim(idx: nat)
      requires TotalPreorder(cmp) && size == |elements| && idx < size
      requires HeapOrderedExceptUp(elements, cmp, idx)
      modifies this
      ensures Valid()
      ensures size == old(size)
      ensures multiset(elements) == multiset(old(elements))
    {
      var i: nat := idx;
      while i > 0
        invariant i < size == |elements| && size == old(size)
        invariant HeapOrderedExceptUp(elements, cmp, i)
        invariant multiset(elements) == multiset(old(elements))
      {
        var parent := (i - 1) / 2;
        if cmp(elements[parent].key, elements[i].key) > 0 {
          SwimStep(elements, cmp, i);
          elements := Swap(elements, i, parent);
          i := parent;
        } else {
          ExceptUpHealed(elements, cmp, i);
          break;
        }
      }
      if i == 0 {
        ExceptUpHealed(elements, cmp, i);
      }
    }

    /** `_sink`: moves the entry at `idx` down below every smaller child. */
    method Sink(idx: nat)
      requires TotalPreorder(cmp) && size == |elements| && (idx < size || idx == 0)
      requires HeapOrderedExceptDown(elements, cmp, idx)
      modifies this
      ensures Valid()
      ensures size == old(size)
      ensures multiset(elements) == multiset(old(elements))
    {
      var i: nat := idx;
      while true
        invariant size == |elements| && size == old(size) && (i < size || i == 0)
        invariant HeapOrderedExceptDown(elements, cmp, i)
        invariant multiset(elements) == multiset(old(elements))
        decreases size - i
      {
        var smallest := Smallest(elements, cmp, i);
        if smallest != i {
          SinkOnce(elements, cmp, i);
          elements := Swap(elements, i, smallest);
          i := smallest;
        } else {
          SinkDone(elements, cmp, i);
          break;
        }
      }
    }

    /** `insert`: the entry joins the heap, which stays in heap order. */
    method Insert(key: K, value: V)
      requires Valid()
      modifies this
      ensures Valid()
      ensures size == old(size) + 1
      ensures multiset(elements) == multiset(old(elements)) + multiset{Entry(key, value)}
    {
      elements := elements + [Entry(key, value)];
      size := size + 1;
      Swim(size - 1);
    }

    /**
     * `remove`, with the list shrunk by the removed slot: the root's key is
     * returned, the last entry takes the root's place and sinks.
     */
    method Remove() returns (r: Option<K>)
      requires Valid()
      modifies this
      ensures Valid()
      ensures old(size) == 0 ==> r.None? && elements == old(elements) && size == 0
      ensures old(size) > 0 ==> r == Some(old(elements)[0].key) && size == old(size) - 1
      ensures old(size) > 0 ==>
        multiset(elements) == multiset(old(elements)) - multiset{old(elements)[0]}
      ensures old(size) > 0 ==>
        forall i :: 0 <= i < |old(elements)| ==> cmp(r.value, old(elements)[i].key) <= 0
    {
      if size == 0 {
        return None;
      }
      var first := elements[0];
      RootIsLeast(elements, cmp);
      RemoveLastIntoRoot(elements);
      LastIntoRootOrder(elements, cmp);
      elements := elements[0 := elements[size - 1]][..size - 1];
      size := size - 1;
      Sink(0);
      return Some(first.key);
    }
  }

  /** The root of a heap-ordered sequence is no greater than any of its entries. */
  lemma RootIsLeast<K(!new), V>(s: seq<Entry<K, V>>, cmp: (K, K) -> int)
    requires TotalPreorder(cmp) && HeapOrdered(s, cmp) && |s| > 0
    ensures forall i :: 0 <= i < |s| ==> cmp(s[0].key, s[i].key) <= 0
  {
    forall i | 0 <= i < |s|
      ensures cmp(s[0].key, s[i].key) <= 0
    {
      RootIsMin(s, cmp, i);
    }
  }

  /** Moving the last entry of a heap into the root leaves heap order broken only below the root. */
  lemma LastIntoRootOrder<K, V>(s: seq<Entry<K, V>>, cmp: (K, K) -> int)
    requires HeapOrdered(s, cmp) && |s| > 0
    ensures HeapOrderedExceptDown(s[0 := s[|s| - 1]][..|s| - 1], cmp, 0)
  {
  }

  /** Moving the last entry into the root and dropping the last slot loses exactly the root. */
  lemma RemoveLastIntoRoot<K, V>(s: seq<Entry<K, V>>)
    requires |s| > 0
    ensures multiset(s[0 := s[|s| - 1]][..|s| - 1]) == multiset(s) - multiset{s[0]}
  {
    var n := |s|;
    if n > 1 {
      assert s == [s[0]] + s[1..n - 1] + [s[n - 1]];
      assert s[0 := s[n - 1]][..n - 1] == [s[n - 1]] + s[1..n - 1];
    }
  }

  /** Once slot `k` is no smaller than its parent, the whole sequence is in heap order. */
  lemma ExceptUpHealed<K, V>(s: seq<Entry<K, V>>, cmp: (K, K) -> int, k: nat)
    requires k < |s| && HeapOrderedExceptUp(s, cmp, k)
    requires k > 0 ==> cmp(s[(k - 1) / 2].key, s[k].key) <= 0
    ensures HeapOrdered(s, cmp)
  {
    forall p: nat, c | c < |s| && (c == 2 * p + 1 || c == 2 * p + 2)
      ensures cmp(s[p].key, s[c].key) <= 0
    {
      if c == k {
        assert p == (k - 1) / 2;
      }
    }
  }

  /** Once slot `k` is no greater than its children, the whole sequence is in heap order. */
  lemma ExceptDownHealed<K, V>(s: seq<Entry<K, V>>, cmp: (K, K) -> int, k: nat)
    requires HeapOrderedExceptDown(s, cmp, k)
    requires 2 * k + 1 < |s| ==> cmp(s[k].key, s[2 * k + 1].key) <= 0
    requires 2 * k + 2 < |s| ==> cmp(s[k].key, s[2 * k + 2].key) <= 0
    ensures HeapOrdered(s, cmp)
  {
  }

  /** One exchange of `_swim` turns "broken at i" into "broken at i's parent". */
  lemma SwimStep<K(!new), V>(s: seq<Entry<K, V>>, cmp: (K, K) -> int, i: nat)
    requires TotalPreorder(cmp) && 0 < i < |s|
    requires HeapOrderedExceptUp(s, cmp, i)
    requires cmp(s[(i - 1) / 2].key, s[i].key) > 0
    ensures HeapOrderedExceptUp(Swap(s, i, (i - 1) / 2), cmp, (i - 1) / 2)
  {
  }

  /** When `_sink` exchanges slot `i` with `Smallest`, heap order is broken only below that child. */
  lemma SinkOnce<K(!new), V>(s: seq<Entry<K, V>>, cmp: (K, K) -> int, i: nat)
    requires TotalPreorder(cmp) && i < |s| && HeapOrderedExceptDown(s, cmp, i) && Smallest(s, cmp, i) != i
    ensures i < Smallest(s, cmp, i) < |s|
    ensures HeapOrderedExceptDown(Swap(s, i, Smallest(s, cmp, i)), cmp, Smallest(s, cmp, i))
  {
    SinkStep(s, cmp, i, Smallest(s, cmp, i));
  }

  /** When slot `i` is already the smallest among itself and its children, `_sink` is done. */
  lemma SinkDone<K(!new), V>(s: seq<Entry<K, V>>, cmp: (K, K) -> int, i: nat)
    requires TotalPreorder(cmp) && (i < |s| || i == 0) && HeapOrderedExceptDown(s, cmp, i) && Smallest(s, cmp, i) == i
    ensures HeapOrdered(s, cmp)
  {
    ExceptDownHealed(s, cmp, i);
  }

  /** One exchange of `_sink` turns "broken at i" into "broken at the smaller child". */
  lemma SinkStep<K, V>(s: seq<Entry<K, V>>, cmp: (K, K) -> int, i: nat, c: nat)
    requires i < c < |s|
    requires c == 2 * i + 1 || c == 2 * i + 2
    requires HeapOrderedExceptDown(s, cmp, i)
    requires cmp(s[c].key, s[i].key) <= 0
    requires 2 * i + 1 < |s| ==> cmp(s[c].key, s[2 * i + 1].key) <= 0
    requires 2 * i + 2 < |s| ==> cmp(s[c].key, s[2 * i + 2].key) <= 0
    ensures HeapOrderedExceptDown(Swap(s, i, c), cmp, c)
  {
    var r := Swap(s, i, c);
    forall p: nat, d | d < |r| && (d == 2 * p + 1 || d == 2 * p + 2) && p != c
      ensures cmp(r[p].key, r[d].key) <= 0
    {
      assert (c - 1) / 2 == i;
      if d == c {
        assert r[p] == s[c] && r[d] == s[i];
      } else if d == i {
        assert r[p] == s[p] && r[d] == s[c];
        assert cmp(s[(i - 1) / 2].key, s[c].key) <= 0;
      } else if p == i {
        assert d == 2 * i + 1 || d == 2 * i + 2;
        assert r[p] == s[c] && r[d] == s[d];
      } else {
        assert r[p] == s[p] && r[d] == s[d];
        assert cmp(s[p].key, s[d].key) <= 0;
      }
    }
    forall d | d < |r| && (d == 2 * c + 1 || d == 2 * c + 2) && c > 0
      ensures cmp(r[(c - 1) / 2].key, r[d].key) <= 0
    {
      assert (c - 1) / 2 == i;
      assert r[(c - 1) / 2] == s[c] && r[d] == s[d];
      assert cmp(s[c].key, s[d].key) <= 0;
    }
  }

  /**
   * The backing list of `priority_queue.py` as written: a slot may hold an
   * entry or `None`, and its length need not equal `size`.
   */
  type Slots<K, V> = seq<Option<Entry<K, V>>>

  /**
   * `remove` as written, on the slots (the `_sink` that follows only reads and
   * exchanges slots below the new size, so it is left out here): the last live
   * slot is overwritten with `None` but stays in the list.
   */
  function RemoveSlotsAsWritten<K, V>(slots: Slots<K, V>, size: nat): (r: (Slots<K, V>, nat))
    requires 0 < size <= |slots|
    ensures |r.0| == |slots| && r.1 == size - 1
    ensures r.0[size - 1] == None
    ensures size > 1 ==> r.0[0] == slots[size - 1]
  {
    (slots[0 := slots[size - 1]][size - 1 := None], size - 1)
  }

  /** `insert` as written, on the slots: the entry goes after the last slot of the list, not at `size`. */
  function InsertSlotsAsWritten<K, V>(slots: Slots<K, V>, size: nat, key: K, value: V): (r: (Slots<K, V>, nat))
    ensures |r.0| == |slots| + 1 && r.1 == size + 1
    ensures r.0[|slots|] == Some(Entry(key, value))
    ensures r.0[..|slots|] == slots
  {
    (slots + [Some(Entry(key, value))], size + 1)
  }

  /**
   * A `remove` followed by an `insert`, as written, on a full list: the live
   * slots (the first `size`) are exactly what `remove` left, ending with its
   * `None`, and the inserted entry lies beyond them, where `_swim`, `_sink`,
   * `get_first_priority` and `remove` never look.
   */
  lemma RemoveThenInsertAsWritten<K, V>(slots: Slots<K, V>, key: K, value: V)
    requires |slots| > 0
    ensures var (a, m) := RemoveSlotsAsWritten(slots, |slots|);
            var (b, n) := InsertSlotsAsWritten(a, m, key, value);
            n == |slots| && b[..n] == a && b[n - 1] == None && b[n] == Some(Entry(key, value))
  {
  }

  /**
   * The smallest instance: one entry removed, then `insert(heap, 2.0, "b")`.
   * The heap reports one entry, yet its only live slot is empty.
   */
  lemma RemoveThenInsertCounterexample()
    ensures var (a, m) := RemoveSlotsAsWritten([Some(Entry(1.0, "a"))], 1);
            var (b, n) := InsertSlotsAsWritten(a, m, 2.0, "b");
            n == 1 && b == [None, Some(Entry(2.0, "b"))]
  {
  }
}
