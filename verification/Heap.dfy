/**
  The priority queue of trees.c: pqdownheap, pqremove and the building of the initial heap.

  heap[1..len] is a binary heap of tree nodes; nodes are compared by frequency and then by
  depth, which for depths of one byte is the order of a single number.
 */
module Heap {
  const HEAP_SIZE: nat := 573

  /** Frequencies and depths of the tree nodes. */
  datatype Keys = Keys(freq: seq<nat>, depth: seq<nat>)

  predicate ValidKeys(k: Keys) {
    |k.freq| <= |k.depth| && forall n :: 0 <= n < |k.depth| ==> k.depth[n] < 256
  }

  function Key(k: Keys, n: nat): nat {
    if n < |k.freq| && n < |k.depth| then 256 * k.freq[n] + k.depth[n] else 0
  }

  /** smaller(tree, n, m, depth) */
  predicate Smaller(k: Keys, n: nat, m: nat)
    requires n < |k.freq| <= |k.depth| && m < |k.freq|
  {
    k.freq[n] < k.freq[m] || (k.freq[n] == k.freq[m] && k.depth[n] <= k.depth[m])
  }

  lemma SmallerIsKey(k: Keys, n: nat, m: nat)
    requires ValidKeys(k) && n < |k.freq| && m < |k.freq|
    ensures Smaller(k, n, m) <==> Key(k, n) <= Key(k, m)
    ensures Smaller(k, n, m) ==> k.freq[n] <= k.freq[m]
  {}

  /** The elements of the heap are nodes. */
  predicate Nodes(h: seq<nat>, len: nat, k: Keys) {
    len < |h| && forall i :: 1 <= i <= len ==> h[i] < |k.freq|
  }

  /** Node p of the heap is no larger than its sons. */
  predicate Father(h: seq<nat>, len: nat, k: Keys, p: nat)
    requires len < |h|
  {
    (2 * p <= len ==> Key(k, h[p]) <= Key(k, h[2 * p])) &&
    (2 * p + 1 <= len ==> Key(k, h[p]) <= Key(k, h[2 * p + 1]))
  }

  ghost predicate Ordered(h: seq<nat>, len: nat, k: Keys, from: nat)
    requires len < |h|
  {
    forall p {:trigger Father(h, len, k, p)} :: from <= p <= len ==> Father(h, len, k, p)
  }

  /** The nodes in the heap. */
  function Content(h: seq<nat>, len: nat): multiset<nat>
    requires len < |h|
  {
    multiset(h[1..len + 1])
  }

  lemma ContentSwap(h: seq<nat>, len: nat, i: nat, j: nat)
    requires len < |h| && 1 <= i <= len && 1 <= j <= len
    ensures Content(h[i := h[j]][j := h[i]], len) == Content(h, len)
  {
    var s := h[1..len + 1];
    assert h[i := h[j]][j := h[i]][1..len + 1] == s[i - 1 := s[j - 1]][j - 1 := s[i - 1]];
  }

  /** The heap is in order from `from` on, except for the node at k; its father and its sons are in order. */
  ghost predicate Sifting(h: seq<nat>, len: nat, k: Keys, from: nat, at: nat)
    requires len < |h|
  {
    && (forall p {:trigger Father(h, len, k, p)} :: from <= p <= len && p != at ==> Father(h, len, k, p))
    && (at > from ==>
          (from <= at / 2 &&
          (2 * at <= len ==> Key(k, h[at / 2]) <= Key(k, h[2 * at])) &&
          (2 * at + 1 <= len ==> Key(k, h[at / 2]) <= Key(k, h[2 * at + 1]))))
  }

  /** The son that moves up: the lesser one. */
  predicate LeastSon(h: seq<nat>, len: nat, k: Keys, at: nat, j: nat)
    requires len < |h|
  {
    (j == 2 * at || j == 2 * at + 1) && j <= len && 1 <= at &&
    Key(k, h[j]) <= Key(k, h[2 * at]) && (2 * at + 1 <= len ==> Key(k, h[j]) <= Key(k, h[2 * at + 1]))
  }

  lemma SiftStep(h: seq<nat>, len: nat, k: Keys, from: nat, at: nat, j: nat)
    requires len < |h| && 1 <= from <= at && LeastSon(h, len, k, at, j)
    requires Sifting(h, len, k, from, at) && Key(k, h[j]) <= Key(k, h[at])
    ensures Sifting(h[at := h[j]][j := h[at]], len, k, from, j)
  {
    hide Key;
    var g := h[at := h[j]][j := h[at]];
    forall p | from <= p <= len && p != j ensures Father(g, len, k, p) {
      if p != at {
        assert Father(h, len, k, p);
      }
    }
    assert j / 2 == at;
    if 2 * j <= len {
      assert Father(h, len, k, j);
    }
  }

  lemma SiftEnd(h: seq<nat>, len: nat, k: Keys, from: nat, at: nat)
    requires len < |h| && 1 <= from <= at <= len && Sifting(h, len, k, from, at)
    requires 2 * at > len || exists j: nat :: LeastSon(h, len, k, at, j) && Key(k, h[at]) <= Key(k, h[j])
    ensures Ordered(h, len, k, from)
  {
    hide Key;
    assert Father(h, len, k, at);
  }

  /** pqdownheap: move the node at k down until both its sons are no smaller. */
  method PqDownHeap(heap: array<nat>, heapLen: nat, fc: array<nat>, depth: array<nat>, k: nat)
    requires heap != fc && heap != depth && heapLen < heap.Length && 1 <= k <= heapLen && fc.Length <= depth.Length
    requires ValidKeys(Keys(fc[..], depth[..])) && Nodes(heap[..], heapLen, Keys(fc[..], depth[..]))
    requires Ordered(heap[..], heapLen, Keys(fc[..], depth[..]), k + 1)
    modifies heap
    ensures Ordered(heap[..], heapLen, Keys(fc[..], depth[..]), k)
    ensures Nodes(heap[..], heapLen, Keys(fc[..], depth[..]))
    ensures Content(heap[..], heapLen) == old(Content(heap[..], heapLen))
    ensures forall i :: 0 <= i < heap.Length && (i < k || heapLen < i) ==> heap[i] == old(heap[i])
  {
    hide Key, Father, Sifting, Smaller, Content, ValidKeys;
    ghost var keys, filled := Keys(fc[..], depth[..]), heap[..];
    var v := heap[k];
    var at := k;
    var j := 2 * at;
    SiftStart(filled, heapLen, keys, k);
    while j <= heapLen
      invariant k <= at <= heapLen && j == 2 * at
      invariant |filled| == heap.Length && filled == heap[..][at := v] && Nodes(filled, heapLen, keys)
      invariant Sifting(filled, heapLen, keys, k, at)
      invariant Content(filled, heapLen) == old(Content(heap[..], heapLen))
      invariant forall i :: 0 <= i < heap.Length && (i < k || heapLen < i) ==> heap[i] == old(heap[i])
      decreases heapLen - at
    {
      assert heap[j] == filled[j] && (j < heapLen ==> heap[j + 1] == filled[j + 1]);
      if j < heapLen && Smaller(Keys(fc[..], depth[..]), heap[j + 1], heap[j]) {
        j := j + 1;
      }
      LeastSonIs(filled, heapLen, keys, at, j);
      SmallerIsKey(keys, v, heap[j]);
      if Smaller(Keys(fc[..], depth[..]), v, heap[j]) { break; }
      ghost var before := filled;
      SiftStep(filled, heapLen, keys, k, at, j);
      ContentSwap(filled, heapLen, at, j);
      heap[at] := heap[j];
      filled := heap[..][j := v];
      assert filled == before[at := before[j]][j := before[at]];
      at := j;
      j := 2 * at;
    }
    heap[at] := v;
    assert heap[..] == filled;
    SiftEnd(filled, heapLen, keys, k, at);
  }

  lemma SiftStart(h: seq<nat>, len: nat, k: Keys, from: nat)
    requires len < |h| && Ordered(h, len, k, from + 1)
    ensures Sifting(h, len, k, from, from)
  {
    hide Father;
  }

  lemma LeastSonIs(h: seq<nat>, len: nat, k: Keys, at: nat, j: nat)
    requires ValidKeys(k) && Nodes(h, len, k) && 1 <= at && (j == 2 * at || j == 2 * at + 1) && j <= len
    requires j == 2 * at + 1 ==> Smaller(k, h[j], h[2 * at])
    requires j == 2 * at && j < len ==> !Smaller(k, h[j + 1], h[j])
    ensures LeastSon(h, len, k, at, j)
  {
    if 2 * at < len {
      SmallerIsKey(k, h[2 * at + 1], h[2 * at]);
    }
  }

  /** The first element is the least. */
  lemma {:induction false} TopLeast(h: seq<nat>, len: nat, k: Keys, i: nat)
    requires len < |h| && Ordered(h, len, k, 1) && 1 <= i <= len
    ensures Key(k, h[1]) <= Key(k, h[i])
  {
    hide Key;
    if i > 1 {
      TopLeast(h, len, k, i / 2);
      assert Father(h, len, k, i / 2);
    }
  }
}
