/**
  build_tree of trees.c up to gen_bitlen: collect the used symbols, make a heap of them, and
  combine the two least frequent nodes until one is left.

  fc holds the frequencies and later the codes, dl the fathers and later the lengths, as the
  two unions of ct_data do.
 */
module TreeBuilding {
  import opened Bits
  import opened Heap
  import opened Huffman

  /** The heap holds exactly the nodes of the frontier. */
  ghost predicate Holds(h: seq<nat>, len: nat, k: Keys, a: set<nat>) {
    Nodes(h, len, k) && ValidKeys(k) && Content(h, len) == multiset(a) && |a| == len
  }

  lemma ContentIn(h: seq<nat>, len: nat, i: nat)
    requires len < |h| && 1 <= i <= len
    ensures h[i] in Content(h, len)
  {
    assert h[1..len + 1][i - 1] == h[i];
  }

  lemma ContentIndex(h: seq<nat>, len: nat, x: nat) returns (i: nat)
    requires len < |h| && x in Content(h, len)
    ensures 1 <= i <= len && h[i] == x
  {
    var s := h[1..len + 1];
    assert x in s;
    var j :| 0 <= j < |s| && s[j] == x;
    i := j + 1;
  }

  /** The top of the heap is a node of least frequency, and of those one of least depth. */
  lemma TopIsLeast(h: seq<nat>, len: nat, k: Keys, a: set<nat>)
    requires Holds(h, len, k, a) && Ordered(h, len, k, 1) && 1 <= len
    ensures Least(a, k.freq, h[1]) && forall x :: x in a ==> Key(k, h[1]) <= Key(k, x)
  {
    hide Key, Father;
    ContentIn(h, len, 1);
    forall x | x in a ensures x < |k.freq| && k.freq[h[1]] <= k.freq[x] && Key(k, h[1]) <= Key(k, x) {
      assert x in Content(h, len);
      var i := ContentIndex(h, len, x);
      TopLeast(h, len, k, i);
      SmallerIsKey(k, h[1], x);
    }
  }

  lemma RemoveContent(h: seq<nat>, len: nat, a: set<nat>)
    requires 2 <= len < |h| && Content(h, len) == multiset(a)
    ensures h[1] in a && Content(h[1 := h[len]], len - 1) == multiset(a - {h[1]})
  {
    ContentIn(h, len, 1);
    assert h[1..len + 1] == [h[1]] + h[2..len] + [h[len]];
    assert h[1 := h[len]][1..len] == [h[len]] + h[2..len];
    assert multiset(a - {h[1]}) == multiset(a) - multiset{h[1]};
  }

  lemma RemoveOrdered(h: seq<nat>, len: nat, k: Keys, last: nat)
    requires 2 <= len < |h| && Ordered(h, len, k, 1) && last == len - 1
    ensures Ordered(h[1 := h[len]], last, k, 2)
  {
    hide Key;
    var g := h[1 := h[len]];
    forall p | 2 <= p <= last ensures Father(g, last, k, p) {
      assert Father(h, len, k, p);
    }
  }

  /** Moving the last element to the front removes the first. */
  lemma RemoveFirst(h: seq<nat>, len: nat, k: Keys, a: set<nat>)
    requires Holds(h, len, k, a) && Ordered(h, len, k, 1) && 2 <= len
    ensures h[1] in a
    ensures var g := h[1 := h[len]];
            Holds(g, len - 1, k, a - {h[1]}) && Ordered(g, len - 1, k, 2)
  {
    hide Key, ValidKeys, Content, Ordered;
    RemoveContent(h, len, a);
    RemoveOrdered(h, len, k, len - 1);
  }

  /** pqremove: take the least element off the heap. */
  method PqRemove(heap: array<nat>, heapLen: nat, fc: array<nat>, depth: array<nat>, ghost a: set<nat>)
    returns (top: nat, len: nat)
    requires heap != fc && heap != depth && fc.Length <= depth.Length && 2 <= heapLen
    requires Holds(heap[..], heapLen, Keys(fc[..], depth[..]), a)
    requires Ordered(heap[..], heapLen, Keys(fc[..], depth[..]), 1)
    modifies heap
    ensures len == heapLen - 1 && top in a && Least(a, fc[..], top)
    ensures forall x :: x in a ==> Key(Keys(fc[..], depth[..]), top) <= Key(Keys(fc[..], depth[..]), x)
    ensures Holds(heap[..], len, Keys(fc[..], depth[..]), a - {top})
    ensures Ordered(heap[..], len, Keys(fc[..], depth[..]), 1)
    ensures forall i :: heapLen < i < heap.Length ==> heap[i] == old(heap[i])
  {
    hide Father, Content, Least, ValidKeys, Key;
    ghost var h, k := heap[..], Keys(fc[..], depth[..]);
    TopIsLeast(h, heapLen, k, a);
    RemoveFirst(h, heapLen, k, a);
    top := heap[1];
    heap[1] := heap[heapLen];
    len := heapLen - 1;
    assert heap[..] == h[1 := h[heapLen]];
    PqDownHeap(heap, len, fc, depth, 1);
  }

  /** Putting a new node in place of the first. */
  lemma ReplaceFirst(h: seq<nat>, len: nat, k: Keys, k': Keys, a: set<nat>, z: nat)
    requires Holds(h, len, k, a) && Ordered(h, len, k, 1) && 1 <= len
    requires z !in a && z < |k'.freq| == |k.freq| && ValidKeys(k')
    requires forall x :: x in a ==> Key(k', x) == Key(k, x)
    ensures Holds(h[1 := z], len, k', a - {h[1]} + {z}) && Ordered(h[1 := z], len, k', 2)
  {
    hide Key, ValidKeys;
    var g := h[1 := z];
    ContentIn(h, len, 1);
    assert h[1..len + 1] == [h[1]] + h[2..len + 1];
    assert g[1..len + 1] == [z] + h[2..len + 1];
    assert multiset(a - {h[1]} + {z}) == multiset(a) - multiset{h[1]} + multiset{z};
    forall p | 2 <= p <= len ensures Father(g, len, k', p) {
      assert Father(h, len, k, p);
      ContentIn(h, len, p);
      if 2 * p <= len { ContentIn(h, len, 2 * p); }
      if 2 * p + 1 <= len { ContentIn(h, len, 2 * p + 1); }
    }
  }

  /** The state of build_tree's main loop, seen through the merges done so far. */
  ghost predicate Combining(h: seq<nat>, len: nat, max: nat, k: Keys, dl: seq<nat>, leaves: set<nat>, elems: nat, merges: seq<Merge>) {
    && |h| == HEAP_SIZE && max == HEAP_SIZE - 2 * |merges| && len < max
    && |dl| == |k.freq| && elems + |leaves| <= |k.freq| + 1
    && Merging(leaves, elems, merges) && Adds(elems, merges, k.freq) && Greedy(leaves, elems, merges, k.freq)
    && Holds(h, len, k, Frontier(leaves, elems, merges)) && Ordered(h, len, k, 1)
    && h[max..] == Listed(merges) && Fathers(dl, elems, merges)
  }

  /** Dad fields. */
  predicate Fathers(dl: seq<nat>, elems: nat, merges: seq<Merge>) {
    forall k :: 0 <= k < |merges| ==>
      merges[k].n < |dl| && merges[k].m < |dl| && dl[merges[k].n] == elems + k && dl[merges[k].m] == elems + k
  }

  /** The 16-bit frequency and the 8-bit depth of a father. */
  function FatherFreq(f: nat, g: nat): nat {
    Low(f + g, 16)
  }

  function FatherDepth(d: nat, e: nat): nat {
    Low((if d >= e then d else e) + 1, 8)
  }

  /** The depth of every father is that of its deeper son and one more, in 8 bits. */
  predicate Leveled(depth: seq<nat>, elems: nat, merges: seq<Merge>) {
    forall k :: 0 <= k < |merges| ==>
      elems + k < |depth| && merges[k].n < elems + k && merges[k].m < elems + k &&
      depth[elems + k] == FatherDepth(depth[merges[k].n], depth[merges[k].m])
  }

  /** How many nodes there are below x on the longest way down. */
  function Height(elems: nat, merges: seq<Merge>, x: nat): nat
    decreases x
  {
    if elems <= x < elems + |merges| && merges[x - elems].n < x && merges[x - elems].m < x then
      var h, g := Height(elems, merges, merges[x - elems].n), Height(elems, merges, merges[x - elems].m);
      1 + if h >= g then h else g
    else 0
  }

  /** As long as it fits in 8 bits, the depth kept for a node is the height of its tree. */
  lemma {:induction false} DepthIsHeight(depth: seq<nat>, elems: nat, merges: seq<Merge>, x: nat)
    requires Leveled(depth, elems, merges) && x < elems + |merges| <= |depth| && Height(elems, merges, x) < 256
    requires forall i: nat :: i < elems && Joined(merges, i) ==> depth[i] == 0
    requires x < elems ==> Joined(merges, x)
    ensures depth[x] == Height(elems, merges, x)
    decreases x
  {
    hide Low;
    if x >= elems {
      var j := merges[x - elems];
      assert Joined(merges, j.n) && Joined(merges, j.m);
      DepthIsHeight(depth, elems, merges, j.n);
      DepthIsHeight(depth, elems, merges, j.m);
      Pow2Values();
      LowSmall(Height(elems, merges, x), 8);
    }
  }

  /** x has been merged. */
  predicate Joined(merges: seq<Merge>, x: nat) {
    exists k :: 0 <= k < |merges| && (merges[k].n == x || merges[k].m == x)
  }

  lemma LeveledStep(depth: seq<nat>, elems: nat, merges: seq<Merge>, n: nat, m: nat, node: nat)
    requires Leveled(depth, elems, merges) && node == elems + |merges| < |depth| && n < node && m < node
    ensures Leveled(depth[node := FatherDepth(depth[n], depth[m])], elems, merges + [Merge(n, m)])
  {
    hide FatherDepth;
  }

  lemma AddsStep(elems: nat, merges: seq<Merge>, freq: seq<nat>, n: nat, m: nat)
    requires Adds(elems, merges, freq) && elems + |merges| < |freq| && n < |freq| && m < |freq|
    requires n != elems + |merges| && m != elems + |merges|
    requires forall k :: 0 <= k < |merges| ==> merges[k].n < elems + k && merges[k].m < elems + k
    ensures Adds(elems, merges + [Merge(n, m)], freq[elems + |merges| := freq[n] + freq[m]])
  {
    var more, g := merges + [Merge(n, m)], freq[elems + |merges| := freq[n] + freq[m]];
    forall k | 0 <= k < |more|
      ensures more[k].n < |g| && more[k].m < |g| && g[elems + k] == g[more[k].n] + g[more[k].m]
    {
      if k < |merges| {
        assert more[k] == merges[k];
      }
    }
  }

  lemma GreedyFrame(leaves: set<nat>, elems: nat, merges: seq<Merge>, freq: seq<nat>, g: seq<nat>)
    requires Merging(leaves, elems, merges) && Greedy(leaves, elems, merges, freq) && |g| == |freq|
    requires forall x :: 0 <= x < |freq| && x < elems + |merges| ==> g[x] == freq[x]
    ensures Greedy(leaves, elems, merges, g)
  {
    hide Frontier, Merging;
    forall k | 0 <= k < |merges|
      ensures var a := Frontier(leaves, elems, merges[..k]);
              Least(a, g, merges[k].n) && Least(a - {merges[k].n}, g, merges[k].m)
    {
      MergingInit(leaves, elems, merges, k);
      FrontierBound(leaves, elems, merges[..k]);
    }
  }

  lemma GreedyStep(leaves: set<nat>, elems: nat, merges: seq<Merge>, freq: seq<nat>, n: nat, m: nat)
    requires Greedy(leaves, elems, merges, freq)
    requires var a := Frontier(leaves, elems, merges); Least(a, freq, n) && Least(a - {n}, freq, m)
    ensures Greedy(leaves, elems, merges + [Merge(n, m)], freq)
  {
    hide Frontier, Least;
    var more := merges + [Merge(n, m)];
    forall k | 0 <= k < |more|
      ensures var a := Frontier(leaves, elems, more[..k]);
              Least(a, freq, more[k].n) && Least(a - {more[k].n}, freq, more[k].m)
    {
      if k < |merges| {
        assert more[..k] == merges[..k] && more[k] == merges[k];
      } else {
        assert more[..k] == merges;
      }
    }
  }

  lemma MergingStep(leaves: set<nat>, elems: nat, merges: seq<Merge>, n: nat, m: nat)
    requires Merging(leaves, elems, merges) && n != m
    requires n in Frontier(leaves, elems, merges) && m in Frontier(leaves, elems, merges)
    ensures Merging(leaves, elems, merges + [Merge(n, m)])
    ensures Frontier(leaves, elems, merges + [Merge(n, m)]) ==
            Frontier(leaves, elems, merges) - {n, m} + {elems + |merges|}
  {
    assert (merges + [Merge(n, m)])[..|merges|] == merges;
  }

  /** A father is set for the two sons only, whatever fathers were set before. */
  lemma FathersStep(dl: seq<nat>, leaves: set<nat>, elems: nat, merges: seq<Merge>, n: nat, m: nat, z: nat)
    requires Fathers(dl, elems, merges) && Merging(leaves, elems, merges) && z == elems + |merges|
    requires n in Frontier(leaves, elems, merges) && m in Frontier(leaves, elems, merges) && n < |dl| && m < |dl|
    ensures Fathers(dl[n := z][m := z], elems, merges + [Merge(n, m)])
  {
    hide Frontier, Merging;
    var more, g := merges + [Merge(n, m)], dl[n := z][m := z];
    forall k | 0 <= k < |more|
      ensures more[k].n < |g| && more[k].m < |g| && g[more[k].n] == elems + k && g[more[k].m] == elems + k
    {
      if k < |merges| {
        Gone(leaves, elems, merges, k, |merges|, merges[k].n);
        Gone(leaves, elems, merges, k, |merges|, merges[k].m);
        assert merges[..|merges|] == merges;
      }
    }
  }

  /** What one merge does to the forest. */
  lemma MergesGrow(leaves: set<nat>, elems: nat, merges: seq<Merge>, freq: seq<nat>, n: nat, m: nat, z: nat)
    requires Merging(leaves, elems, merges) && Adds(elems, merges, freq) && Greedy(leaves, elems, merges, freq)
    requires var a := Frontier(leaves, elems, merges); Least(a, freq, n) && Least(a - {n}, freq, m)
    requires z == elems + |merges| < |freq|
    ensures var more, g := merges + [Merge(n, m)], freq[z := freq[n] + freq[m]];
            Merging(leaves, elems, more) && Adds(elems, more, g) && Greedy(leaves, elems, more, g)
  {
    hide Frontier, Merging, Adds, Greedy;
    var more, g := merges + [Merge(n, m)], freq[z := freq[n] + freq[m]];
    MergingStep(leaves, elems, merges, n, m);
    FrontierBound(leaves, elems, merges);
    SonsBelow(leaves, elems, merges);
    AddsStep(elems, merges, freq, n, m);
    GreedyFrame(leaves, elems, merges, freq, g);
    LeastFrame(Frontier(leaves, elems, merges), freq, g, z, n);
    LeastFrame(Frontier(leaves, elems, merges) - {n}, freq, g, z, m);
    GreedyStep(leaves, elems, merges, g, n, m);
  }

  lemma LeastFrame(a: set<nat>, freq: seq<nat>, g: seq<nat>, z: nat, n: nat)
    requires Least(a, freq, n) && z !in a && |g| == |freq| && forall x :: 0 <= x < |freq| && x != z ==> g[x] == freq[x]
    ensures Least(a, g, n)
  {}

  lemma SonsBelow(leaves: set<nat>, elems: nat, merges: seq<Merge>)
    requires Merging(leaves, elems, merges)
    ensures forall k :: 0 <= k < |merges| ==> merges[k].n < elems + k && merges[k].m < elems + k
  {
    forall k | 0 <= k < |merges| ensures merges[k].n < elems + k && merges[k].m < elems + k {
      MergedPair(leaves, elems, merges, k);
    }
  }

  /** The frequencies of the frontier always add up to the same total. */
  lemma WeightKept(a: set<nat>, freq: seq<nat>, n: nat, m: nat, z: nat)
    requires n in a && m in a && n != m && z !in a && n < |freq| && m < |freq| && z < |freq|
    ensures freq[n] + freq[m] <= Sum(a, freq)
    ensures Sum(a - {n, m} + {z}, freq[z := freq[n] + freq[m]]) == Sum(a, freq)
  {
    SumPair(a, freq, n, m);
    var g := freq[z := freq[n] + freq[m]];
    SumSame(a, freq, g);
    SumMerge(a, g, n, m, z);
  }

  lemma StackTwo(h: seq<nat>, g: seq<nat>, max: nat, merges: seq<Merge>, n: nat, m: nat)
    requires |g| == |h| && 2 <= max <= |h| && h[max..] == Listed(merges)
    requires (forall i :: max <= i < |h| ==> g[i] == h[i]) && g[max - 1] == n && g[max - 2] == m
    ensures g[max - 2..] == Listed(merges + [Merge(n, m)])
  {
    assert (merges + [Merge(n, m)])[..|merges|] == merges;
    assert g[max - 2..] == [m, n] + g[max..];
    assert g[max..] == h[max..];
  }

  lemma HoldsFrame(h: seq<nat>, g: seq<nat>, len: nat, k: Keys, a: set<nat>)
    requires Holds(h, len, k, a) && |g| == |h| && forall i :: 1 <= i <= len ==> g[i] == h[i]
    ensures Holds(g, len, k, a)
    ensures Ordered(h, len, k, 1) ==> Ordered(g, len, k, 1)
  {
    hide Key;
    assert g[1..len + 1] == h[1..len + 1];
    if Ordered(h, len, k, 1) {
      forall p | 1 <= p <= len ensures Father(g, len, k, p) {
        assert Father(h, len, k, p);
      }
    }
  }

  /** The frequency and depth of a new father. */
  method MakeFather(fc: array<nat>, depth: array<nat>, n: nat, m: nat, node: nat, ghost a: set<nat>)
    requires fc != depth && fc.Length <= depth.Length && n < fc.Length && m < fc.Length && node < fc.Length
    requires ValidKeys(Keys(fc[..], depth[..])) && fc[n] + fc[m] <= 0xffff && node !in a
    modifies fc, depth
    ensures fc[..] == old(fc[..])[node := old(fc[n] + fc[m])]
    ensures depth[..] == old(depth[..])[node := FatherDepth(old(depth[n]), old(depth[m]))]
    ensures ValidKeys(Keys(fc[..], depth[..]))
    ensures forall x :: x in a ==> Key(Keys(fc[..], depth[..]), x) == old(Key(Keys(fc[..], depth[..]), x))
  {
    hide Low;
    Pow2Values();
    LowSmall(fc[n] + fc[m], 16);
    fc[node] := FatherFreq(fc[n], fc[m]);
    depth[node] := FatherDepth(depth[n], depth[m]);
  }

  /** Take the two least frequent nodes, and stack them below heap[heapMax]. */
  method TakeTwo(heap: array<nat>, heapLen: nat, heapMax: nat, fc: array<nat>, depth: array<nat>, ghost a: set<nat>,
                 ghost merges: seq<Merge>)
    returns (n: nat, m: nat, len: nat, max: nat)
    requires heap != fc && heap != depth && fc.Length <= depth.Length && 2 <= heapLen
    requires Holds(heap[..], heapLen, Keys(fc[..], depth[..]), a) && Ordered(heap[..], heapLen, Keys(fc[..], depth[..]), 1)
    requires heapLen + 2 <= heapMax <= heap.Length && heap[heapMax..] == Listed(merges)
    modifies heap
    ensures len == heapLen - 1 && max == heapMax - 2 && Least(a, fc[..], n) && Least(a - {n}, fc[..], m)
    ensures Holds(heap[..], len, Keys(fc[..], depth[..]), a - {n}) && Ordered(heap[..], len, Keys(fc[..], depth[..]), 1)
    ensures heap[1] == m && heap[max..] == Listed(merges + [Merge(n, m)])
  {
    hide Father, Content, Key, ValidKeys, Nodes, Listed, Least;
    n, len := PqRemove(heap, heapLen, fc, depth, a);
    ghost var k := Keys(fc[..], depth[..]);
    TopIsLeast(heap[..], len, k, a - {n});
    m := heap[1];
    ghost var h := heap[..];
    heap[heapMax - 1] := n;
    heap[heapMax - 2] := m;
    max := heapMax - 2;
    HoldsFrame(h, heap[..], len, k, a - {n});
    StackTwo(h, heap[..], heapMax, merges, n, m);
  }

  /** Put the new node in the place of the least and let it sink. */
  method ReplaceTop(heap: array<nat>, len: nat, fc: array<nat>, depth: array<nat>, node: nat, ghost k: Keys, ghost a: set<nat>)
    requires heap != fc && heap != depth && fc.Length <= depth.Length && 1 <= len
    requires Holds(heap[..], len, k, a) && Ordered(heap[..], len, k, 1)
    requires node !in a && node < |k.freq| == fc.Length && ValidKeys(Keys(fc[..], depth[..]))
    requires forall x :: x in a ==> Key(Keys(fc[..], depth[..]), x) == Key(k, x)
    modifies heap
    ensures Holds(heap[..], len, Keys(fc[..], depth[..]), a - {old(heap[1])} + {node})
    ensures Ordered(heap[..], len, Keys(fc[..], depth[..]), 1)
    ensures forall i :: len < i < heap.Length ==> heap[i] == old(heap[i])
  {
    hide Father, Content, Key, ValidKeys;
    ReplaceFirst(heap[..], len, k, Keys(fc[..], depth[..]), a, node);
    ghost var h: seq<nat> := heap[..];
    heap[1] := node;
    assert heap[..] == h[1 := node];
    PqDownHeap(heap, len, fc, depth, 1);
  }

  /** The body of build_tree's main loop: combine the two least frequent nodes. */
  method CombineTwo(heap: array<nat>, heapLen: nat, heapMax: nat, fc: array<nat>, depth: array<nat>, dl: array<nat>,
                    node: nat, ghost leaves: set<nat>, ghost elems: nat, ghost merges: seq<Merge>)
    returns (len: nat, max: nat, ghost more: seq<Merge>)
    requires heap != fc && heap != depth && heap != dl && fc != depth && fc != dl && depth != dl && fc.Length <= depth.Length
    requires Combining(heap[..], heapLen, heapMax, Keys(fc[..], depth[..]), dl[..], leaves, elems, merges)
    requires 2 <= heapLen && node == elems + |merges| && |leaves| <= 286
    requires Sum(Frontier(leaves, elems, merges), fc[..]) <= 0xffff && Leveled(depth[..], elems, merges)
    modifies heap, fc, depth, dl
    ensures len == heapLen - 1 && |more| == |merges| + 1
    ensures Leveled(depth[..], elems, more) && forall i :: 0 <= i < elems ==> depth[i] == old(depth[i])
    ensures Combining(heap[..], len, max, Keys(fc[..], depth[..]), dl[..], leaves, elems, more)
    ensures Sum(Frontier(leaves, elems, more), fc[..]) == old(Sum(Frontier(leaves, elems, merges), fc[..]))
    ensures forall i :: 0 <= i < fc.Length && i != node ==> fc[i] == old(fc[i])
    ensures forall i :: 0 <= i < dl.Length && i !in Frontier(leaves, elems, merges) ==> dl[i] == old(dl[i])
  {
    hide Father, Content, Key, ValidKeys, Nodes, Frontier, Merging, Adds, Greedy, Listed, Sum, Fathers, Least, Ordered, Holds, Leveled, FatherDepth;
    ghost var a := Frontier(leaves, elems, merges);
    FrontierBound(leaves, elems, merges);
    HoldsKeys(heap[..], heapLen, Keys(fc[..], depth[..]), a);
    var n, m;
    n, m, len, max := TakeTwo(heap, heapLen, heapMax, fc, depth, a, merges);
    ghost var k := Keys(fc[..], depth[..]);
    HoldsKeys(heap[..], len, k, a - {n});
    InFrontier(a, fc[..], n, m);
    MergesGrow(leaves, elems, merges, fc[..], n, m, node);
    MergingStep(leaves, elems, merges, n, m);
    WeightKept(a, fc[..], n, m, node);
    LeveledStep(depth[..], elems, merges, n, m, node);
    MakeFather(fc, depth, n, m, node, a);
    more := merges + [Merge(n, m)];
    FathersStep(dl[..], leaves, elems, merges, n, m, node);
    ghost var d: seq<nat> := dl[..];
    dl[n] := node;
    dl[m] := node;
    assert dl[..] == d[n := node][m := node];
    assert a - {n} - {m} + {node} == a - {n, m} + {node};
    ghost var h: seq<nat> := heap[max..];
    ReplaceTop(heap, len, fc, depth, node, k, a - {n});
    assert heap[max..] == h;
  }

  lemma HoldsKeys(h: seq<nat>, len: nat, k: Keys, a: set<nat>)
    requires Holds(h, len, k, a)
    ensures ValidKeys(k) && |a| == len < |h|
  {}

  lemma InFrontier(a: set<nat>, freq: seq<nat>, n: nat, m: nat)
    requires Least(a, freq, n) && Least(a - {n}, freq, m)
    ensures n in a && m in a && n != m && n < |freq| && m < |freq|
  {}

  // ----- the symbols in use -----

  function Used(freq: seq<nat>, n: nat): set<nat>
    requires n <= |freq|
  {
    set i: nat | i < n && freq[i] != 0
  }

  lemma UsedStep(freq: seq<nat>, n: nat)
    requires n < |freq|
    ensures Used(freq, n + 1) == if freq[n] != 0 then Used(freq, n) + {n} else Used(freq, n)
  {}

  lemma Append(h: seq<nat>, len: nat, a: set<nat>, x: nat)
    requires len + 1 < |h| && Content(h, len) == multiset(a) && |a| == len && x !in a
    ensures Content(h[len + 1 := x], len + 1) == multiset(a + {x}) && |a + {x}| == len + 1
  {
    var g := h[len + 1 := x];
    assert g[1..len + 2] == h[1..len + 1] + [x];
    assert multiset(a + {x}) == multiset(a) + multiset{x};
  }

  /** Nothing above maxCode is in use, and maxCode is, unless nothing is. */
  predicate Highest(a: set<nat>, maxCode: int) {
    (forall x :: x in a ==> x <= maxCode) && (if maxCode >= 0 then maxCode in a else maxCode == -1)
  }

  ghost predicate Collected(h: seq<nat>, len: nat, a: set<nat>, maxCode: int) {
    len < |h| && Content(h, len) == multiset(a) && |a| == len && Highest(a, maxCode)
  }

  /** The first loop of build_tree. */
  method CollectSymbols(heap: array<nat>, fc: array<nat>, depth: array<nat>, dl: array<nat>, elems: nat)
    returns (heapLen: nat, maxCode: int)
    requires heap != fc && heap != depth && heap != dl && fc != depth && fc != dl && depth != dl
    requires elems <= 286 && heap.Length == HEAP_SIZE && elems <= fc.Length <= depth.Length && fc.Length == dl.Length
    requires forall i :: 0 <= i < depth.Length ==> depth[i] < 256
    modifies heap, depth, dl
    ensures Collected(heap[..], heapLen, Used(fc[..], elems), maxCode) && heapLen <= elems && maxCode < elems
    ensures forall i :: 0 <= i < depth.Length ==> depth[i] < 256
    ensures forall i :: 0 <= i < elems ==> if fc[i] == 0 then dl[i] == 0 else depth[i] == 0
  {
    hide Content, Used;
    heapLen, maxCode := 0, -1;
    NoneUsed(fc[..], heap[..]);
    for n := 0 to elems
      invariant Collected(heap[..], heapLen, Used(fc[..], n), maxCode) && heapLen <= n && maxCode < n
      invariant forall i :: 0 <= i < depth.Length ==> depth[i] < 256
      invariant forall i :: 0 <= i < n ==> if fc[i] == 0 then dl[i] == 0 else depth[i] == 0
    {
      UsedStep(fc[..], n);
      if fc[n] != 0 {
        ghost var h: seq<nat> := heap[..];
        Append(h, heapLen, Used(fc[..], n), n);
        heapLen, maxCode := heapLen + 1, n;
        heap[heapLen] := n;
        assert heap[..] == h[heapLen := n];
        depth[n] := 0;
      } else {
        dl[n] := 0;
      }
    }
  }

  lemma NoneUsed(freq: seq<nat>, h: seq<nat>)
    requires h != []
    ensures Used(freq, 0) == {} && Content(h, 0) == multiset({})
  {}

  /** The frequencies once codes have been forced: the forced ones were unused and count 1. */
  ghost predicate ForcedTo(old_: seq<nat>, new_: seq<nat>, forced: set<nat>) {
    |old_| == |new_| && (forall x :: x in forced ==> x <= 2 && x < |old_| && old_[x] == 0 && new_[x] == 1) &&
    forall i: nat :: i < |old_| && i !in forced ==> new_[i] == old_[i]
  }

  /** The second loop of build_tree: force two codes, taking back in advance what they will cost. */
  method ForceTwo(heap: array<nat>, heapLen: nat, maxCode: int, fc: array<nat>, depth: array<nat>, elems: nat,
                  stree: seq<nat>, optLen: int, staticLen: int)
    returns (len: nat, max: int, opt: int, stat: int, ghost forced: set<nat>)
    requires heap != fc && heap != depth && fc != depth && heap.Length == HEAP_SIZE
    requires 3 <= elems <= 286 && elems <= fc.Length <= depth.Length && (stree == [] || elems <= |stree|)
    requires forall i :: 0 <= i < depth.Length ==> depth[i] < 256
    requires forall i :: 0 <= i < elems && fc[i] != 0 ==> depth[i] == 0
    requires Collected(heap[..], heapLen, Used(fc[..], elems), maxCode) && heapLen <= elems && maxCode < elems
    modifies heap, fc, depth
    ensures forall i :: 0 <= i < elems && fc[i] != 0 ==> depth[i] == 0
    ensures Collected(heap[..], len, Used(fc[..], elems), max) && 2 <= len <= elems && max < elems
    ensures heapLen >= 2 ==> forced == {}
    ensures heapLen < 2 ==> len == 2 && |forced| == 2 - heapLen
    ensures ForcedTo(old(fc[..]), fc[..], forced)
    ensures opt == optLen - |forced| && stat == staticLen - (if stree == [] then 0 else Sum(forced, stree))
    ensures forall i :: 0 <= i < depth.Length ==> depth[i] < 256
  {
    hide Content, Used, Sum;
    len, max, opt, stat, forced := heapLen, maxCode, optLen, staticLen, {};
    NoSum(stree);
    while len < 2
      invariant Collected(heap[..], len, Used(fc[..], elems), max) && len <= elems && max < elems
      invariant heapLen <= len && (if heapLen < 2 then len <= 2 else len == heapLen) && |forced| == len - heapLen
      invariant ForcedTo(old(fc[..]), fc[..], forced)
      invariant opt == optLen - |forced| && stat == staticLen - (if stree == [] then 0 else Sum(forced, stree))
      invariant forall i :: 0 <= i < depth.Length ==> depth[i] < 256
      invariant forall i :: 0 <= i < elems && fc[i] != 0 ==> depth[i] == 0
      decreases 2 - len
    {
      ghost var h: seq<nat>, f: seq<nat> := heap[..], fc[..];
      var node: nat;
      if max < 2 {
        node := max + 1;
      } else {
        node := 0;
      }
      ForceStep(h, len, old(fc[..]), f, elems, max, node, forced);
      if max < 2 { max := node; }
      len := len + 1;
      heap[len] := node;
      fc[node] := 1;
      assert heap[..] == h[len := node] && fc[..] == f[node := 1];
      depth[node] := 0;
      opt := opt - 1;
      if stree != [] {
        stat := stat - stree[node];
        SumAdd(forced, stree, node);
      }
      forced := forced + {node};
    }
  }

  /** One symbol forced: it was not in use, and it becomes the highest if none above 1 was. */
  lemma ForceStep(h: seq<nat>, len: nat, was: seq<nat>, freq: seq<nat>, elems: nat, maxCode: int, node: nat, forced: set<nat>)
    requires 3 <= elems <= |freq| && len < 2 && |h| == HEAP_SIZE
    requires Collected(h, len, Used(freq, elems), maxCode) && ForcedTo(was, freq, forced)
    requires node == if maxCode < 2 then maxCode + 1 else 0
    ensures node <= 2 && node !in forced
    ensures Collected(h[len + 1 := node], len + 1, Used(freq[node := 1], elems), if maxCode < 2 then node else maxCode)
    ensures ForcedTo(was, freq[node := 1], forced + {node})
  {
    hide Content, Used;
    var a := Used(freq, elems);
    FewUsed(a, maxCode);
    UsedIn(freq, elems, node);
    Append(h, len, a, node);
    UsedMore(freq, elems, node);
  }

  lemma NoSum(v: seq<nat>)
    ensures Sum({}, v) == 0
  {
    SumToZero({}, v, |v|);
  }

  /** With at most one symbol in use, the next one to be forced is not in use. */
  lemma FewUsed(a: set<nat>, maxCode: int)
    requires |a| < 2 && Highest(a, maxCode)
    ensures forall x :: x in a ==> x == maxCode
    ensures if maxCode < 2 then maxCode + 1 !in a else 0 !in a
  {
    if maxCode >= 0 {
      assert |a - {maxCode as nat}| == |a| - 1;
      assert a - {maxCode as nat} == {};
    }
  }

  lemma UsedIn(freq: seq<nat>, n: nat, x: nat)
    requires n <= |freq|
    ensures x in Used(freq, n) <==> x < n && freq[x] != 0
  {}

  lemma UsedMore(freq: seq<nat>, n: nat, x: nat)
    requires x < n <= |freq|
    ensures Used(freq[x := 1], n) == Used(freq, n) + {x}
  {}

  // ----- the tree -----

  /** Sub-heaps of increasing size, from the last father down. */
  method Heapify(heap: array<nat>, heapLen: nat, fc: array<nat>, depth: array<nat>, ghost a: set<nat>)
    requires heap != fc && heap != depth && fc.Length <= depth.Length
    requires Holds(heap[..], heapLen, Keys(fc[..], depth[..]), a) && 2 <= heapLen
    modifies heap
    ensures Holds(heap[..], heapLen, Keys(fc[..], depth[..]), a)
    ensures Ordered(heap[..], heapLen, Keys(fc[..], depth[..]), 1)
  {
    hide Key, ValidKeys, Content;
    var n: nat := heapLen / 2;
    while n >= 1
      invariant n <= heapLen / 2
      invariant Holds(heap[..], heapLen, Keys(fc[..], depth[..]), a)
      invariant Ordered(heap[..], heapLen, Keys(fc[..], depth[..]), n + 1)
    {
      PqDownHeap(heap, heapLen, fc, depth, n);
      n := n - 1;
    }
  }

  lemma HoldsCollected(h: seq<nat>, len: nat, k: Keys, elems: nat, maxCode: int)
    requires elems <= |k.freq| <= |k.depth| && Collected(h, len, Used(k.freq, elems), maxCode)
    requires forall i :: 0 <= i < |k.depth| ==> k.depth[i] < 256
    ensures Holds(h, len, k, Used(k.freq, elems))
  {
    forall i | 1 <= i <= len ensures h[i] < |k.freq| {
      ContentIn(h, len, i);
    }
  }

  lemma NothingMerged(h: seq<nat>, len: nat, k: Keys, dl: seq<nat>, leaves: set<nat>, elems: nat)
    requires |h| == HEAP_SIZE && 2 <= len < HEAP_SIZE && |dl| == |k.freq| && elems + |leaves| <= |k.freq| + 1
    requires Holds(h, len, k, leaves) && Ordered(h, len, k, 1) && forall x :: x in leaves ==> x < elems
    ensures Combining(h, len, HEAP_SIZE, k, dl, leaves, elems, [])
    ensures Frontier(leaves, elems, []) == leaves
  {
    assert h[HEAP_SIZE..] == [];
  }

  /** The finished tree, as build_tree hands it to gen_bitlen. */
  ghost predicate Built(h: seq<nat>, max: nat, freq: seq<nat>, dl: seq<nat>, elems: nat, merges: seq<Merge>) {
    && elems <= |freq| == |dl| && |h| == HEAP_SIZE
    && Tree(Used(freq, elems), elems, merges) && Adds(elems, merges, freq) && Greedy(Used(freq, elems), elems, merges, freq)
    && max == HEAP_SIZE - 1 - 2 * |merges| && h[max..] == [Root(elems, merges)] + Listed(merges)
    && Fathers(dl, elems, merges)
  }

  /** The main loop of build_tree, from the first heap to the last node. */
  method Combine(heap: array<nat>, heapLen: nat, fc: array<nat>, depth: array<nat>, dl: array<nat>, elems: nat,
                 ghost leaves: set<nat>)
    returns (heapMax: nat, ghost merges: seq<Merge>)
    requires heap != fc && heap != depth && heap != dl && fc != depth && fc != dl && depth != dl && fc.Length <= depth.Length
    requires Combining(heap[..], heapLen, HEAP_SIZE, Keys(fc[..], depth[..]), dl[..], leaves, elems, [])
    requires 2 <= heapLen <= 286 && |leaves| == heapLen && leaves == Used(fc[..], elems) && elems <= fc.Length
    requires Sum(leaves, fc[..]) <= 0xffff
    modifies heap, fc, depth, dl
    ensures Built(heap[..], heapMax, fc[..], dl[..], elems, merges) && Leveled(depth[..], elems, merges)
    ensures forall i :: 0 <= i < elems ==> depth[i] == old(depth[i])
    ensures forall i :: 0 <= i < elems ==> fc[i] == old(fc[i])
    ensures forall i :: 0 <= i < depth.Length ==> depth[i] < 256
    ensures forall i :: 0 <= i < elems && i !in leaves ==> dl[i] == old(dl[i])
  {
    hide Key, ValidKeys, Content, Merging, Frontier, Adds, Greedy, Fathers, Listed, Ordered, Holds, Sum, Used, Leveled;
    NoLevels(depth[..], elems);
    var len := heapLen;
    heapMax, merges := HEAP_SIZE, [];
    var node := elems;
    FirstFrontier(leaves, elems);
    while true
      invariant 2 <= len <= heapLen && node == elems + |merges| && |merges| == heapLen - len
      invariant Combining(heap[..], len, heapMax, Keys(fc[..], depth[..]), dl[..], leaves, elems, merges)
      invariant Sum(Frontier(leaves, elems, merges), fc[..]) <= 0xffff && Leveled(depth[..], elems, merges)
      invariant forall i :: 0 <= i < elems ==> depth[i] == old(depth[i])
      invariant forall i :: 0 <= i < elems ==> fc[i] == old(fc[i])
      invariant forall i :: 0 <= i < elems && i !in leaves ==> dl[i] == old(dl[i])
      decreases len
    {
      FrontierSymbols(leaves, elems, merges);
      len, heapMax, merges := CombineTwo(heap, len, heapMax, fc, depth, dl, node, leaves, elems, merges);
      node := node + 1;
      if len < 2 { break; }
    }
    DepthsSmall(heap[..], len, Keys(fc[..], depth[..]), Frontier(leaves, elems, merges));
    LastNode(heap[..], len, Keys(fc[..], depth[..]), leaves, elems, merges);
    UsedSame(old(fc[..]), fc[..], elems);
    heapMax := heapMax - 1;
    ghost var list: seq<nat> := heap[heapMax + 1..];
    heap[heapMax] := heap[1];
    assert heap[heapMax..] == [heap[heapMax]] + heap[heapMax + 1..];
    assert heap[heapMax + 1..] == list;
  }

  lemma DepthsSmall(h: seq<nat>, len: nat, k: Keys, a: set<nat>)
    requires Holds(h, len, k, a)
    ensures forall i :: 0 <= i < |k.depth| ==> k.depth[i] < 256
  {}

  lemma NoLevels(depth: seq<nat>, elems: nat)
    ensures Leveled(depth, elems, [])
  {}

  lemma FirstFrontier(leaves: set<nat>, elems: nat)
    ensures Frontier(leaves, elems, []) == leaves
  {}

  lemma UsedSame(freq: seq<nat>, g: seq<nat>, n: nat)
    requires n <= |freq| == |g| && forall i :: 0 <= i < n ==> g[i] == freq[i]
    ensures Used(g, n) == Used(freq, n)
  {}

  /** Symbols not in use stay out of the frontier. */
  lemma {:induction false} FrontierSymbols(leaves: set<nat>, elems: nat, merges: seq<Merge>)
    ensures forall i :: i in Frontier(leaves, elems, merges) && i < elems ==> i in leaves
  {
    if merges != [] {
      FrontierSymbols(leaves, elems, merges[..|merges| - 1]);
    }
  }

  lemma LastNode(h: seq<nat>, len: nat, k: Keys, leaves: set<nat>, elems: nat, merges: seq<Merge>)
    requires len == 1 && Holds(h, len, k, Frontier(leaves, elems, merges))
    requires Merging(leaves, elems, merges) && merges != []
    ensures Tree(leaves, elems, merges) && h[1] == Root(elems, merges)
  {
    FrontierBound(leaves, elems, merges);
    OnlyRoot(leaves, elems, merges);
    ContentIn(h, len, 1);
  }
}
