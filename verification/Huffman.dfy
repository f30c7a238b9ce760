/**
  The Huffman construction behind build_tree: trees are merged two at a time, always the two of
  least frequency, and the depths that result cost no more than any other choice of lengths.

  A merge k makes node elems + k the father of two nodes. The frontier after some merges is the
  set of nodes that have no father yet; it shrinks from the leaves to the root.
 */
module Huffman {
  import opened Bits

  datatype Merge = Merge(n: nat, m: nat)

  // ----- sums over sets of nodes -----

  function SumTo(a: set<nat>, v: seq<nat>, n: nat): nat
    requires n <= |v|
  {
    if n == 0 then 0 else SumTo(a, v, n - 1) + (if n - 1 in a then v[n - 1] else 0)
  }

  /** The values of the nodes in a. */
  function Sum(a: set<nat>, v: seq<nat>): nat {
    SumTo(a, v, |v|)
  }

  lemma {:induction false} SumToAdd(a: set<nat>, v: seq<nat>, x: nat, n: nat)
    requires x !in a && n <= |v|
    ensures SumTo(a + {x}, v, n) == SumTo(a, v, n) + (if x < n then v[x] else 0)
  {
    if n > 0 {
      SumToAdd(a, v, x, n - 1);
    }
  }

  lemma SumAdd(a: set<nat>, v: seq<nat>, x: nat)
    requires x !in a && x < |v|
    ensures Sum(a + {x}, v) == Sum(a, v) + v[x]
  {
    SumToAdd(a, v, x, |v|);
  }

  lemma SumRemove(a: set<nat>, v: seq<nat>, x: nat)
    requires x in a && x < |v|
    ensures Sum(a, v) == Sum(a - {x}, v) + v[x]
  {
    assert a - {x} + {x} == a;
    SumAdd(a - {x}, v, x);
  }

  lemma {:induction false} SumToSame(a: set<nat>, v: seq<nat>, w: seq<nat>, n: nat)
    requires n <= |v| && n <= |w| && forall i :: 0 <= i < n && i in a ==> v[i] == w[i]
    ensures SumTo(a, v, n) == SumTo(a, w, n)
  {
    if n > 0 {
      SumToSame(a, v, w, n - 1);
    }
  }

  lemma SumSame(a: set<nat>, v: seq<nat>, w: seq<nat>)
    requires |v| == |w| && forall i :: 0 <= i < |v| && i in a ==> v[i] == w[i]
    ensures Sum(a, v) == Sum(a, w)
  {
    SumToSame(a, v, w, |v|);
  }

  /** Two nodes give way to a third. */
  lemma SumMerge(a: set<nat>, v: seq<nat>, x: nat, y: nat, z: nat)
    requires x in a && y in a && x != y && z !in a && x < |v| && y < |v| && z < |v|
    ensures Sum(a - {x, y} + {z}, v) + v[x] + v[y] == Sum(a, v) + v[z]
  {
    SumRemove(a, v, x);
    SumRemove(a - {x}, v, y);
    assert a - {x} - {y} == a - {x, y};
    SumAdd(a - {x, y}, v, z);
  }

  lemma SumPair(a: set<nat>, v: seq<nat>, x: nat, y: nat)
    requires x in a && y in a && x != y && x < |v| && y < |v|
    ensures Sum(a, v) == Sum(a - {x} - {y}, v) + v[x] + v[y]
  {
    SumRemove(a, v, x);
    SumRemove(a - {x}, v, y);
  }

  // ----- cost and Kraft sum of an assignment of lengths -----

  /** f * l */
  function Times(f: nat, l: nat): nat {
    if l == 0 then 0 else f + Times(f, l - 1)
  }

  function Costs(freq: seq<nat>, lens: seq<nat>): (r: seq<nat>)
    requires |freq| == |lens|
    ensures |r| == |lens| && forall i :: 0 <= i < |r| ==> r[i] == Times(freq[i], lens[i])
  {
    if lens == [] then []
    else Costs(freq[..|freq| - 1], lens[..|lens| - 1]) + [Times(freq[|freq| - 1], lens[|lens| - 1])]
  }

  /** 2^(max - l), the share of code space of a code of length l. */
  function Weight(l: nat, max: nat): nat {
    if l <= max then Pow2(max - l) else 0
  }

  function Weights(lens: seq<nat>, max: nat): (r: seq<nat>)
    ensures |r| == |lens| && forall i :: 0 <= i < |r| ==> r[i] == Weight(lens[i], max)
  {
    if lens == [] then [] else Weights(lens[..|lens| - 1], max) + [Weight(lens[|lens| - 1], max)]
  }

  /** The total weight of the nodes of a under the given lengths. */
  function Cost(a: set<nat>, freq: seq<nat>, lens: seq<nat>): nat
    requires |freq| == |lens|
  {
    Sum(a, Costs(freq, lens))
  }

  function Kraft(a: set<nat>, lens: seq<nat>, max: nat): nat {
    Sum(a, Weights(lens, max))
  }

  /** Lengths that some prefix code has: the Kraft sum is at most 1. */
  predicate Coding(a: set<nat>, lens: seq<nat>, max: nat) {
    (forall x :: x in a ==> x < |lens| && lens[x] <= max) && Kraft(a, lens, max) <= Pow2(max)
  }

  // ----- the exchange argument -----

  /** Giving the longer code to the less frequent never costs more. */
  lemma {:induction false} Exchange(f: nat, g: nat, k: nat, l: nat)
    requires f <= g && k <= l
    ensures Times(f, l) + Times(g, k) <= Times(f, k) + Times(g, l)
    decreases l
  {
    if k < l {
      Exchange(f, g, k, l - 1);
    }
  }

  lemma {:induction false} TimesMonoLen(f: nat, k: nat, l: nat)
    requires k <= l
    ensures Times(f, k) <= Times(f, l)
    decreases l
  {
    if k < l {
      TimesMonoLen(f, k, l - 1);
    }
  }

  function Swapped(lens: seq<nat>, x: nat, y: nat): (r: seq<nat>)
    requires x < |lens| && y < |lens|
    ensures |r| == |lens|
  {
    lens[x := lens[y]][y := lens[x]]
  }

  lemma SwapKraft(a: set<nat>, lens: seq<nat>, max: nat, x: nat, y: nat)
    requires x in a && y in a && x < |lens| && y < |lens|
    ensures Kraft(a, Swapped(lens, x, y), max) == Kraft(a, lens, max)
  {
    var s := Swapped(lens, x, y);
    if x == y {
      assert s == lens;
    } else {
      SumPair(a, Weights(lens, max), x, y);
      SumPair(a, Weights(s, max), x, y);
      SumSame(a - {x} - {y}, Weights(lens, max), Weights(s, max));
    }
  }

  lemma SwapCost(a: set<nat>, freq: seq<nat>, lens: seq<nat>, x: nat, y: nat)
    requires |freq| == |lens| && x in a && y in a && x < |lens| && y < |lens|
    requires freq[x] <= freq[y] && lens[x] <= lens[y]
    ensures Cost(a, freq, Swapped(lens, x, y)) <= Cost(a, freq, lens)
  {
    var s := Swapped(lens, x, y);
    if x == y {
      assert s == lens;
    } else {
      SumPair(a, Costs(freq, lens), x, y);
      SumPair(a, Costs(freq, s), x, y);
      SumSame(a - {x} - {y}, Costs(freq, lens), Costs(freq, s));
      Exchange(freq[x], freq[y], lens[x], lens[y]);
    }
  }

  lemma SwapCoding(a: set<nat>, lens: seq<nat>, max: nat, x: nat, y: nat)
    requires Coding(a, lens, max) && x in a && y in a
    ensures Coding(a, Swapped(lens, x, y), max)
  {
    SwapKraft(a, lens, max, x, y);
  }

  /** A node of the set with the longest length. */
  lemma {:induction false} Longest(a: set<nat>, lens: seq<nat>) returns (x: nat)
    requires a != {} && forall i :: i in a ==> i < |lens|
    ensures x in a && forall i :: i in a ==> lens[i] <= lens[x]
    decreases a
  {
    var y :| y in a;
    if a == {y} {
      x := y;
    } else {
      x := Longest(a - {y}, lens);
      if lens[x] < lens[y] { x := y; }
    }
  }

  // ----- shortening a lone longest code -----

  /** Weights of codes no longer than q are multiples of 2^(max - q). */
  lemma {:induction false} SumMultiple(a: set<nat>, lens: seq<nat>, q: nat, max: nat, n: nat) returns (c: nat)
    requires n <= |lens| && q <= max && forall i :: i in a && i < n ==> lens[i] <= q
    ensures SumTo(a, Weights(lens, max), n) == Shl(c, max - q)
  {
    if n == 0 {
      ShlZero(max - q);
      c := 0;
    } else {
      c := SumMultiple(a, lens, q, max, n - 1);
      if n - 1 in a {
        var l := lens[n - 1];
        ShlShl(1, q - l, max - q);
        ShlAdd(c, Pow2(q - l), max - q);
        c := c + Pow2(q - l);
      }
    }
  }

  /** If all codes but x have length at most q, x can be given length q. */
  lemma Shorten(a: set<nat>, lens: seq<nat>, max: nat, x: nat, q: nat)
    requires Coding(a, lens, max) && x in a && q <= lens[x]
    requires forall i :: i in a && i != x ==> lens[i] <= q
    ensures Coding(a, lens[x := q], max)
  {
    hide Shl, Weight;
    var v, w := Weights(lens, max), Weights(lens[x := q], max);
    SumRemove(a, v, x);
    SumRemove(a, w, x);
    SumSame(a - {x}, v, w);
    var c := SumMultiple(a - {x}, lens, q, max, |lens|);
    var whole := Pow2(q);
    WeightPositive(lens[x], max);
    ShlShl(1, q, max - q);
    if c >= whole {
      ShlMono(whole, c, max - q);
    } else {
      ShlMono(c, whole, max - q);
      WeightIs(q, max);
    }
  }

  lemma WeightPositive(l: nat, max: nat)
    requires l <= max
    ensures Weight(l, max) >= 1
  {}

  lemma WeightIs(l: nat, max: nat)
    requires l <= max
    ensures Weight(l, max) == Pow2(max - l)
  {}

  lemma ShortenCost(a: set<nat>, freq: seq<nat>, lens: seq<nat>, x: nat, q: nat)
    requires |freq| == |lens| && x in a && x < |lens| && q <= lens[x]
    ensures Cost(a, freq, lens[x := q]) <= Cost(a, freq, lens)
  {
    var v, w := Costs(freq, lens), Costs(freq, lens[x := q]);
    SumRemove(a, v, x);
    SumRemove(a, w, x);
    SumSame(a - {x}, v, w);
    TimesMonoLen(freq[x], q, lens[x]);
  }

  /** No node of a is less frequent than x. */
  predicate Least(a: set<nat>, freq: seq<nat>, x: nat) {
    x in a && x < |freq| && forall i :: i in a ==> i < |freq| && freq[x] <= freq[i]
  }

  /** Some cheapest lengths give the two least frequent nodes the same, longest, length. */
  lemma Siblings(a: set<nat>, freq: seq<nat>, lens: seq<nat>, max: nat, n: nat, m: nat) returns (better: seq<nat>)
    requires |freq| == |lens| && Coding(a, lens, max)
    requires Least(a, freq, n) && m != n && Least(a - {n}, freq, m)
    ensures |better| == |lens| && Coding(a, better, max) && Cost(a, freq, better) <= Cost(a, freq, lens)
    ensures better[n] == better[m]
  {
    hide Kraft, Cost;
    var x := Longest(a, lens);
    var s := Swapped(lens, n, x);
    SwapCoding(a, lens, max, n, x);
    SwapCost(a, freq, lens, n, x);
    var y := Longest(a - {n}, s);
    var t := Swapped(s, m, y);
    SwapCoding(a, s, max, m, y);
    SwapCost(a, freq, s, m, y);
    assert m in a && t[m] == s[y] && t[n] == s[n] && s[y] <= s[n];
    Shorten(a, t, max, n, t[m]);
    ShortenCost(a, freq, t, n, t[m]);
    better := t[n := t[m]];
  }

  // ----- merging -----

  /** The nodes without a father once the merges are done. */
  function Frontier(leaves: set<nat>, elems: nat, merges: seq<Merge>): set<nat> {
    if merges == [] then leaves
    else
      var k := |merges| - 1;
      Frontier(leaves, elems, merges[..k]) - {merges[k].n, merges[k].m} + {elems + k}
  }

  /** Every merge joins two different nodes of its frontier. */
  predicate Merging(leaves: set<nat>, elems: nat, merges: seq<Merge>) {
    if merges == [] then forall x :: x in leaves ==> x < elems
    else
      var k := |merges| - 1;
      var a := Frontier(leaves, elems, merges[..k]);
      Merging(leaves, elems, merges[..k]) && merges[k].n in a && merges[k].m in a && merges[k].n != merges[k].m
  }

  lemma {:induction false} FrontierBound(leaves: set<nat>, elems: nat, merges: seq<Merge>)
    requires Merging(leaves, elems, merges)
    ensures forall x :: x in Frontier(leaves, elems, merges) ==> x < elems + |merges|
    ensures |Frontier(leaves, elems, merges)| + |merges| == |leaves|
  {
    if merges != [] {
      var k := |merges| - 1;
      FrontierBound(leaves, elems, merges[..k]);
      var a := Frontier(leaves, elems, merges[..k]);
      var n, m := merges[k].n, merges[k].m;
      assert |a - {n, m}| == |a| - 2 by {
        assert a - {n, m} == a - {n} - {m};
      }
    }
  }

  /** Frequencies add up. */
  predicate Adds(elems: nat, merges: seq<Merge>, freq: seq<nat>) {
    elems + |merges| <= |freq| &&
    forall k :: 0 <= k < |merges| ==>
      merges[k].n < |freq| && merges[k].m < |freq| &&
      freq[elems + k] == freq[merges[k].n] + freq[merges[k].m]
  }

  /** Every merge joins the two least frequent nodes of its frontier. */
  ghost predicate Greedy(leaves: set<nat>, elems: nat, merges: seq<Merge>, freq: seq<nat>) {
    forall k :: 0 <= k < |merges| ==>
      var a := Frontier(leaves, elems, merges[..k]);
      Least(a, freq, merges[k].n) && Least(a - {merges[k].n}, freq, merges[k].m)
  }

  /** The frequencies of the inner nodes from merge k on. */
  function InnerFrom(elems: nat, merges: seq<Merge>, freq: seq<nat>, k: nat): nat
    requires elems + |merges| <= |freq| && k <= |merges|
    decreases |merges| - k
  {
    if k == |merges| then 0 else freq[elems + k] + InnerFrom(elems, merges, freq, k + 1)
  }

  /** Two sons of equal length, seen from their father. */
  lemma MergeCost(a: set<nat>, freq: seq<nat>, lens: seq<nat>, n: nat, m: nat, z: nat)
    requires |freq| == |lens| && n in a && m in a && n != m && z !in a
    requires n < |lens| && m < |lens| && z < |lens|
    requires freq[z] == freq[n] + freq[m] && lens[n] == lens[m] == lens[z] + 1
    ensures Cost(a, freq, lens) == Cost(a - {n, m} + {z}, freq, lens) + freq[z]
  {
    SumMerge(a, Costs(freq, lens), n, m, z);
    TimesAdd(freq[n], freq[m], lens[z]);
  }

  lemma {:induction false} TimesAdd(f: nat, g: nat, l: nat)
    ensures Times(f + g, l) == Times(f, l) + Times(g, l)
  {
    if l > 0 {
      TimesAdd(f, g, l - 1);
    }
  }

  lemma MergeKraft(a: set<nat>, lens: seq<nat>, max: nat, n: nat, m: nat, z: nat)
    requires n in a && m in a && n != m && z !in a
    requires n < |lens| && m < |lens| && z < |lens|
    requires lens[n] == lens[m] == lens[z] + 1 <= max
    ensures Kraft(a, lens, max) == Kraft(a - {n, m} + {z}, lens, max)
  {
    SumMerge(a, Weights(lens, max), n, m, z);
    assert Pow2(max - lens[z]) == 2 * Pow2(max - lens[n]);
  }

  /** Two codes of length 0 are too many. */
  lemma SomeLength(a: set<nat>, lens: seq<nat>, max: nat, n: nat, m: nat)
    requires Coding(a, lens, max) && n in a && m in a && n != m
    ensures lens[n] > 0 || lens[m] > 0
  {
    SumPair(a, Weights(lens, max), n, m);
  }

  lemma OutsideCost(a: set<nat>, freq: seq<nat>, lens: seq<nat>, z: nat, l: nat)
    requires |freq| == |lens| && z !in a && z < |lens|
    ensures Cost(a, freq, lens[z := l]) == Cost(a, freq, lens)
  {
    SumSame(a, Costs(freq, lens), Costs(freq, lens[z := l]));
  }

  lemma OutsideCoding(a: set<nat>, lens: seq<nat>, max: nat, z: nat, l: nat)
    requires Coding(a, lens, max) && z !in a && z < |lens|
    ensures Coding(a, lens[z := l], max)
  {
    SumSame(a, Weights(lens, max), Weights(lens[z := l], max));
  }

  /** One merge of the two least frequent: lengths for the frontier before give lengths after. */
  lemma GreedyStep(a: set<nat>, freq: seq<nat>, lens: seq<nat>, max: nat, n: nat, m: nat, z: nat) returns (u: seq<nat>)
    requires |freq| == |lens| && Coding(a, lens, max) && z !in a && z < |lens|
    requires Least(a, freq, n) && m != n && Least(a - {n}, freq, m) && freq[z] == freq[n] + freq[m]
    ensures |u| == |lens| && Coding(a - {n, m} + {z}, u, max)
    ensures Cost(a, freq, lens) >= Cost(a - {n, m} + {z}, freq, u) + freq[z]
  {
    hide Coding, Cost, Kraft;
    var t := Siblings(a, freq, lens, max, n, m);
    CodingIn(a, t, max);
    SomeLength(a, t, max, n, m);
    u := t[z := t[n] - 1];
    OutsideCost(a, freq, t, z, t[n] - 1);
    OutsideCoding(a, t, max, z, t[n] - 1);
    MergeCost(a, freq, u, n, m, z);
    FatherCoding(a, u, max, n, m, z);
  }

  lemma CodingIn(a: set<nat>, lens: seq<nat>, max: nat)
    requires Coding(a, lens, max)
    ensures forall x :: x in a ==> x < |lens| && lens[x] <= max
  {}

  lemma FrontierStep(leaves: set<nat>, elems: nat, merges: seq<Merge>, k: nat)
    requires k < |merges|
    ensures Frontier(leaves, elems, merges[..k + 1]) ==
            Frontier(leaves, elems, merges[..k]) - {merges[k].n, merges[k].m} + {elems + k}
  {
    assert merges[..k + 1][..k] == merges[..k];
  }

  /** From merge k on, no lengths for the frontier cost less than the inner nodes still to be made. */
  lemma {:induction false} GreedyFrom(leaves: set<nat>, elems: nat, merges: seq<Merge>, freq: seq<nat>,
                                      k: nat, lens: seq<nat>, max: nat)
    requires k <= |merges| && |lens| == |freq|
    requires forall j :: k <= j <= |merges| ==> Merging(leaves, elems, merges[..j])
    requires Adds(elems, merges, freq) && Greedy(leaves, elems, merges, freq)
    requires Coding(Frontier(leaves, elems, merges[..k]), lens, max)
    ensures Cost(Frontier(leaves, elems, merges[..k]), freq, lens) >= InnerFrom(elems, merges, freq, k)
    decreases |merges| - k
  {
    hide Merging, Coding, Cost, Kraft, Frontier, Least;
    if k < |merges| {
      var n, m := merges[k].n, merges[k].m;
      assert Merging(leaves, elems, merges[..k]);
      FrontierBound(leaves, elems, merges[..k]);
      DifferentSons(leaves, elems, merges, k);
      var u := GreedyStep(Frontier(leaves, elems, merges[..k]), freq, lens, max, n, m, elems + k);
      FrontierStep(leaves, elems, merges, k);
      GreedyFrom(leaves, elems, merges, freq, k + 1, u, max);
    }
  }

  lemma DifferentSons(leaves: set<nat>, elems: nat, merges: seq<Merge>, k: nat)
    requires k < |merges| && Merging(leaves, elems, merges[..k + 1])
    ensures merges[k].n != merges[k].m
  {
    assert merges[..k + 1][..k] == merges[..k];
  }

  lemma FatherCoding(a: set<nat>, lens: seq<nat>, max: nat, n: nat, m: nat, z: nat)
    requires Coding(a, lens, max) && n in a && m in a && n != m && z !in a && z < |lens|
    requires lens[n] == lens[m] == lens[z] + 1
    ensures Coding(a - {n, m} + {z}, lens, max)
  {
    MergeKraft(a, lens, max, n, m, z);
  }

  // ----- the list of merged nodes -----

  /** The sons in the order build_tree stacks them: last merge first, the less frequent one second. */
  function Listed(merges: seq<Merge>): (r: seq<nat>)
    ensures |r| == 2 * |merges|
  {
    if merges == [] then []
    else
      var k := |merges| - 1;
      [merges[k].m, merges[k].n] + Listed(merges[..k])
  }

  /** Entry q of that list. */
  function NodeAt(merges: seq<Merge>, q: nat): nat
    requires q < 2 * |merges|
  {
    var k := |merges| - 1 - q / 2;
    if q % 2 == 0 then merges[k].m else merges[k].n
  }

  lemma {:induction false} ListedAt(merges: seq<Merge>, q: nat)
    requires q < 2 * |merges|
    ensures Listed(merges)[q] == NodeAt(merges, q)
  {
    if q >= 2 {
      ListedAt(merges[..|merges| - 1], q - 2);
    }
  }

  lemma {:induction false} MergingInit(leaves: set<nat>, elems: nat, merges: seq<Merge>, k: nat)
    requires Merging(leaves, elems, merges) && k <= |merges|
    ensures Merging(leaves, elems, merges[..k])
    decreases |merges|
  {
    if k < |merges| {
      var j := |merges| - 1;
      MergingInit(leaves, elems, merges[..j], k);
      assert merges[..j][..k] == merges[..k];
    } else {
      assert merges[..k] == merges;
    }
  }

  /** What merge k joins. */
  lemma MergedPair(leaves: set<nat>, elems: nat, merges: seq<Merge>, k: nat)
    requires Merging(leaves, elems, merges) && k < |merges|
    ensures var a := Frontier(leaves, elems, merges[..k]);
            merges[k].n in a && merges[k].m in a && merges[k].n != merges[k].m
    ensures merges[k].n < elems + k && merges[k].m < elems + k
  {
    MergingInit(leaves, elems, merges, k + 1);
    MergingInit(leaves, elems, merges, k);
    assert merges[..k + 1][..k] == merges[..k];
    FrontierBound(leaves, elems, merges[..k]);
  }

  /** A node once merged is in no later frontier. */
  lemma {:induction false} Gone(leaves: set<nat>, elems: nat, merges: seq<Merge>, k: nat, j: nat, x: nat)
    requires Merging(leaves, elems, merges) && k < j <= |merges| && (x == merges[k].n || x == merges[k].m)
    ensures x !in Frontier(leaves, elems, merges[..j])
    decreases j
  {
    MergedPair(leaves, elems, merges, k);
    FrontierStep(leaves, elems, merges, j - 1);
    if k + 1 < j {
      Gone(leaves, elems, merges, k, j - 1, x);
    }
  }

  /** No node is merged twice. */
  lemma SonsDiffer(leaves: set<nat>, elems: nat, merges: seq<Merge>, p: nat, q: nat)
    requires Merging(leaves, elems, merges) && p < q < 2 * |merges|
    ensures NodeAt(merges, p) != NodeAt(merges, q)
  {
    var j, k := |merges| - 1 - p / 2, |merges| - 1 - q / 2;
    MergedPair(leaves, elems, merges, j);
    if k < j {
      Gone(leaves, elems, merges, k, j, NodeAt(merges, q));
    }
  }

  /** A node of some frontier that is gone in the end was merged in between. */
  lemma {:induction false} MergedAt(leaves: set<nat>, elems: nat, merges: seq<Merge>, k: nat, x: nat) returns (j: nat)
    requires k <= |merges| && x in Frontier(leaves, elems, merges[..k])
    requires x !in Frontier(leaves, elems, merges)
    ensures k <= j < |merges| && (x == merges[j].n || x == merges[j].m)
    decreases |merges| - k
  {
    assert merges[..|merges|] == merges;
    FrontierStep(leaves, elems, merges, k);
    if x == merges[k].n || x == merges[k].m {
      j := k;
    } else {
      j := MergedAt(leaves, elems, merges, k + 1, x);
    }
  }

  /** Where a merged node stands in the list. */
  lemma PlaceOf(leaves: set<nat>, elems: nat, merges: seq<Merge>, k: nat, x: nat) returns (q: nat)
    requires k <= |merges| && x in Frontier(leaves, elems, merges[..k])
    requires x !in Frontier(leaves, elems, merges)
    ensures q < 2 * (|merges| - k) && NodeAt(merges, q) == x
  {
    var j := MergedAt(leaves, elems, merges, k, x);
    q := 2 * (|merges| - 1 - j) + if x == merges[j].n then 1 else 0;
  }

  /** After enough merges only the root is left. */
  predicate Tree(leaves: set<nat>, elems: nat, merges: seq<Merge>) {
    Merging(leaves, elems, merges) && merges != [] && |leaves| == |merges| + 1
  }

  function Root(elems: nat, merges: seq<Merge>): nat
    requires merges != []
  {
    elems + |merges| - 1
  }

  lemma OnlyRoot(leaves: set<nat>, elems: nat, merges: seq<Merge>)
    requires Tree(leaves, elems, merges)
    ensures Frontier(leaves, elems, merges) == {Root(elems, merges)}
  {
    FrontierBound(leaves, elems, merges);
    var f, r := Frontier(leaves, elems, merges), Root(elems, merges);
    assert |f - {r}| == 0;
    assert f == {r};
  }

  // ----- depths, cut off at a maximum -----

  function Cut(l: nat, max: nat): nat {
    if l > max then max else l
  }

  /** The lengths the first pass of gen_bitlen gives: one more than the father's, at most max. */
  predicate Depths(elems: nat, merges: seq<Merge>, lens: seq<nat>, max: nat) {
    merges != [] && elems + |merges| <= |lens| && lens[Root(elems, merges)] == 0 &&
    forall k :: 0 <= k < |merges| ==>
      merges[k].n < |lens| && merges[k].m < |lens| &&
      lens[merges[k].n] == Cut(lens[elems + k] + 1, max) && lens[merges[k].m] == Cut(lens[elems + k] + 1, max)
  }

  /** How many inner nodes, from merge k on, are already as deep as allowed: their sons overflow. */
  function Excess(elems: nat, merges: seq<Merge>, lens: seq<nat>, max: nat, k: nat): nat
    requires k <= |merges| && elems + |merges| <= |lens|
    decreases |merges| - k
  {
    if k == |merges| then 0
    else (if lens[elems + k] == max then 1 else 0) + Excess(elems, merges, lens, max, k + 1)
  }

  function AtMax(lens: seq<nat>, max: nat): (r: seq<nat>)
    ensures |r| == |lens| && forall i :: 0 <= i < |r| ==> r[i] == if lens[i] == max then 1 else 0
  {
    if lens == [] then [] else AtMax(lens[..|lens| - 1], max) + [if lens[|lens| - 1] == max then 1 else 0]
  }

  lemma {:induction false} SumToZero(a: set<nat>, v: seq<nat>, n: nat)
    requires n <= |v| && forall i :: 0 <= i < n ==> i !in a
    ensures SumTo(a, v, n) == 0
  {
    if n > 0 {
      SumToZero(a, v, n - 1);
    }
  }

  lemma SumOne(v: seq<nat>, x: nat)
    requires x < |v|
    ensures Sum({x}, v) == v[x]
  {
    SumToZero({}, v, |v|);
    SumAdd({}, v, x);
    assert {} + {x} == {x};
  }

  /** One merge undone: the Kraft sum stays, or grows by the excess of one overflowing pair. */
  lemma ExcessStep(a: set<nat>, lens: seq<nat>, max: nat, n: nat, m: nat, z: nat)
    requires n in a && m in a && n != m && z !in a && n < |lens| && m < |lens| && z < |lens|
    requires lens[z] <= max && lens[n] == lens[m] == Cut(lens[z] + 1, max)
    ensures var b := a - {n, m} + {z}; var e := if lens[z] == max then 1 else 0;
            Kraft(a, lens, max) == Kraft(b, lens, max) + e &&
            Sum(a, AtMax(lens, max)) >= Sum(b, AtMax(lens, max)) + e
  {
    SumMerge(a, Weights(lens, max), n, m, z);
    SumMerge(a, AtMax(lens, max), n, m, z);
    if lens[z] < max {
      assert Pow2(max - lens[z]) == 2 * Pow2(max - lens[n]);
    }
  }

  /**
    The overflow of the first pass: cutting lengths off at max leaves the Kraft sum above 1 by
    exactly one unit of 2^-max for every overflowing pair, and at least as many codes of length max.
   */
  lemma {:induction false} KraftExcess(leaves: set<nat>, elems: nat, merges: seq<Merge>, lens: seq<nat>, max: nat, k: nat)
    requires Tree(leaves, elems, merges) && Depths(elems, merges, lens, max) && k <= |merges|
    requires forall x :: elems <= x < elems + |merges| ==> lens[x] <= max
    ensures var a := Frontier(leaves, elems, merges[..k]);
            Kraft(a, lens, max) == Pow2(max) + Excess(elems, merges, lens, max, k) &&
            Sum(a, AtMax(lens, max)) >= Excess(elems, merges, lens, max, k)
    decreases |merges| - k
  {
    hide Frontier, Merging;
    if k == |merges| {
      assert merges[..k] == merges;
      OnlyRoot(leaves, elems, merges);
      SumOne(Weights(lens, max), Root(elems, merges));
    } else {
      KraftExcess(leaves, elems, merges, lens, max, k + 1);
      MergingInit(leaves, elems, merges, k);
      FrontierBound(leaves, elems, merges[..k]);
      MergedPair(leaves, elems, merges, k);
      FrontierStep(leaves, elems, merges, k);
      ExcessStep(Frontier(leaves, elems, merges[..k]), lens, max, merges[k].n, merges[k].m, elems + k);
    }
  }

  /** Without overflow, the cost of the frontier is that of the inner nodes above it. */
  lemma {:induction false} DepthCost(leaves: set<nat>, elems: nat, merges: seq<Merge>, freq: seq<nat>, lens: seq<nat>, max: nat, k: nat)
    requires Tree(leaves, elems, merges) && Depths(elems, merges, lens, max) && k <= |merges|
    requires |freq| == |lens| && Adds(elems, merges, freq)
    requires forall x :: elems <= x < elems + |merges| ==> lens[x] < max
    ensures Cost(Frontier(leaves, elems, merges[..k]), freq, lens) == InnerFrom(elems, merges, freq, k)
    decreases |merges| - k
  {
    hide Frontier, Merging;
    if k == |merges| {
      assert merges[..k] == merges;
      OnlyRoot(leaves, elems, merges);
      SumOne(Costs(freq, lens), Root(elems, merges));
    } else {
      DepthCost(leaves, elems, merges, freq, lens, max, k + 1);
      MergingInit(leaves, elems, merges, k);
      FrontierBound(leaves, elems, merges[..k]);
      MergedPair(leaves, elems, merges, k);
      FrontierStep(leaves, elems, merges, k);
      MergeCost(Frontier(leaves, elems, merges[..k]), freq, lens, merges[k].n, merges[k].m, elems + k);
    }
  }

  lemma AllMerging(leaves: set<nat>, elems: nat, merges: seq<Merge>)
    requires Merging(leaves, elems, merges)
    ensures forall j :: 0 <= j <= |merges| ==> Merging(leaves, elems, merges[..j])
  {
    forall j | 0 <= j <= |merges| ensures Merging(leaves, elems, merges[..j]) {
      MergingInit(leaves, elems, merges, j);
    }
  }

  /**
    Optimality: when nothing overflows, no lengths with a Kraft sum of at most 1 give a smaller
    total than the depths in the tree.
   */
  lemma Optimal(leaves: set<nat>, elems: nat, merges: seq<Merge>, freq: seq<nat>, lens: seq<nat>, max: nat,
                other: seq<nat>, bound: nat)
    requires Tree(leaves, elems, merges) && Depths(elems, merges, lens, max)
    requires forall x :: elems <= x < elems + |merges| ==> lens[x] < max
    requires |freq| == |lens| == |other| && Adds(elems, merges, freq) && Greedy(leaves, elems, merges, freq)
    requires Coding(leaves, other, bound)
    ensures Cost(leaves, freq, lens) <= Cost(leaves, freq, other)
  {
    hide Merging, Coding, Cost, Greedy, Depths;
    assert merges[..0] == [];
    AllMerging(leaves, elems, merges);
    DepthCost(leaves, elems, merges, freq, lens, max, 0);
    GreedyFrom(leaves, elems, merges, freq, 0, other, bound);
  }

  // ----- the depths in a tree, not cut off -----

  /** One more than the father's, for the sons of the merges from k on; the other nodes have 0. */
  function Uncut(elems: nat, merges: seq<Merge>, size: nat, k: nat): (r: seq<nat>)
    requires k <= |merges| && elems + |merges| <= size
    requires forall j :: 0 <= j < |merges| ==> merges[j].n < size && merges[j].m < size
    ensures |r| == size
    decreases |merges| - k
  {
    if k == |merges| then seq(size, _ => 0)
    else
      var d := Uncut(elems, merges, size, k + 1);
      d[merges[k].n := d[elems + k] + 1][merges[k].m := d[elems + k] + 1]
  }

  /** The sons of merge j are one deeper than their father. */
  predicate OneDeeper(elems: nat, merges: seq<Merge>, lens: seq<nat>, j: nat)
    requires j < |merges| && elems + |merges| <= |lens| && merges[j].n < |lens| && merges[j].m < |lens|
  {
    lens[merges[j].n] == lens[elems + j] + 1 && lens[merges[j].m] == lens[elems + j] + 1
  }

  lemma SonsWithin(leaves: set<nat>, elems: nat, merges: seq<Merge>, size: nat)
    requires Merging(leaves, elems, merges) && elems + |merges| <= size
    ensures forall j :: 0 <= j < |merges| ==> merges[j].n < size && merges[j].m < size
  {
    forall j | 0 <= j < |merges| ensures merges[j].n < size && merges[j].m < size {
      MergedPair(leaves, elems, merges, j);
    }
  }

  lemma {:induction false} UncutIs(leaves: set<nat>, elems: nat, merges: seq<Merge>, size: nat, k: nat)
    requires Merging(leaves, elems, merges) && elems + |merges| <= size && k <= |merges|
    requires forall j :: 0 <= j < |merges| ==> merges[j].n < size && merges[j].m < size
    ensures var d := Uncut(elems, merges, size, k);
            (forall j :: k <= j < |merges| ==> OneDeeper(elems, merges, d, j)) &&
            (forall x :: 0 <= x < size ==> d[x] <= |merges| - k) &&
            (merges != [] ==> d[Root(elems, merges)] == 0)
    decreases |merges| - k
  {
    hide Merging;
    if k < |merges| {
      UncutIs(leaves, elems, merges, size, k + 1);
      MergedPair(leaves, elems, merges, k);
      var b, d := Uncut(elems, merges, size, k + 1), Uncut(elems, merges, size, k);
      forall j | k <= j < |merges| ensures OneDeeper(elems, merges, d, j) {
        if j > k {
          assert OneDeeper(elems, merges, b, j);
          SonsApart(leaves, elems, merges, k, j);
        }
      }
    }
  }

  /** The sons of two merges are four different nodes. */
  lemma SonsApart(leaves: set<nat>, elems: nat, merges: seq<Merge>, k: nat, j: nat)
    requires Merging(leaves, elems, merges) && k < j < |merges|
    ensures merges[k].n != merges[j].n && merges[k].n != merges[j].m && merges[k].m != merges[j].n && merges[k].m != merges[j].m
  {
    hide Merging;
    MergedPair(leaves, elems, merges, j);
    Gone(leaves, elems, merges, k, j, merges[k].n);
    Gone(leaves, elems, merges, k, j, merges[k].m);
  }

  lemma {:induction false} NoneAtMax(elems: nat, merges: seq<Merge>, lens: seq<nat>, max: nat, k: nat)
    requires k <= |merges| && elems + |merges| <= |lens|
    requires forall x :: elems <= x < elems + |merges| ==> lens[x] < max
    ensures Excess(elems, merges, lens, max, k) == 0
    decreases |merges| - k
  {
    if k < |merges| {
      NoneAtMax(elems, merges, lens, max, k + 1);
    }
  }

  /**
    Every tree has depths: the lengths of a prefix code on its leaves whose total weight is that of the
    inner nodes. With LeastWeight, the tree is optimal before any length is limited.
   */
  lemma TreeDepths(leaves: set<nat>, elems: nat, merges: seq<Merge>, freq: seq<nat>) returns (lens: seq<nat>, max: nat)
    requires Tree(leaves, elems, merges) && Adds(elems, merges, freq)
    ensures |lens| == |freq| && Depths(elems, merges, lens, max) && Coding(leaves, lens, max)
    ensures forall x :: 0 <= x < |lens| ==> lens[x] < max
    ensures Cost(leaves, freq, lens) == InnerFrom(elems, merges, freq, 0)
  {
    hide Merging, Cost, Kraft, Adds;
    AddsSize(elems, merges, freq);
    SonsWithin(leaves, elems, merges, |freq|);
    UncutIs(leaves, elems, merges, |freq|, 0);
    lens, max := Uncut(elems, merges, |freq|, 0), |merges| + 1;
    DeepEnough(elems, merges, lens, max);
    assert merges[..0] == [];
    NoneAtMax(elems, merges, lens, max, 0);
    DepthCost(leaves, elems, merges, freq, lens, max, 0);
    KraftExcess(leaves, elems, merges, lens, max, 0);
    LeavesWithin(leaves, elems, merges);
  }

  lemma DeepEnough(elems: nat, merges: seq<Merge>, lens: seq<nat>, max: nat)
    requires merges != [] && elems + |merges| <= |lens| && lens[Root(elems, merges)] == 0
    requires forall j :: 0 <= j < |merges| ==> merges[j].n < |lens| && merges[j].m < |lens| && OneDeeper(elems, merges, lens, j)
    requires forall x :: 0 <= x < |lens| ==> lens[x] < max
    ensures Depths(elems, merges, lens, max)
  {
    forall k | 0 <= k < |merges|
      ensures lens[merges[k].n] == Cut(lens[elems + k] + 1, max) && lens[merges[k].m] == Cut(lens[elems + k] + 1, max)
    {
      assert OneDeeper(elems, merges, lens, k);
    }
  }

  lemma AddsSize(elems: nat, merges: seq<Merge>, freq: seq<nat>)
    requires Adds(elems, merges, freq)
    ensures elems + |merges| <= |freq|
  {}

  lemma LeavesWithin(leaves: set<nat>, elems: nat, merges: seq<Merge>)
    requires Merging(leaves, elems, merges)
    ensures forall x :: x in leaves ==> x < elems
  {
    MergingInit(leaves, elems, merges, 0);
    assert merges[..0] == [];
  }

  /** No prefix code on the leaves has a smaller total weight. */
  ghost predicate LeastWeight(leaves: set<nat>, freq: seq<nat>, total: nat) {
    forall other: seq<nat>, bound: nat :: |other| == |freq| && Coding(leaves, other, bound) ==> total <= Cost(leaves, freq, other)
  }

  lemma TreeIsLeast(leaves: set<nat>, elems: nat, merges: seq<Merge>, freq: seq<nat>)
    requires Merging(leaves, elems, merges) && Adds(elems, merges, freq) && Greedy(leaves, elems, merges, freq)
    ensures elems + |merges| <= |freq| && LeastWeight(leaves, freq, InnerFrom(elems, merges, freq, 0))
  {
    hide Merging, Coding, Cost, Greedy;
    assert merges[..0] == [];
    AllMerging(leaves, elems, merges);
    forall other: seq<nat>, bound: nat | |other| == |freq| && Coding(leaves, other, bound)
      ensures InnerFrom(elems, merges, freq, 0) <= Cost(leaves, freq, other)
    {
      GreedyFrom(leaves, elems, merges, freq, 0, other, bound);
    }
  }

  // ----- frequencies and lengths -----

  /** What is left after merge k is no less frequent than what it joined. */
  lemma {:induction false} LaterNodes(leaves: set<nat>, elems: nat, merges: seq<Merge>, freq: seq<nat>, k: nat, j: nat, x: nat)
    requires Merging(leaves, elems, merges) && Adds(elems, merges, freq) && Greedy(leaves, elems, merges, freq)
    requires k < j <= |merges| && x in Frontier(leaves, elems, merges[..j])
    ensures merges[k].m < |freq| && x < |freq| && freq[merges[k].m] <= freq[x]
    decreases j
  {
    hide Merging, Frontier;
    MergedPair(leaves, elems, merges, j - 1);
    FrontierStep(leaves, elems, merges, j - 1);
    if k < j - 1 {
      LaterNodes(leaves, elems, merges, freq, k, j - 1, merges[j - 1].n);
      if x != elems + (j - 1) {
        LaterNodes(leaves, elems, merges, freq, k, j - 1, x);
      }
    }
  }

  /** The list goes from the most frequent node to the least. */
  lemma InFrequencyOrder(leaves: set<nat>, elems: nat, merges: seq<Merge>, freq: seq<nat>, p: nat, q: nat)
    requires Merging(leaves, elems, merges) && Adds(elems, merges, freq) && Greedy(leaves, elems, merges, freq)
    requires p < q < 2 * |merges|
    ensures NodeAt(merges, p) < |freq| && NodeAt(merges, q) < |freq| && freq[NodeAt(merges, q)] <= freq[NodeAt(merges, p)]
  {
    hide Merging, Frontier;
    var j, k := |merges| - 1 - p / 2, |merges| - 1 - q / 2;
    MergedPair(leaves, elems, merges, j);
    MergedPair(leaves, elems, merges, k);
    if k < j {
      LaterNodes(leaves, elems, merges, freq, k, j, NodeAt(merges, p));
    }
  }

  /** A more frequent symbol has no longer code. */
  predicate Fair(leaves: set<nat>, freq: seq<nat>, lens: seq<nat>) {
    forall x, y :: x in leaves && y in leaves && x < |freq| && y < |freq| && x < |lens| && y < |lens| && freq[x] < freq[y] ==>
      lens[y] <= lens[x]
  }

  lemma {:induction false} ExchangeGain(f: nat, g: nat, k: nat, l: nat)
    requires f < g && k < l
    ensures Times(f, l) + Times(g, k) < Times(f, k) + Times(g, l)
    decreases l
  {
    if k < l - 1 {
      ExchangeGain(f, g, k, l - 1);
    }
  }

  lemma SwapGain(a: set<nat>, freq: seq<nat>, lens: seq<nat>, x: nat, y: nat)
    requires |freq| == |lens| && x in a && y in a && x < |lens| && y < |lens|
    requires freq[x] < freq[y] && lens[x] < lens[y]
    ensures Cost(a, freq, Swapped(lens, x, y)) < Cost(a, freq, lens)
  {
    var s := Swapped(lens, x, y);
    SumPair(a, Costs(freq, lens), x, y);
    SumPair(a, Costs(freq, s), x, y);
    SumSame(a - {x} - {y}, Costs(freq, lens), Costs(freq, s));
    ExchangeGain(freq[x], freq[y], lens[x], lens[y]);
  }

  /** Lengths that cannot be improved are fair. */
  lemma LeastIsFair(leaves: set<nat>, freq: seq<nat>, lens: seq<nat>, max: nat)
    requires |lens| == |freq| && Coding(leaves, lens, max) && LeastWeight(leaves, freq, Cost(leaves, freq, lens))
    ensures Fair(leaves, freq, lens)
  {
    hide Coding, Cost;
    forall x, y | x in leaves && y in leaves && x < |freq| && y < |freq| && freq[x] < freq[y] ensures lens[y] <= lens[x] {
      if lens[x] < lens[y] {
        SwapCoding(leaves, lens, max, x, y);
        SwapGain(leaves, freq, lens, x, y);
      }
    }
  }
}
