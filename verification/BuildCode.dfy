/**
  The whole of build_tree: from frequencies to lengths and codes.
 */
module BuildCode {
  import opened Bits
  import opened Canonical
  import opened Heap
  import opened Huffman
  import opened TreeBuilding
  import opened BitLengths

  /** The sum of the first n frequencies. */
  function FreqTotal(freq: seq<nat>, n: nat): nat
    requires n <= |freq|
  {
    if n == 0 then 0 else FreqTotal(freq, n - 1) + freq[n - 1]
  }

  /** Only symbols in use have a frequency. */
  lemma {:induction false} UsedTotal(freq: seq<nat>, elems: nat, n: nat)
    requires n <= elems <= |freq|
    ensures SumTo(Used(freq, elems), freq, n) == FreqTotal(freq, n)
  {
    if n > 0 {
      UsedTotal(freq, elems, n - 1);
    }
  }

  lemma {:induction false} ForcedTotal(was: seq<nat>, now: seq<nat>, forced: set<nat>, n: nat)
    requires ForcedTo(was, now, forced) && n <= |was|
    ensures FreqTotal(now, n) == FreqTotal(was, n) + SumTo(forced, now, n)
  {
    if n > 0 {
      ForcedTotal(was, now, forced, n - 1);
    }
  }

  lemma {:induction false} SumOnes(a: set<nat>, v: seq<nat>)
    requires forall x :: x in a ==> x < |v| && v[x] == 1
    ensures Sum(a, v) == |a|
    decreases a
  {
    if a == {} {
      NoSum(v);
    } else {
      var x :| x in a;
      SumOnes(a - {x}, v);
      SumRemove(a, v, x);
    }
  }

  lemma ForcedWeight(was: seq<nat>, now: seq<nat>, forced: set<nat>, elems: nat)
    requires ForcedTo(was, now, forced) && 3 <= elems <= |was|
    ensures Sum(Used(now, elems), now) == FreqTotal(was, elems) + |forced|
  {
    hide Used;
    UsedTotal(now, elems, elems);
    UsedBelow(now, elems);
    SumToAbove(Used(now, elems), now, elems, |now|);
    ForcedTotal(was, now, forced, elems);
    SumToAbove(forced, now, elems, |now|);
    SumOnes(forced, now);
  }

  lemma UsedBelow(freq: seq<nat>, n: nat)
    requires n <= |freq|
    ensures forall x :: x in Used(freq, n) ==> x < n
  {}

  /** A forced symbol adds its charge to the price once. */
  lemma {:induction false} ForcedPrice(was: seq<nat>, now: seq<nat>, forced: set<nat>, dl: seq<nat>, lens: seq<nat>,
                                       extra: seq<nat>, base: nat, n: nat)
    requires ForcedTo(was, now, forced) && n <= |was| && n <= |dl| && n <= |lens|
    requires forall x: nat :: x in forced && x < n ==> 1 <= dl[x] <= MAX_BITS && XBits(extra, base, x) == 0
    ensures PriceTo(now, dl, lens, extra, base, n) == PriceTo(was, dl, lens, extra, base, n) + SumTo(forced, lens, n)
  {
    hide XBits;
    if n > 0 {
      ForcedPrice(was, now, forced, dl, lens, extra, base, n - 1);
      TimesOne(lens[n - 1]);
    }
  }

  lemma {:induction false} TimesOne(l: nat)
    ensures Times(1, l) == l && Times(0, l) == 0
  {
    if l > 0 {
      TimesOne(l - 1);
    }
  }

  /** Two codes with a Kraft sum of 1 have one bit each. */
  lemma TwoCodes(a: set<nat>, dl: seq<nat>, max: nat, x: nat)
    requires |a| == 2 && x in a && Kraft(a, dl, max) == Pow2(max)
    requires forall i :: i in a ==> i < |dl| && 1 <= dl[i] <= max
    ensures dl[x] == 1
  {
    hide Pow2;
    var rest := a - {x};
    assert |rest| == 1;
    var y :| y in rest;
    assert |rest - {y}| == 0;
    var v := Weights(dl, max);
    SumPair(a, v, x, y);
    assert a - {x} - {y} == {};
    NoSum(v);
    HalfWeight(max, dl[x]);
    HalfWeight(max, dl[y]);
  }

  lemma HalfWeight(max: nat, l: nat)
    requires 1 <= l <= max
    ensures 2 * Pow2(max - l) <= Pow2(max) && (l > 1 ==> 4 * Pow2(max - l) <= Pow2(max))
  {
    hide Pow2;
    HalfPow2(max);
    Pow2Mono(max - l, max - 1);
  }

  lemma HalfPow2(k: nat)
    requires k > 0
    ensures Pow2(k) == 2 * Pow2(k - 1)
  {}

  /** The first two or three symbols carry no extra bits. */
  predicate NoExtra(d: Desc) {
    forall x: nat {:trigger XBits(d.extra, d.base, x)} :: x <= 2 ==> XBits(d.extra, d.base, x) == 0
  }

  /** What the forced codes cost is what was taken back when they were forced. */
  lemma ForcedCost(was: seq<nat>, now: seq<nat>, forced: set<nat>, dl: seq<nat>, d: Desc)
    requires ValidDesc(d) && NoExtra(d) && 3 <= d.elems <= |was| && ForcedTo(was, now, forced)
    requires Ranged(dl, Used(now, d.elems), d) && Kraft(Used(now, d.elems), dl, d.max) == Pow2(d.max)
    requires forced == {} || |Used(now, d.elems)| == 2
    ensures d.codes <= |was| && Price(now, dl, d) == Price(was, dl, d) + |forced|
    ensures StaticPrice(now, dl, d) == StaticPrice(was, dl, d) + (if d.stree == [] then 0 else Sum(forced, d.stree))
  {
    hide XBits, Used, Pow2, Kraft, Sum;
    var leaves := Used(now, d.elems);
    forall x | x in forced ensures x < d.codes && dl[x] == 1 {
      UsedIn(now, d.elems, x);
      TwoCodes(leaves, dl, d.max, x);
    }
    ForcedPrice(was, now, forced, dl, dl, d.extra, d.base, d.codes);
    WholeSum(forced, dl, d.codes);
    SumOnes(forced, dl);
    if d.stree != [] {
      ForcedPrice(was, now, forced, dl, d.stree, d.extra, d.base, d.codes);
      WholeSum(forced, d.stree, d.codes);
    }
  }

  lemma WholeSum(a: set<nat>, v: seq<nat>, n: nat)
    requires n <= |v| && forall x :: x in a ==> x < n
    ensures Sum(a, v) == SumTo(a, v, n)
  {
    SumToAbove(a, v, n, |v|);
  }

  /** The symbols below max_code + 1 have codes exactly if they were used or forced. */
  ghost predicate CodesFor(was: seq<nat>, lens: seq<nat>, elems: nat)
    requires elems <= |was|
  {
    |lens| <= elems && (forall x: nat :: x < elems && was[x] != 0 ==> x < |lens| && lens[x] != 0)
  }

  /** The arrays and descriptor build_tree works with. */
  predicate Arrays(heap: array<nat>, fc: array<nat>, depth: array<nat>, dl: array<nat>, d: Desc) {
    heap != fc && heap != depth && heap != dl && fc != depth && fc != dl && depth != dl &&
    heap.Length == HEAP_SIZE && ValidDesc(d) && NoExtra(d) &&
    2 * d.elems <= fc.Length + 1 && fc.Length == dl.Length <= depth.Length && d.elems <= 286
  }

  lemma ArraysSizes(heap: array<nat>, fc: array<nat>, depth: array<nat>, dl: array<nat>, d: Desc)
    requires Arrays(heap, fc, depth, dl, d)
    ensures heap != fc && heap != depth && heap != dl && fc != depth && fc != dl && depth != dl && heap.Length == HEAP_SIZE
    ensures MAX_BITS < d.elems <= 286 && (d.stree == [] || d.elems <= |d.stree|)
    ensures 2 * d.elems <= fc.Length + 1 && fc.Length == dl.Length <= depth.Length
  {}

  lemma WithCodes(d: Desc, codes: nat)
    requires ValidDesc(d) && NoExtra(d) && codes <= d.elems
    ensures ValidDesc(d.(codes := codes)) && NoExtra(d.(codes := codes))
  {}

  /** The merges make one tree of the symbols, and no prefix code for them has a smaller weight than that tree. */
  ghost predicate LeastTree(freq: seq<nat>, elems: nat, merges: seq<Merge>) {
    && elems + |merges| <= |freq|
    && Tree(Used(freq, elems), elems, merges) && Adds(elems, merges, freq)
    && LeastWeight(Used(freq, elems), freq, InnerFrom(elems, merges, freq, 0))
  }

  lemma BuiltLeast(h: seq<nat>, heapMax: nat, freq: seq<nat>, dl: seq<nat>, elems: nat, merges: seq<Merge>)
    requires Built(h, heapMax, freq, dl, elems, merges)
    ensures LeastTree(freq, elems, merges)
  {
    hide Used, Merging, Adds, Greedy, LeastWeight, InnerFrom;
    TreeIsLeast(Used(freq, elems), elems, merges, freq);
  }

  /** build_tree up to gen_bitlen: the used and forced symbols, merged into one tree. */
  method MakeTree(heap: array<nat>, fc: array<nat>, depth: array<nat>, dl: array<nat>, d: Desc, optLen: int, staticLen: int)
    returns (maxCode: nat, heapMax: nat, opt: int, stat: int, ghost now: seq<nat>, ghost forced: set<nat>, ghost merges: seq<Merge>)
    requires Arrays(heap, fc, depth, dl, d)
    requires forall i :: 0 <= i < depth.Length ==> depth[i] < 256
    requires FreqTotal(fc[..], d.elems) + 2 <= 0xffff
    modifies heap, fc, depth, dl
    ensures maxCode < d.elems && |now| == fc.Length && ForcedTo(old(fc[..]), now, forced)
    ensures forced == {} || |Used(now, d.elems)| == 2
    ensures opt == optLen - |forced| && stat == staticLen - (if d.stree == [] then 0 else Sum(forced, d.stree))
    ensures (forall i :: 0 <= i < d.elems ==> fc[i] == now[i]) && Used(fc[..], d.elems) == Used(now, d.elems)
    ensures Built(heap[..], heapMax, fc[..], dl[..], d.elems, merges) && LeastTree(fc[..], d.elems, merges)
    ensures Leveled(depth[..], d.elems, merges) && forall i :: 0 <= i < d.elems && fc[i] != 0 ==> depth[i] == 0
    ensures forall x :: x in Used(fc[..], d.elems) ==> x <= maxCode
    ensures forall i :: 0 <= i < d.elems && i !in Used(fc[..], d.elems) ==> dl[i] == 0
    ensures forall i :: 0 <= i < depth.Length ==> depth[i] < 256
  {
    hide Content, Used, FreqTotal, Sum, Pow2, Built, LeastTree, Leveled, Father, Holds, Ordered, Combining, ForcedTo, Collected, Arrays, ValidDesc, NoExtra, ValidKeys;
    ArraysSizes(heap, fc, depth, dl, d);
    ghost var was: seq<nat> := fc[..];
    var heapLen, highest;
    heapLen, highest := CollectSymbols(heap, fc, depth, dl, d.elems);
    heapLen, highest, opt, stat, forced := ForceTwo(heap, heapLen, highest, fc, depth, d.elems, d.stree, optLen, staticLen);
    now := fc[..];
    ghost var leaves := Used(now, d.elems);
    Started(heap[..], heapLen, highest, was, now, depth[..], dl[..], d.elems, forced);
    maxCode := highest;
    Heapify(heap, heapLen, fc, depth, leaves);
    NothingMerged(heap[..], heapLen, Keys(now, depth[..]), dl[..], leaves, d.elems);
    heapMax, merges := Combine(heap, heapLen, fc, depth, dl, d.elems, leaves);
    UsedSame(now, fc[..], d.elems);
    BuiltLeast(heap[..], heapMax, fc[..], dl[..], d.elems, merges);
  }

  lemma TalliedCounts(bl: seq<nat>, dl: seq<nat>, codes: nat)
    requires codes <= |dl| && Tallied(bl, dl, codes) && Complete(dl[..codes])
    ensures |bl| == MAX_BITS + 1 && bl[0] == 0 && Fits(dl[..codes])
    ensures forall l {:trigger bl[l]} :: 1 <= l <= MAX_BITS ==> bl[l] == Count(dl[..codes], l)
  {}

  /** No prefix code for the symbols gives the text a smaller total size. */
  ghost predicate Minimal(leaves: set<nat>, freq: seq<nat>, lens: seq<nat>)
    requires |freq| == |lens|
  {
    LeastWeight(leaves, freq, Cost(leaves, freq, lens))
  }

  lemma ForcedOnly(was: seq<nat>, now: seq<nat>, forced: set<nat>)
    requires ForcedTo(was, now, forced)
    ensures forall i :: 0 <= i < |was| && i !in forced ==> now[i] == was[i]
  {}

  lemma TreeMinimal(h: seq<nat>, heapMax: nat, freq: seq<nat>, d: Desc, merges: seq<Merge>, before: seq<nat>, lens: seq<nat>)
    requires Built(h, heapMax, freq, before, d.elems, merges) && |lens| == |freq| && Depths(d.elems, merges, lens, d.max)
    requires forall x :: d.elems <= x < d.elems + |merges| ==> lens[x] < d.max
    ensures Minimal(Used(freq, d.elems), freq, lens)
  {
    hide Tree, Adds, Greedy, Coding, Cost, Depths, Used;
    var leaves := Used(freq, d.elems);
    forall other: seq<nat>, bound: nat | |other| == |freq| && Coding(leaves, other, bound)
      ensures Cost(leaves, freq, lens) <= Cost(leaves, freq, other)
    {
      Optimal(leaves, d.elems, merges, freq, lens, d.max, other, bound);
    }
  }

  lemma MinimalFair(freq: seq<nat>, d: Desc, lens: seq<nat>)
    requires d.elems <= |freq| == |lens| && Ranged(lens, Used(freq, d.elems), d) && Kraft(Used(freq, d.elems), lens, d.max) == Pow2(d.max)
    requires Minimal(Used(freq, d.elems), freq, lens)
    ensures Fair(Used(freq, d.elems), freq, lens)
  {
    hide Kraft, Cost, Used, Pow2;
    LeastIsFair(Used(freq, d.elems), freq, lens, d.max);
  }

  /**
    build_tree: a complete code for the used symbols, none longer than max_length, with its codes
    assigned; opt_len and static_len grow by what the used symbols cost. The tree itself is one of
    least weight, whether or not gen_bitlen then has to limit its lengths; and either way a more
    frequent symbol has no longer code.
   */
  method BuildTree(heap: array<nat>, fc: array<nat>, depth: array<nat>, dl: array<nat>, d: Desc, blCount: array<nat>,
                   optLen: int, staticLen: int)
    returns (maxCode: nat, opt: int, stat: int, ghost overflow: nat, ghost freq: seq<nat>, ghost forced: set<nat>,
             ghost merges: seq<Merge>)
    requires Arrays(heap, fc, depth, dl, d) && d.codes == 0
    requires blCount != heap && blCount != fc && blCount != depth && blCount != dl && blCount.Length == MAX_BITS + 1
    requires forall i :: 0 <= i < depth.Length ==> depth[i] < 256
    requires FreqTotal(fc[..], d.elems) + 2 <= 0xffff
    modifies heap, fc, depth, dl, blCount
    ensures maxCode < d.elems && CodesFor(old(fc[..]), dl[..maxCode + 1], d.elems)
    ensures Complete(dl[..maxCode + 1]) && ValidLens(dl[..maxCode + 1])
    ensures forall i :: 0 <= i <= maxCode ==> dl[i] <= d.max
    ensures forall i :: maxCode < i < d.elems ==> dl[i] == 0
    ensures forall n {:trigger fc[n]} :: 0 <= n <= maxCode && dl[n] != 0 ==> fc[n] == Huff(dl[..maxCode + 1], n)
    ensures opt == optLen + Price(old(fc[..]), dl[..], d.(codes := maxCode + 1))
    ensures stat == staticLen + StaticPrice(old(fc[..]), dl[..], d.(codes := maxCode + 1))
    ensures forall i :: 0 <= i < depth.Length ==> depth[i] < 256
    ensures |freq| == dl.Length && d.elems <= |freq| && (forall i :: 0 <= i < d.elems && i !in forced ==> freq[i] == old(fc[i]))
    ensures forced == {} || |Used(freq, d.elems)| == 2
    ensures LeastTree(freq, d.elems, merges)
    ensures overflow == 0 ==> Minimal(Used(freq, d.elems), freq, dl[..])
    ensures Fair(Used(freq, d.elems), freq, dl[..])
  {
    hide Used, Price, StaticPrice, FreqTotal, Sum, Huff, Kraft, Pow2, Built, LeastTree, XBits, Complete, Fits, Tallied, Depths, Excess, ForcedTo,
         Ranged, CodesFor, ValidLens, NoExtra, Minimal, Fair;
    ghost var was: seq<nat> := fc[..];
    ghost var now;
    var heapMax;
    maxCode, heapMax, opt, stat, now, forced, merges := MakeTree(heap, fc, depth, dl, d, optLen, staticLen);
    var desc := d.(codes := maxCode + 1);
    WithCodes(d, maxCode + 1);
    ghost var made: seq<nat> := fc[..];
    ghost var h0: seq<nat>, before: seq<nat> := heap[..], dl[..];
    freq := made;
    ForcedOnly(was, now, forced);
    opt, stat, overflow := GenBitlen(heap, heapMax, fc, dl, desc, blCount, opt, stat, merges);
    if overflow == 0 {
      TreeMinimal(h0, heapMax, made, desc, merges, before, dl[..]);
      MinimalFair(made, desc, dl[..]);
    }
    SamePrice(now, made, dl[..], desc);
    Finished(was, now, forced, dl[..], desc);
    ForcedCost(was, now, forced, dl[..], desc);
    TalliedCounts(blCount[..], dl[..], maxCode + 1);
    assert dl[..][..maxCode + 1] == dl[..maxCode + 1];
    GenCodes(fc, dl, maxCode, blCount);
  }

  /** What the first two loops leave for the rest. */
  lemma Started(h: seq<nat>, len: nat, maxCode: int, was: seq<nat>, now: seq<nat>, depth: seq<nat>, dl: seq<nat>, elems: nat, forced: set<nat>)
    requires 3 <= elems <= |now| <= |depth| && ForcedTo(was, now, forced) && 2 <= len && |dl| == |now|
    requires Collected(h, len, Used(now, elems), maxCode) && forall i :: 0 <= i < |depth| ==> depth[i] < 256
    requires FreqTotal(was, elems) + 2 <= 0xffff && |forced| <= 2
    requires forall i :: 0 <= i < elems && was[i] == 0 ==> dl[i] == 0
    ensures Holds(h, len, Keys(now, depth), Used(now, elems)) && 0 <= maxCode && |Used(now, elems)| == len
    ensures forall x :: x in Used(now, elems) ==> x < elems && x <= maxCode
    ensures Sum(Used(now, elems), now) <= 0xffff
    ensures forall i :: 0 <= i < elems && i !in Used(now, elems) ==> dl[i] == 0
  {
    hide Content, Used;
    HoldsCollected(h, len, Keys(now, depth), elems, maxCode);
    ForcedWeight(was, now, forced, elems);
    UsedBelow(now, elems);
    forall i: nat | i < elems && i !in Used(now, elems) ensures dl[i] == 0 {
      UsedIn(now, elems, i);
    }
  }

  lemma {:induction false} PriceSame(freq: seq<nat>, g: seq<nat>, dl: seq<nat>, lens: seq<nat>, extra: seq<nat>, base: nat, n: nat)
    requires n <= |freq| && n <= |g| && n <= |dl| && n <= |lens| && forall i :: 0 <= i < n ==> g[i] == freq[i]
    ensures PriceTo(g, dl, lens, extra, base, n) == PriceTo(freq, dl, lens, extra, base, n)
  {
    if n > 0 {
      PriceSame(freq, g, dl, lens, extra, base, n - 1);
    }
  }

  lemma SamePrice(now: seq<nat>, made: seq<nat>, dl: seq<nat>, d: Desc)
    requires ValidDesc(d) && d.elems <= |now| == |made| && d.codes <= |dl| && forall i :: 0 <= i < d.elems ==> made[i] == now[i]
    ensures Used(made, d.elems) == Used(now, d.elems)
    ensures Price(made, dl, d) == Price(now, dl, d) && StaticPrice(made, dl, d) == StaticPrice(now, dl, d)
  {
    UsedSame(now, made, d.elems);
    PriceSame(now, made, dl, dl, d.extra, d.base, d.codes);
    if d.stree != [] {
      PriceSame(now, made, dl, d.stree, d.extra, d.base, d.codes);
    }
  }

  lemma Finished(was: seq<nat>, now: seq<nat>, forced: set<nat>, dl: seq<nat>, d: Desc)
    requires ValidDesc(d) && d.elems <= |was| && ForcedTo(was, now, forced) && Ranged(dl, Used(now, d.elems), d)
    ensures forall i :: d.codes <= i < d.elems ==> dl[i] == 0
    ensures CodesFor(was, dl[..d.codes], d.elems)
    ensures forall i :: 0 <= i < d.codes ==> dl[i] <= d.max
  {
    forall x: nat | x < d.elems && was[x] != 0 ensures x < d.codes && dl[x] != 0 {
      assert x !in forced;
      UsedIn(now, d.elems, x);
    }
    forall i: nat | i < d.codes ensures dl[i] <= d.max {
      if i in Used(now, d.elems) {}
    }
  }
}
