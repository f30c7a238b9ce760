/**
  gen_bitlen of trees.c: the lengths of the codes, from the tree, and their repair when some are
  longer than allowed.
 */
module BitLengths {
  import opened Bits
  import opened Canonical
  import opened Heap
  import opened Huffman
  import opened TreeBuilding

  // ----- the first pass: depths in the tree, cut off at max -----

  /** The father of entry p of the list. */
  function Dad(elems: nat, merges: seq<Merge>, p: nat): nat
    requires p < 2 * |merges|
  {
    elems + |merges| - 1 - p / 2
  }

  /** The list is done up to q: below, lengths; from q on, still fathers. */
  ghost predicate Pass(dl: seq<nat>, elems: nat, merges: seq<Merge>, max: nat, q: nat)
    requires merges != []
  {
    && elems + |merges| <= |dl| && dl[Root(elems, merges)] == 0
    && (forall p {:trigger NodeAt(merges, p)} :: 0 <= p < 2 * |merges| ==>
          NodeAt(merges, p) < |dl| &&
          dl[NodeAt(merges, p)] == if p < q then Cut(dl[Dad(elems, merges, p)] + 1, max) else Dad(elems, merges, p))
  }

  /** How many of the first q entries overflow. */
  function OverTo(dl: seq<nat>, elems: nat, merges: seq<Merge>, max: nat, q: nat): nat
    requires q <= 2 * |merges| && elems + |merges| <= |dl|
  {
    if q == 0 then 0
    else OverTo(dl, elems, merges, max, q - 1) + (if dl[Dad(elems, merges, q - 1)] + 1 > max then 1 else 0)
  }

  /** Fathers come before their sons in the list. */
  lemma DadBefore(leaves: set<nat>, elems: nat, merges: seq<Merge>, p: nat, q: nat)
    requires Tree(leaves, elems, merges) && p <= q < 2 * |merges|
    ensures Dad(elems, merges, p) != NodeAt(merges, q)
  {
    var k := |merges| - 1 - q / 2;
    MergedPair(leaves, elems, merges, k);
  }

  lemma NeverRoot(leaves: set<nat>, elems: nat, merges: seq<Merge>, q: nat)
    requires Tree(leaves, elems, merges) && q < 2 * |merges|
    ensures NodeAt(merges, q) != Root(elems, merges)
  {
    MergedPair(leaves, elems, merges, |merges| - 1 - q / 2);
  }

  lemma {:induction false} OverFrame(dl: seq<nat>, g: seq<nat>, elems: nat, merges: seq<Merge>, max: nat, q: nat)
    requires q <= 2 * |merges| && elems + |merges| <= |dl| == |g|
    requires forall p {:trigger Dad(elems, merges, p)} :: 0 <= p < q ==> g[Dad(elems, merges, p)] == dl[Dad(elems, merges, p)]
    ensures OverTo(g, elems, merges, max, q) == OverTo(dl, elems, merges, max, q)
  {
    if q > 0 {
      OverFrame(dl, g, elems, merges, max, q - 1);
    }
  }

  lemma PassStep(leaves: set<nat>, dl: seq<nat>, elems: nat, merges: seq<Merge>, max: nat, q: nat)
    requires Tree(leaves, elems, merges) && q < 2 * |merges| && Pass(dl, elems, merges, max, q)
    ensures var x, d := NodeAt(merges, q), Dad(elems, merges, q);
            x < |dl| && d < |dl| && dl[x] == d && d != x &&
            Pass(dl[x := Cut(dl[d] + 1, max)], elems, merges, max, q + 1)
    ensures var x, d := NodeAt(merges, q), Dad(elems, merges, q);
            OverTo(dl[x := Cut(dl[d] + 1, max)], elems, merges, max, q + 1) ==
            OverTo(dl, elems, merges, max, q) + (if dl[d] + 1 > max then 1 else 0)
  {
    hide NodeAt, Merging, Cut;
    var x, d := NodeAt(merges, q), Dad(elems, merges, q);
    var g := dl[x := Cut(dl[d] + 1, max)];
    NeverRoot(leaves, elems, merges, q);
    forall p {:trigger NodeAt(merges, p)} | 0 <= p < 2 * |merges|
      ensures g[NodeAt(merges, p)] == if p < q + 1 then Cut(g[Dad(elems, merges, p)] + 1, max) else Dad(elems, merges, p)
    {
      if p <= q { DadBefore(leaves, elems, merges, p, q); }
      if p < q { SonsDiffer(leaves, elems, merges, p, q); }
      if q < p { SonsDiffer(leaves, elems, merges, q, p); }
    }
    forall p {:trigger Dad(elems, merges, p)} | 0 <= p < q
      ensures g[Dad(elems, merges, p)] == dl[Dad(elems, merges, p)]
    {
      DadBefore(leaves, elems, merges, p, q);
    }
    DadBefore(leaves, elems, merges, q, q);
    OverFrame(dl, g, elems, merges, max, q);
  }

  /** Half the overflow is the excess. */
  lemma {:induction false} OverIsExcess(dl: seq<nat>, elems: nat, merges: seq<Merge>, max: nat, k: nat)
    requires k <= |merges| && elems + |merges| <= |dl|
    requires forall x :: elems <= x < elems + |merges| ==> dl[x] <= max
    ensures OverTo(dl, elems, merges, max, 2 * (|merges| - k)) == 2 * Excess(elems, merges, dl, max, k)
    decreases |merges| - k
  {
    if k < |merges| {
      OverIsExcess(dl, elems, merges, max, k + 1);
      var q := 2 * (|merges| - k);
      assert Dad(elems, merges, q - 1) == elems + k && Dad(elems, merges, q - 2) == elems + k;
      assert OverTo(dl, elems, merges, max, q - 1) ==
             OverTo(dl, elems, merges, max, q - 2) + (if dl[elems + k] + 1 > max then 1 else 0);
    }
  }

  /** The finished pass gives depths. */
  lemma PassDepths(leaves: set<nat>, dl: seq<nat>, elems: nat, merges: seq<Merge>, max: nat)
    requires Tree(leaves, elems, merges) && Pass(dl, elems, merges, max, 2 * |merges|) && 1 <= max
    ensures Depths(elems, merges, dl, max)
    ensures forall x :: elems <= x < elems + |merges| ==> dl[x] <= max
    ensures forall x :: x in leaves ==> x < |dl| && 1 <= dl[x] <= max
  {
    hide Merging, Frontier;
    forall k | 0 <= k < |merges|
      ensures merges[k].n < |dl| && merges[k].m < |dl|
      ensures dl[merges[k].n] == Cut(dl[elems + k] + 1, max) && dl[merges[k].m] == Cut(dl[elems + k] + 1, max)
    {
      var q := 2 * (|merges| - 1 - k);
      assert NodeAt(merges, q) == merges[k].m && NodeAt(merges, q + 1) == merges[k].n;
      assert Dad(elems, merges, q) == elems + k && Dad(elems, merges, q + 1) == elems + k;
    }
    forall x | elems <= x < elems + |merges| ensures dl[x] <= max {
      if x != Root(elems, merges) {
        var q := InnerPlace(leaves, elems, merges, x);
        assert dl[NodeAt(merges, q)] <= max;
      }
    }
    forall x | x in leaves ensures x < |dl| && 1 <= dl[x] <= max {
      var q := LeafPlace(leaves, elems, merges, x);
      assert NodeAt(merges, q) == x;
    }
  }

  lemma InnerPlace(leaves: set<nat>, elems: nat, merges: seq<Merge>, x: nat) returns (q: nat)
    requires Tree(leaves, elems, merges) && elems <= x < Root(elems, merges)
    ensures q < 2 * |merges| && NodeAt(merges, q) == x
  {
    var k := x - elems;
    OnlyRoot(leaves, elems, merges);
    FrontierStep(leaves, elems, merges, k);
    q := PlaceOf(leaves, elems, merges, k + 1, x);
  }

  lemma LeafPlace(leaves: set<nat>, elems: nat, merges: seq<Merge>, x: nat) returns (q: nat)
    requires Tree(leaves, elems, merges) && x in leaves
    ensures x < elems && q < 2 * |merges| && NodeAt(merges, q) == x
  {
    OnlyRoot(leaves, elems, merges);
    LeavesWithin(leaves, elems, merges);
    assert merges[..0] == [];
    q := PlaceOf(leaves, elems, merges, 0, x);
  }

  /** Entries of the list that are symbols are leaves. */
  lemma ListedSymbol(leaves: set<nat>, elems: nat, merges: seq<Merge>, q: nat)
    requires Tree(leaves, elems, merges) && q < 2 * |merges|
    ensures NodeAt(merges, q) < elems <==> NodeAt(merges, q) in leaves
  {
    var k := |merges| - 1 - q / 2;
    MergedPair(leaves, elems, merges, k);
    FrontierSymbols(leaves, elems, merges[..k]);
    LeavesWithin(leaves, elems, merges);
  }

  // ----- statistics and cost of the lengths set so far -----

  /** bl_count[] for the lengths among dl[0..maxCode]; fathers are no lengths. */
  ghost predicate Tallied(bl: seq<nat>, dl: seq<nat>, codes: nat)
    requires codes <= |dl|
  {
    |bl| == MAX_BITS + 1 && bl[0] == 0 &&
    forall b {:trigger bl[b]} :: 1 <= b <= MAX_BITS ==> bl[b] == Count(dl[..codes], b)
  }

  lemma {:induction false} CountUpdate(s: seq<nat>, i: nat, x: nat, l: nat)
    requires i < |s|
    ensures Count(s[i := x], l) + (if s[i] == l then 1 else 0) == Count(s, l) + (if x == l then 1 else 0)
  {
    var k := |s| - 1;
    if i < k {
      CountUpdate(s[..k], i, x, l);
      assert s[i := x][..k] == s[..k][i := x];
    } else {
      assert s[i := x][..k] == s[..k];
    }
  }

  lemma TalliedStep(bl: seq<nat>, dl: seq<nat>, codes: nat, n: nat, bits: nat)
    requires codes <= |dl| && Tallied(bl, dl, codes) && n < |dl| && 1 <= bits <= MAX_BITS < dl[n]
    ensures n >= codes ==> Tallied(bl, dl[n := bits], codes)
    ensures n < codes ==> Tallied(bl[bits := bl[bits] + 1], dl[n := bits], codes)
  {
    hide Count;
    if n >= codes {
      assert dl[n := bits][..codes] == dl[..codes];
    } else {
      var g := bl[bits := bl[bits] + 1];
      assert dl[n := bits][..codes] == dl[..codes][n := bits];
      forall b {:trigger g[b]} | 1 <= b <= MAX_BITS ensures g[b] == Count(dl[n := bits][..codes], b) {
        CountUpdate(dl[..codes], n, bits, b);
      }
    }
  }

  lemma {:induction false} CountNone(s: seq<nat>, l: nat)
    requires forall i :: 0 <= i < |s| ==> s[i] != l
    ensures Count(s, l) == 0
  {
    if s != [] {
      CountNone(s[..|s| - 1], l);
    }
  }

  function XBits(extra: seq<nat>, base: nat, n: nat): nat {
    if n >= base && n - base < |extra| then extra[n - base] else 0
  }

  /** What symbol n costs each time: its code, if it has one by now, and its extra bits. */
  function Charge(l: nat, len: nat, extra: seq<nat>, base: nat, n: nat): nat {
    if 1 <= l <= MAX_BITS then len + XBits(extra, base, n) else 0
  }

  /** The price of all symbols below n: frequency times charge, the code lengths being those of `lens`. */
  function PriceTo(freq: seq<nat>, dl: seq<nat>, lens: seq<nat>, extra: seq<nat>, base: nat, n: nat): nat
    requires n <= |freq| && n <= |dl| && n <= |lens|
  {
    if n == 0 then 0
    else PriceTo(freq, dl, lens, extra, base, n - 1) + Times(freq[n - 1], Charge(dl[n - 1], lens[n - 1], extra, base, n - 1))
  }

  /** Setting the length of one symbol changes the price by that symbol's. */
  lemma {:induction false} PriceUpdate(freq: seq<nat>, dl: seq<nat>, extra: seq<nat>, base: nat, n: nat, i: nat, l: nat)
    requires n <= |freq| && n <= |dl| && i < |dl|
    ensures i >= n ==> PriceTo(freq, dl[i := l], dl[i := l], extra, base, n) == PriceTo(freq, dl, dl, extra, base, n)
    ensures i < n ==>
      PriceTo(freq, dl[i := l], dl[i := l], extra, base, n) + Times(freq[i], Charge(dl[i], dl[i], extra, base, i)) ==
      PriceTo(freq, dl, dl, extra, base, n) + Times(freq[i], Charge(l, l, extra, base, i))
  {
    if n > 0 {
      PriceUpdate(freq, dl, extra, base, n - 1, i, l);
    }
  }

  lemma {:induction false} StaticUpdate(freq: seq<nat>, dl: seq<nat>, slens: seq<nat>, extra: seq<nat>, base: nat, n: nat, i: nat, l: nat)
    requires n <= |freq| && n <= |dl| && n <= |slens| && i < |dl|
    ensures i >= n ==> PriceTo(freq, dl[i := l], slens, extra, base, n) == PriceTo(freq, dl, slens, extra, base, n)
    ensures i < n ==>
      PriceTo(freq, dl[i := l], slens, extra, base, n) + Times(freq[i], Charge(dl[i], slens[i], extra, base, i)) ==
      PriceTo(freq, dl, slens, extra, base, n) + Times(freq[i], Charge(l, slens[i], extra, base, i))
  {
    if n > 0 {
      StaticUpdate(freq, dl, slens, extra, base, n - 1, i, l);
    }
  }

  lemma {:induction false} PriceNothing(freq: seq<nat>, dl: seq<nat>, lens: seq<nat>, extra: seq<nat>, base: nat, n: nat)
    requires n <= |freq| && n <= |dl| && n <= |lens| && forall i :: 0 <= i < n ==> dl[i] == 0 || dl[i] > MAX_BITS
    ensures PriceTo(freq, dl, lens, extra, base, n) == 0
  {
    if n > 0 {
      PriceNothing(freq, dl, lens, extra, base, n - 1);
      TimesZero(freq[n - 1]);
    }
  }

  lemma TimesZero(f: nat)
    ensures Times(f, 0) == 0
  {}

  lemma {:induction false} TimesIs(f: nat, l: nat)
    ensures f * l == Times(f, l)
  {
    if l > 0 {
      TimesIs(f, l - 1);
      assert f * l == f + f * (l - 1);
    }
  }

  /** How many of the first q entries of the list are symbols. */
  function LeavesTo(merges: seq<Merge>, codes: nat, q: nat): nat
    requires q <= 2 * |merges|
  {
    if q == 0 then 0 else LeavesTo(merges, codes, q - 1) + (if NodeAt(merges, q - 1) < codes then 1 else 0)
  }

  /** bl_count[1] + ... + bl_count[n] */
  function BlSum(bl: seq<nat>, n: nat): nat
    requires n < |bl|
  {
    if n == 0 then 0 else BlSum(bl, n - 1) + bl[n]
  }

  lemma {:induction false} BlSumUpdate(bl: seq<nat>, n: nat, b: nat, x: nat)
    requires n < |bl| && 1 <= b < |bl|
    ensures BlSum(bl[b := x], n) + (if b <= n then bl[b] else 0) == BlSum(bl, n) + (if b <= n then x else 0)
  {
    if n > 0 {
      BlSumUpdate(bl, n - 1, b, x);
    }
  }

  /** The parameters of a tree: static_tree_desc and max_code + 1. An empty static tree is a null one. */
  datatype Desc = Desc(elems: nat, codes: nat, stree: seq<nat>, extra: seq<nat>, base: nat, max: nat)

  predicate ValidDesc(d: Desc) {
    1 <= d.max <= MAX_BITS < d.elems && d.codes <= d.elems <= d.base + |d.extra| &&
    d.elems <= Pow2(d.max) && (d.stree == [] || d.elems <= |d.stree|)
  }

  function Price(freq: seq<nat>, dl: seq<nat>, d: Desc): nat
    requires d.codes <= |freq| && d.codes <= |dl|
  {
    PriceTo(freq, dl, dl, d.extra, d.base, d.codes)
  }

  /** The same in the static code. */
  function StaticPrice(freq: seq<nat>, dl: seq<nat>, d: Desc): nat
    requires d.codes <= |freq| && d.codes <= |dl| && ValidDesc(d)
  {
    if d.stree == [] then 0 else PriceTo(freq, dl, d.stree, d.extra, d.base, d.codes)
  }

  /** The first pass of gen_bitlen, q entries of the list done. */
  ghost predicate Progress(dl: seq<nat>, bl: seq<nat>, freq: seq<nat>, d: Desc, merges: seq<Merge>, q: nat,
                           overflow: nat, opt: int, stat: int)
    requires merges != [] && q <= 2 * |merges|
  {
    && ValidDesc(d) && d.codes <= |freq| == |dl|
    && Pass(dl, d.elems, merges, d.max, q) && overflow == OverTo(dl, d.elems, merges, d.max, q)
    && Tallied(bl, dl, d.codes) && BlSum(bl, MAX_BITS) == LeavesTo(merges, d.codes, q)
    && opt == Price(freq, dl, d) && stat == StaticPrice(freq, dl, d)
  }

  lemma ProgressStep(leaves: set<nat>, dl: seq<nat>, bl: seq<nat>, freq: seq<nat>, d: Desc, merges: seq<Merge>, q: nat,
                     overflow: nat, opt: int, stat: int)
    requires Tree(leaves, d.elems, merges) && q < 2 * |merges|
    requires Progress(dl, bl, freq, d, merges, q, overflow, opt, stat)
    ensures var n, dad := NodeAt(merges, q), Dad(d.elems, merges, q);
            n < |dl| && dad < |dl| && dl[n] == dad &&
            var bits := Cut(dl[dad] + 1, d.max);
            1 <= bits <= MAX_BITS && bits < |bl| &&
            var leaf := n < d.codes;
            Progress(dl[n := bits], if leaf then bl[bits := bl[bits] + 1] else bl, freq, d, merges, q + 1,
                     overflow + (if dl[dad] + 1 > d.max then 1 else 0),
                     opt + (if leaf then Times(freq[n], bits + XBits(d.extra, d.base, n)) else 0),
                     stat + (if leaf && d.stree != [] then Times(freq[n], d.stree[n] + XBits(d.extra, d.base, n)) else 0))
  {
    hide Pass, OverTo, Tallied, Tree, NodeAt, Times, PriceTo, BlSum, XBits;
    var n, dad := NodeAt(merges, q), Dad(d.elems, merges, q);
    PassStep(leaves, dl, d.elems, merges, d.max, q);
    var bits := Cut(dl[dad] + 1, d.max);
    DadIsNoLength(leaves, d.elems, merges, q);
    TalliedStep(bl, dl, d.codes, n, bits);
    TalliedSize(bl, dl, d.codes);
    BlSumUpdate(bl, MAX_BITS, bits, bl[bits] + 1);
    PriceUpdate(freq, dl, d.extra, d.base, d.codes, n, bits);
    if d.stree != [] {
      StaticUpdate(freq, dl, d.stree, d.extra, d.base, d.codes, n, bits);
    }
    if n < d.codes {
      TimesZero(freq[n]);
    }
  }

  lemma DadIsNoLength(leaves: set<nat>, elems: nat, merges: seq<Merge>, q: nat)
    requires Tree(leaves, elems, merges) && q < 2 * |merges|
    ensures Dad(elems, merges, q) >= elems
  {}

  lemma TalliedSize(bl: seq<nat>, dl: seq<nat>, codes: nat)
    requires codes <= |dl| && Tallied(bl, dl, codes)
    ensures |bl| == MAX_BITS + 1 && bl[0] == 0
  {}

  /** Before the pass no symbol has a length. */
  lemma ProgressStart(leaves: set<nat>, dl: seq<nat>, bl: seq<nat>, freq: seq<nat>, d: Desc, merges: seq<Merge>)
    requires ValidDesc(d) && d.codes <= |freq| == |dl| && Tree(leaves, d.elems, merges) && Fathers(dl, d.elems, merges)
    requires merges != [] && d.elems + |merges| <= |dl| && bl == Rep(0, MAX_BITS + 1)
    requires forall i :: 0 <= i < d.elems && i !in leaves ==> dl[i] == 0
    ensures Progress(dl[Root(d.elems, merges) := 0], bl, freq, d, merges, 0, 0, 0, 0)
  {
    hide Tree, PriceTo, Count, NodeAt;
    var g := dl[Root(d.elems, merges) := 0];
    FathersPass(leaves, dl, d.elems, merges, d.max);
    NotYet(leaves, dl, d.elems, merges);
    assert g[..d.codes] == dl[..d.codes];
    PriceNothing(freq, g, g, d.extra, d.base, d.codes);
    if d.stree != [] {
      PriceNothing(freq, g, d.stree, d.extra, d.base, d.codes);
    }
    forall b {:trigger bl[b]} | 1 <= b <= MAX_BITS ensures bl[b] == Count(g[..d.codes], b) {
      CountNone(g[..d.codes], b);
    }
    BlSumNone(bl, MAX_BITS);
  }

  lemma {:induction false} BlSumNone(bl: seq<nat>, n: nat)
    requires n < |bl| && forall i :: 0 <= i < |bl| ==> bl[i] == 0
    ensures BlSum(bl, n) == 0
  {
    if n > 0 {
      BlSumNone(bl, n - 1);
    }
  }

  lemma FathersPass(leaves: set<nat>, dl: seq<nat>, elems: nat, merges: seq<Merge>, max: nat)
    requires Tree(leaves, elems, merges) && Fathers(dl, elems, merges) && elems + |merges| <= |dl|
    ensures Pass(dl[Root(elems, merges) := 0], elems, merges, max, 0)
  {
    hide Tree;
    forall p {:trigger NodeAt(merges, p)} | 0 <= p < 2 * |merges|
      ensures NodeAt(merges, p) < |dl| && dl[NodeAt(merges, p)] == Dad(elems, merges, p)
      ensures NodeAt(merges, p) != Root(elems, merges)
    {
      NeverRoot(leaves, elems, merges, p);
    }
  }

  /** Symbols in use have fathers, the others nothing. */
  lemma NotYet(leaves: set<nat>, dl: seq<nat>, elems: nat, merges: seq<Merge>)
    requires Tree(leaves, elems, merges) && Fathers(dl, elems, merges) && elems + |merges| <= |dl|
    requires forall i :: 0 <= i < elems && i !in leaves ==> dl[i] == 0
    ensures forall i :: 0 <= i < elems ==> dl[i] == 0 || dl[i] >= elems
  {
    hide Merging;
    forall i: nat | i < elems ensures dl[i] == 0 || dl[i] >= elems {
      if i in leaves {
        var q := LeafPlace(leaves, elems, merges, i);
        assert dl[NodeAt(merges, q)] == Dad(elems, merges, q);
      }
    }
  }

  /** The loop body of the first pass: the length of one entry of the list. */
  method SetLength(fc: array<nat>, dl: array<nat>, d: Desc, blCount: array<nat>, n: nat, overflow: nat, optLen: int, staticLen: int,
                   ghost leaves: set<nat>, ghost merges: seq<Merge>, ghost q: nat, ghost opt: int, ghost stat: int)
    returns (over: nat, opt': int, stat': int)
    requires fc != dl && blCount != dl && fc != blCount
    requires Tree(leaves, d.elems, merges) && q < 2 * |merges| && n == NodeAt(merges, q)
    requires Progress(dl[..], blCount[..], fc[..], d, merges, q, overflow, opt, stat)
    modifies dl, blCount
    ensures Progress(dl[..], blCount[..], fc[..], d, merges, q + 1, over, opt + (opt' - optLen), stat + (stat' - staticLen))
    ensures forall i :: 0 <= i < dl.Length && i != n ==> dl[i] == old(dl[i])
  {
    hide Tree, Progress, XBits, Dad, NodeAt, Times;
    ProgressIs(dl[..], blCount[..], fc[..], d, merges, q, overflow, opt, stat);
    ProgressStep(leaves, dl[..], blCount[..], fc[..], d, merges, q, overflow, opt, stat);
    over, opt', stat' := overflow, optLen, staticLen;
    ghost var g: seq<nat>, b: seq<nat> := dl[..], blCount[..];
    var bits := dl[dl[n]] + 1;
    if bits > d.max { bits, over := d.max, over + 1; }
    dl[n] := bits;
    assert dl[..] == g[n := bits];
    if n >= d.codes { return; }
    blCount[bits] := blCount[bits] + 1;
    assert blCount[..] == b[bits := b[bits] + 1];
    opt', stat' := AddCost(fc[n], bits, n, d, opt', stat');
  }

  lemma ProgressIs(dl: seq<nat>, bl: seq<nat>, freq: seq<nat>, d: Desc, merges: seq<Merge>, q: nat, overflow: nat, opt: int, stat: int)
    requires merges != [] && q <= 2 * |merges| && Progress(dl, bl, freq, d, merges, q, overflow, opt, stat)
    ensures ValidDesc(d) && d.codes <= |freq| == |dl| && |bl| == MAX_BITS + 1
  {}

  /** The first pass of gen_bitlen. */
  method FirstPass(heap: array<nat>, heapMax: nat, fc: array<nat>, dl: array<nat>, d: Desc, blCount: array<nat>,
                   optLen: int, staticLen: int, ghost merges: seq<Merge>)
    returns (overflow: nat, opt: int, stat: int)
    requires heap != dl && fc != dl && blCount != dl && heap != blCount && fc != blCount && blCount.Length == MAX_BITS + 1
    requires ValidDesc(d) && Built(heap[..], heapMax, fc[..], dl[..], d.elems, merges)
    requires forall x :: x in Used(fc[..], d.elems) ==> x < d.codes
    requires forall i :: 0 <= i < d.elems && i !in Used(fc[..], d.elems) ==> dl[i] == 0
    modifies dl, blCount
    ensures Progress(dl[..], blCount[..], fc[..], d, merges, 2 * |merges|, overflow, opt - optLen, stat - staticLen)
    ensures forall i :: 0 <= i < d.elems && i !in Used(fc[..], d.elems) ==> dl[i] == 0
  {
    hide Tree, Built, Progress, Fathers, Used, XBits, Dad, NodeAt, Times, Listed, Root;
    overflow, opt, stat := 0, optLen, staticLen;
    ZeroCounts(blCount);
    BuiltSize(heap[..], heapMax, fc[..], dl[..], d.elems, merges);
    ghost var leaves := Used(fc[..], d.elems);
    ProgressStart(leaves, dl[..], blCount[..], fc[..], d, merges);
    ghost var was: seq<nat> := dl[..];
    RootIs(d.elems, merges);
    assert heap[heapMax] == heap[heapMax..][0] == Root(d.elems, merges);
    dl[heap[heapMax]] := 0;
    assert dl[..] == was[Root(d.elems, merges) := 0];
    for h := heapMax + 1 to HEAP_SIZE
      invariant Progress(dl[..], blCount[..], fc[..], d, merges, h - heapMax - 1, overflow, opt - optLen, stat - staticLen)
      invariant forall i :: 0 <= i < d.elems && i !in leaves ==> dl[i] == 0
    {
      ghost var q: nat := h - heapMax - 1;
      EntryIs(heap[..], heapMax, d.elems, merges, q);
      ListedUse(leaves, d.elems, merges, q);
      overflow, opt, stat := SetLength(fc, dl, d, blCount, heap[h], overflow, opt, stat, leaves, merges, q, opt - optLen, stat - staticLen);
    }
  }

  /** What one symbol adds to opt_len and static_len. */
  method AddCost(f: nat, bits: nat, n: nat, d: Desc, optLen: int, staticLen: int) returns (opt: int, stat: int)
    requires ValidDesc(d) && n < d.codes
    ensures opt == optLen + Times(f, bits + XBits(d.extra, d.base, n))
    ensures stat == staticLen + if d.stree != [] then Times(f, d.stree[n] + XBits(d.extra, d.base, n)) else 0
  {
    opt, stat := optLen, staticLen;
    var xbits: nat := 0;
    if n >= d.base { xbits := d.extra[n - d.base]; }
    TimesIs(f, bits + xbits);
    opt := opt + f * (bits + xbits);
    if d.stree != [] {
      TimesIs(f, d.stree[n] + xbits);
      stat := stat + f * (d.stree[n] + xbits);
    }
  }

  lemma RootIs(elems: nat, merges: seq<Merge>)
    requires merges != []
    ensures elems <= Root(elems, merges) < elems + |merges|
  {}

  method ZeroCounts(blCount: array<nat>)
    requires blCount.Length == MAX_BITS + 1
    modifies blCount
    ensures blCount[..] == Rep(0, MAX_BITS + 1)
  {
    for bits := 0 to MAX_BITS + 1
      invariant forall b :: 0 <= b < bits ==> blCount[b] == 0
    {
      blCount[bits] := 0;
    }
  }

  lemma BuiltSize(h: seq<nat>, heapMax: nat, freq: seq<nat>, dl: seq<nat>, elems: nat, merges: seq<Merge>)
    requires Built(h, heapMax, freq, dl, elems, merges)
    ensures elems <= |freq| && elems + |merges| <= |dl| == |freq| && merges != [] && heapMax + 1 + 2 * |merges| == HEAP_SIZE == |h|
    ensures Tree(Used(freq, elems), elems, merges) && Fathers(dl, elems, merges)
    ensures h[heapMax..] == [Root(elems, merges)] + Listed(merges)
  {}

  lemma EntryIs(h: seq<nat>, heapMax: nat, elems: nat, merges: seq<Merge>, q: nat)
    requires |h| == HEAP_SIZE && heapMax + 1 + 2 * |merges| == HEAP_SIZE && merges != []
    requires h[heapMax..] == [Root(elems, merges)] + Listed(merges) && q < 2 * |merges|
    ensures h[heapMax + 1 + q] == NodeAt(merges, q)
  {
    ListedAt(merges, q);
    assert h[heapMax + 1 + q] == h[heapMax..][q + 1];
  }

  lemma ListedUse(leaves: set<nat>, elems: nat, merges: seq<Merge>, q: nat)
    requires Tree(leaves, elems, merges) && q < 2 * |merges|
    ensures NodeAt(merges, q) < elems ==> NodeAt(merges, q) in leaves
  {
    ListedSymbol(leaves, elems, merges, q);
  }

  // ----- the repair -----

  /** The Kraft sum of the statistics of the lengths up to n, in units of 2^-max. */
  function BlKraft(bl: seq<nat>, max: nat, n: nat): nat
    requires n < |bl| && n <= max
  {
    if n == 0 then 0 else BlKraft(bl, max, n - 1) + Shl(bl[n], max - n)
  }

  lemma {:induction false} BlKraftUpdate(bl: seq<nat>, max: nat, n: nat, b: nat, x: nat)
    requires n < |bl| && n <= max && 1 <= b < |bl| && b <= max
    ensures BlKraft(bl[b := x], max, n) + (if b <= n then Shl(bl[b], max - b) else 0) ==
            BlKraft(bl, max, n) + (if b <= n then Shl(x, max - b) else 0)
  {
    if n > 0 {
      BlKraftUpdate(bl, max, n - 1, b, x);
    }
  }

  /** With every code as long as allowed, the Kraft sum is the number of codes. */
  lemma {:induction false} OnlyMax(bl: seq<nat>, max: nat, n: nat)
    requires n < |bl| && n < max && forall b :: 1 <= b <= n ==> bl[b] == 0
    ensures BlKraft(bl, max, n) == 0 && BlSum(bl, n) == 0
  {
    if n > 0 {
      OnlyMax(bl, max, n - 1);
      ShlZero(max - n);
    }
  }

  /** What the repair loop keeps: half the overflow is the Kraft excess, and enough codes are as long as allowed. */
  ghost predicate Repairing(bl: seq<nat>, max: nat, excess: nat, total: nat) {
    && |bl| == MAX_BITS + 1 && 1 <= max <= MAX_BITS && bl[0] == 0
    && BlKraft(bl, max, max) == Pow2(max) + excess
    && BlSum(bl, max) == total && total <= Pow2(max)
    && excess <= bl[max] && forall b :: max < b <= MAX_BITS ==> bl[b] == 0
  }

  /** While there is an excess some code is shorter than allowed: the search stops above 0. */
  lemma SomeShorter(bl: seq<nat>, max: nat, excess: nat, total: nat)
    requires Repairing(bl, max, excess, total) && excess > 0
    ensures max >= 2 && exists b :: 1 <= b < max && bl[b] > 0
  {
    if forall b :: 1 <= b < max ==> bl[b] == 0 {
      AllAtMax(bl, max);
    }
  }

  lemma AllAtMax(bl: seq<nat>, max: nat)
    requires 1 <= max < |bl| && forall b :: 1 <= b < max ==> bl[b] == 0
    ensures BlKraft(bl, max, max) == bl[max] == BlSum(bl, max)
  {
    OnlyMax(bl, max, max - 1);
    assert Shl(bl[max], 0) == bl[max];
  }

  /** One repair: a leaf moves down, an overflowing one becomes its brother. */
  function Repaired(bl: seq<nat>, max: nat, bits: nat): (r: seq<nat>)
    requires |bl| == MAX_BITS + 1 && 1 <= bits < max <= MAX_BITS && bl[bits] > 0 && bl[max] > 0
    ensures |r| == |bl|
  {
    var b1: seq<nat> := bl[bits := bl[bits] - 1];
    var b2: seq<nat> := b1[bits + 1 := b1[bits + 1] + 2];
    b2[max := b2[max] - 1]
  }

  /** Each repair removes one unit of excess and keeps the number of codes. */
  lemma RepairStep(bl: seq<nat>, max: nat, excess: nat, total: nat, bits: nat)
    requires Repairing(bl, max, excess, total) && excess > 0 && 1 <= bits < max && bl[bits] > 0
    ensures Repairing(Repaired(bl, max, bits), max, excess - 1, total)
  {
    hide BlKraft, BlSum, Shl;
    var b1: seq<nat> := bl[bits := bl[bits] - 1];
    var b2: seq<nat> := b1[bits + 1 := b1[bits + 1] + 2];
    var b3: seq<nat> := b2[max := b2[max] - 1];
    BlKraftUpdate(bl, max, max, bits, bl[bits] - 1);
    BlKraftUpdate(b1, max, max, bits + 1, b1[bits + 1] + 2);
    BlKraftUpdate(b2, max, max, max, b2[max] - 1);
    BlSumUpdate(bl, max, bits, bl[bits] - 1);
    BlSumUpdate(b1, max, bits + 1, b1[bits + 1] + 2);
    BlSumUpdate(b2, max, max, b2[max] - 1);
    ShlAdd(bl[bits] - 1, 1, max - bits);
    ShlAdd(b1[bits + 1], 2, max - (bits + 1));
    ShlAdd(b2[max] - 1, 1, max - max);
    TwoHalves(max - (bits + 1));
  }

  lemma TwoHalves(k: nat)
    ensures Shl(2, k) == Pow2(k + 1) && Pow2(0) == 1
  {
    ShlShl(1, 1, k);
    assert Shl(1, 1) == 2;
  }

  /** The second loop of gen_bitlen. */
  method Repair(blCount: array<nat>, max: nat, overflow: nat, ghost total: nat)
    requires blCount.Length == MAX_BITS + 1 && overflow > 0 && overflow % 2 == 0
    requires Repairing(blCount[..], max, overflow / 2, total)
    modifies blCount
    ensures Repairing(blCount[..], max, 0, total)
  {
    hide BlKraft, BlSum, Shl;
    var over: int := overflow;
    while true
      invariant over > 0 && over % 2 == 0 && Repairing(blCount[..], max, over / 2, total)
      decreases over
    {
      SomeShorter(blCount[..], max, over / 2, total);
      var bits := max - 1;
      while blCount[bits] == 0
        invariant 1 <= bits < max && exists b :: 1 <= b <= bits && blCount[b] > 0
        decreases bits
      {
        bits := bits - 1;
      }
      ghost var bl: seq<nat> := blCount[..];
      RepairStep(bl, max, over / 2, total, bits);
      blCount[bits] := blCount[bits] - 1;
      blCount[bits + 1] := blCount[bits + 1] + 2;
      blCount[max] := blCount[max] - 1;
      assert blCount[..] == Repaired(bl, max, bits);
      over := over - 2;
      if over <= 0 { break; }
    }
  }

  // ----- the third pass: lengths again, by increasing frequency -----

  /**
    The list is done from j up: `todo` says how many codes of each length are still to be given,
    and `given` holds the lengths given so far.
   */
  ghost predicate Assigning(dl: seq<nat>, given: seq<nat>, bl: seq<nat>, todo: seq<nat>, leaves: set<nat>, d: Desc, merges: seq<Merge>, j: nat)
    requires j <= 2 * |merges|
  {
    && ValidDesc(d) && |bl| == |todo| == MAX_BITS + 1 && |given| == d.codes <= |dl|
    && BlSum(todo, MAX_BITS) == LeavesTo(merges, d.codes, j)
    && (forall b {:trigger todo[b]} :: 1 <= b <= MAX_BITS ==> Count(given, b) + todo[b] == bl[b])
    && (forall p {:trigger NodeAt(merges, p)} :: 0 <= p < 2 * |merges| && NodeAt(merges, p) < d.codes ==>
          given[NodeAt(merges, p)] == if p < j then 0 else dl[NodeAt(merges, p)])
    && d.elems <= |dl| && (forall x: nat :: x < d.codes && x !in leaves ==> given[x] == 0)
    && (forall x: nat :: x < d.elems && x !in leaves ==> dl[x] == 0)
    && (forall x: nat :: x in leaves ==> x < d.codes && 1 <= dl[x] <= d.max)
  }

  /** Passing over an inner node. */
  lemma AssignSkip(dl: seq<nat>, given: seq<nat>, bl: seq<nat>, todo: seq<nat>, leaves: set<nat>, d: Desc, merges: seq<Merge>, j: nat)
    requires 0 < j <= 2 * |merges| && Assigning(dl, given, bl, todo, leaves, d, merges, j)
    requires NodeAt(merges, j - 1) >= d.codes
    ensures Assigning(dl, given, bl, todo, leaves, d, merges, j - 1)
  {
    hide NodeAt, BlSum, Count, ValidDesc;
  }

  /** Giving a leaf its length. */
  lemma AssignLeaf(dl: seq<nat>, given: seq<nat>, bl: seq<nat>, todo: seq<nat>, leaves: set<nat>, d: Desc, merges: seq<Merge>, j: nat, bits: nat)
    requires 0 < j <= 2 * |merges| && Assigning(dl, given, bl, todo, leaves, d, merges, j) && Tree(leaves, d.elems, merges)
    requires NodeAt(merges, j - 1) < d.codes && 1 <= bits <= d.max && todo[bits] > 0
    ensures var m := NodeAt(merges, j - 1);
            Assigning(dl[m := bits], given[m := bits], bl, todo[bits := todo[bits] - 1], leaves, d, merges, j - 1)
  {
    hide NodeAt, BlSum, Count, Tree;
    var m := NodeAt(merges, j - 1);
    ListedUse(leaves, d.elems, merges, j - 1);
    BlSumUpdate(todo, MAX_BITS, bits, todo[bits] - 1);
    AssignPlaces(dl, given, leaves, d, merges, j, bits);
    var rest: seq<nat> := todo[bits := todo[bits] - 1];
    forall b {:trigger rest[b]} | 1 <= b <= MAX_BITS ensures Count(given[m := bits], b) + rest[b] == bl[b] {
      CountUpdate(given, m, bits, b);
    }
  }

  lemma AssignPlaces(dl: seq<nat>, given: seq<nat>, leaves: set<nat>, d: Desc, merges: seq<Merge>, j: nat, bits: nat)
    requires 0 < j <= 2 * |merges| && Tree(leaves, d.elems, merges) && |given| == d.codes <= |dl|
    requires NodeAt(merges, j - 1) < d.codes
    requires forall p {:trigger NodeAt(merges, p)} :: 0 <= p < 2 * |merges| && NodeAt(merges, p) < d.codes ==>
               given[NodeAt(merges, p)] == if p < j then 0 else dl[NodeAt(merges, p)]
    ensures var m := NodeAt(merges, j - 1);
            forall p {:trigger NodeAt(merges, p)} :: 0 <= p < 2 * |merges| && NodeAt(merges, p) < d.codes ==>
              given[m := bits][NodeAt(merges, p)] == if p < j - 1 then 0 else dl[m := bits][NodeAt(merges, p)]
  {
    hide NodeAt, Merging;
    var m := NodeAt(merges, j - 1);
    forall p {:trigger NodeAt(merges, p)} | 0 <= p < 2 * |merges| && NodeAt(merges, p) < d.codes
      ensures given[m := bits][NodeAt(merges, p)] == if p < j - 1 then 0 else dl[m := bits][NodeAt(merges, p)]
    {
      if p < j - 1 { SonsDiffer(leaves, d.elems, merges, p, j - 1); }
      if j - 1 < p { SonsDiffer(leaves, d.elems, merges, j - 1, p); }
    }
  }

  lemma {:induction false} SomeLeaf(merges: seq<Merge>, codes: nat, bl: seq<nat>, j: nat, b: nat)
    requires j <= 2 * |merges| && |bl| == MAX_BITS + 1 && BlSum(bl, MAX_BITS) == LeavesTo(merges, codes, j)
    requires 1 <= b <= MAX_BITS && bl[b] > 0
    ensures j > 0
  {
    BlSumUpdate(bl, MAX_BITS, b, 0);
  }

  lemma {:induction false} NoLeaves(merges: seq<Merge>, codes: nat, j: nat, p: nat)
    requires p < j <= 2 * |merges| && LeavesTo(merges, codes, j) == 0
    ensures NodeAt(merges, p) >= codes
  {
    if p < j - 1 {
      NoLeaves(merges, codes, j - 1, p);
    }
  }

  /** When nothing is left to give, every leaf has been given its length. */
  lemma AssignEnd(dl: seq<nat>, given: seq<nat>, bl: seq<nat>, todo: seq<nat>, leaves: set<nat>, d: Desc, merges: seq<Merge>, j: nat)
    requires j <= 2 * |merges| && Assigning(dl, given, bl, todo, leaves, d, merges, j) && Tree(leaves, d.elems, merges)
    requires (forall b :: 1 <= b <= MAX_BITS ==> todo[b] == 0) && bl[0] == 0
    ensures given == dl[..d.codes] && Tallied(bl, dl, d.codes)
  {
    hide NodeAt, Count, Tree;
    BlSumZero(todo, MAX_BITS);
    forall x: nat | x < d.codes ensures given[x] == dl[x] {
      if x in leaves {
        var p := LeafPlace(leaves, d.elems, merges, x);
        if p < j {
          NoLeaves(merges, d.codes, j, p);
        }
      }
    }
    assert given == dl[..d.codes];
    forall b {:trigger bl[b]} | 1 <= b <= MAX_BITS ensures bl[b] == Count(dl[..d.codes], b) {
      assert todo[b] == 0;
    }
  }

  lemma {:induction false} BlSumZero(bl: seq<nat>, n: nat)
    requires n < |bl| && forall b :: 1 <= b <= n ==> bl[b] == 0
    ensures BlSum(bl, n) == 0
  {
    if n > 0 {
      BlSumZero(bl, n - 1);
    }
  }

  /** Before the pass nothing has been given. */
  lemma AssignStart(dl: seq<nat>, bl: seq<nat>, leaves: set<nat>, d: Desc, merges: seq<Merge>)
    requires ValidDesc(d) && |bl| == MAX_BITS + 1 && d.elems <= |dl|
    requires BlSum(bl, MAX_BITS) == LeavesTo(merges, d.codes, 2 * |merges|)
    requires forall x: nat :: x < d.elems && x !in leaves ==> dl[x] == 0
    requires forall x: nat :: x in leaves ==> x < d.codes && 1 <= dl[x] <= d.max
    ensures Assigning(dl, Rep(0, d.codes), bl, bl, leaves, d, merges, 2 * |merges|)
  {
    hide Count, NodeAt, BlSum;
    var given: seq<nat> := Rep(0, d.codes);
    forall b | 1 <= b <= MAX_BITS ensures Count(given, b) == 0 {
      CountNone(given, b);
    }
  }

  lemma TimesDiff(f: nat, a: nat, b: nat)
    ensures (a - b) * f == Times(f, a) - Times(f, b)
  {
    hide Times;
    TimesIs(f, a);
    TimesIs(f, b);
  }

  /** The body of the innermost loop: give leaf m the length bits. */
  method Assign(fc: array<nat>, dl: array<nat>, d: Desc, m: nat, bits: nat, optLen: int) returns (opt: int)
    requires fc != dl && fc.Length == dl.Length && ValidDesc(d) && m < d.codes <= dl.Length
    requires 1 <= dl[m] <= d.max && 1 <= bits <= d.max
    modifies dl
    ensures dl[..] == old(dl[..])[m := bits]
    ensures opt - optLen == Price(fc[..], dl[..], d) - old(Price(fc[..], dl[..], d))
    ensures StaticPrice(fc[..], dl[..], d) == old(StaticPrice(fc[..], dl[..], d))
  {
    hide PriceTo, Times, XBits, Pow2;
    opt := optLen;
    PriceUpdate(fc[..], dl[..], d.extra, d.base, d.codes, m, bits);
    if d.stree != [] {
      StaticUpdate(fc[..], dl[..], d.stree, d.extra, d.base, d.codes, m, bits);
    }
    ghost var x := XBits(d.extra, d.base, m);
    TimesDiff(fc[m], bits + x, dl[m] + x);
    ghost var g: seq<nat> := dl[..];
    if dl[m] != bits {
      opt := opt + (bits - dl[m]) * fc[m];
      dl[m] := bits;
    }
    assert dl[..] == g[m := bits];
  }

  /** The lengths of the leaves are in range, and other symbols have none. */
  ghost predicate Ranged(dl: seq<nat>, leaves: set<nat>, d: Desc) {
    d.codes <= d.elems <= |dl| &&
    (forall x: nat :: x < d.elems && x !in leaves ==> dl[x] == 0) &&
    (forall x: nat :: x in leaves ==> x < d.codes && 1 <= dl[x] <= d.max)
  }

  lemma AssigningRanged(dl: seq<nat>, given: seq<nat>, bl: seq<nat>, todo: seq<nat>, leaves: set<nat>, d: Desc, merges: seq<Merge>, j: nat)
    requires j <= 2 * |merges| && Assigning(dl, given, bl, todo, leaves, d, merges, j)
    ensures ValidDesc(d) && Ranged(dl, leaves, d) && |todo| == MAX_BITS + 1 && |given| == d.codes
    ensures BlSum(todo, MAX_BITS) == LeavesTo(merges, d.codes, j)
  {}

  /** From entry j of the list on, the lengths grow, and none is below bits. */
  ghost predicate Growing(dl: seq<nat>, merges: seq<Merge>, codes: nat, j: nat, bits: nat) {
    && codes <= |dl|
    && (forall q {:trigger NodeAt(merges, q)} :: j <= q < 2 * |merges| && NodeAt(merges, q) < codes ==> bits <= dl[NodeAt(merges, q)])
    && (forall p, q {:trigger NodeAt(merges, p), NodeAt(merges, q)} ::
          j <= p < q < 2 * |merges| && NodeAt(merges, p) < codes && NodeAt(merges, q) < codes ==>
            dl[NodeAt(merges, p)] <= dl[NodeAt(merges, q)])
  }

  lemma GrowingMore(dl: seq<nat>, merges: seq<Merge>, codes: nat, j: nat, bits: nat, leaves: set<nat>, elems: nat)
    requires Growing(dl, merges, codes, j, bits) && 0 < j <= 2 * |merges| && Tree(leaves, elems, merges)
    ensures var m := NodeAt(merges, j - 1);
            if m < codes then Growing(dl[m := bits], merges, codes, j - 1, bits) else Growing(dl, merges, codes, j - 1, bits)
  {
    hide NodeAt, Merging;
    forall q | j <= q < 2 * |merges| ensures NodeAt(merges, q) != NodeAt(merges, j - 1) {
      SonsDiffer(leaves, elems, merges, j - 1, q);
    }
  }

  lemma GrowingLess(dl: seq<nat>, merges: seq<Merge>, codes: nat, j: nat, bits: nat)
    requires Growing(dl, merges, codes, j, bits) && bits > 0
    ensures Growing(dl, merges, codes, j, bits - 1)
  {}

  lemma GrowingStart(dl: seq<nat>, merges: seq<Merge>, codes: nat, bits: nat)
    requires codes <= |dl|
    ensures Growing(dl, merges, codes, 2 * |merges|, bits)
  {}

  /** When nothing is left to give, all of the list has been gone through. */
  lemma GrowingEnd(dl: seq<nat>, todo: seq<nat>, merges: seq<Merge>, codes: nat, j: nat, bits: nat)
    requires Growing(dl, merges, codes, j, bits) && j <= 2 * |merges| && |todo| == MAX_BITS + 1
    requires BlSum(todo, MAX_BITS) == LeavesTo(merges, codes, j) && forall b :: 1 <= b <= MAX_BITS ==> todo[b] == 0
    ensures Growing(dl, merges, codes, 0, 0)
  {
    hide NodeAt;
    BlSumZero(todo, MAX_BITS);
    forall q: nat | q < j ensures NodeAt(merges, q) >= codes {
      NoLeaves(merges, codes, j, q);
    }
  }

  /** Lengths that grow along the list are fair, as frequencies fall along it. */
  lemma GrowingFair(dl: seq<nat>, leaves: set<nat>, elems: nat, merges: seq<Merge>, freq: seq<nat>, codes: nat)
    requires Growing(dl, merges, codes, 0, 0) && Tree(leaves, elems, merges) && Adds(elems, merges, freq) && Greedy(leaves, elems, merges, freq)
    requires forall x :: x in leaves ==> x < codes
    ensures Fair(leaves, freq, dl)
  {
    hide NodeAt, Merging, Adds, Greedy;
    forall x, y | x in leaves && y in leaves && x < |freq| && y < |freq| && x < |dl| && y < |dl| && freq[x] < freq[y]
      ensures dl[y] <= dl[x]
    {
      var p := LeafPlace(leaves, elems, merges, x);
      var q := LeafPlace(leaves, elems, merges, y);
      if p < q {
        InFrequencyOrder(leaves, elems, merges, freq, p, q);
      }
    }
  }

  /** The third loop of gen_bitlen: lengths in the order of frequency, the longest for the least frequent. */
  method Reassign(heap: array<nat>, heapMax: nat, fc: array<nat>, dl: array<nat>, d: Desc, blCount: array<nat>, optLen: int,
                  ghost leaves: set<nat>, ghost merges: seq<Merge>)
    returns (opt: int)
    requires heap != dl && fc != dl && blCount != dl && blCount.Length == MAX_BITS + 1 && blCount[0] == 0
    requires ValidDesc(d) && Tree(leaves, d.elems, merges) && Ranged(dl[..], leaves, d) && fc.Length == dl.Length
    requires heap.Length == HEAP_SIZE && heapMax + 1 + 2 * |merges| == HEAP_SIZE
    requires heap[heapMax..] == [Root(d.elems, merges)] + Listed(merges)
    requires BlSum(blCount[..], MAX_BITS) == LeavesTo(merges, d.codes, 2 * |merges|)
    requires forall b :: d.max < b <= MAX_BITS ==> blCount[b] == 0
    modifies dl
    ensures Ranged(dl[..], leaves, d) && Tallied(blCount[..], dl[..], d.codes)
    ensures opt - optLen == Price(fc[..], dl[..], d) - old(Price(fc[..], dl[..], d))
    ensures StaticPrice(fc[..], dl[..], d) == old(StaticPrice(fc[..], dl[..], d))
    ensures Growing(dl[..], merges, d.codes, 0, 0)
  {
    hide Tree, Assigning, PriceTo, NodeAt, BlSum, LeavesTo, Listed, Root, StaticPrice, Price, Ranged, ValidDesc, Tallied, Growing;
    opt := optLen;
    var h := HEAP_SIZE;
    ghost var given: seq<nat>, todo: seq<nat> := Rep(0, d.codes), blCount[..];
    DescIs(d, dl[..], leaves);
    AssignStart(dl[..], blCount[..], leaves, d, merges);
    GrowingStart(dl[..], merges, d.codes, d.max);
    var bits := d.max;
    while bits != 0
      invariant 0 <= bits <= d.max && heapMax < h <= HEAP_SIZE && |todo| == MAX_BITS + 1
      invariant Assigning(dl[..], given, blCount[..], todo, leaves, d, merges, h - heapMax - 1)
      invariant Growing(dl[..], merges, d.codes, h - heapMax - 1, bits)
      invariant forall b :: 1 <= b <= MAX_BITS ==> todo[b] == if b <= bits then blCount[b] else 0
      invariant opt - optLen == Price(fc[..], dl[..], d) - old(Price(fc[..], dl[..], d))
      invariant StaticPrice(fc[..], dl[..], d) == old(StaticPrice(fc[..], dl[..], d))
    {
      var n := blCount[bits];
      while n != 0
        invariant heapMax < h <= HEAP_SIZE && |todo| == MAX_BITS + 1
        invariant Assigning(dl[..], given, blCount[..], todo, leaves, d, merges, h - heapMax - 1)
        invariant Growing(dl[..], merges, d.codes, h - heapMax - 1, bits)
        invariant forall b :: 1 <= b <= MAX_BITS ==> todo[b] == if b < bits then blCount[b] else if b == bits then n else 0
        invariant opt - optLen == Price(fc[..], dl[..], d) - old(Price(fc[..], dl[..], d))
        invariant StaticPrice(fc[..], dl[..], d) == old(StaticPrice(fc[..], dl[..], d))
        decreases h
      {
        ghost var j: nat := h - heapMax - 1;
        AssigningRanged(dl[..], given, blCount[..], todo, leaves, d, merges, j);
        SomeLeaf(merges, d.codes, todo, j, bits);
        EntryIs(heap[..], heapMax, d.elems, merges, j - 1);
        GrowingMore(dl[..], merges, d.codes, j, bits, leaves, d.elems);
        h := h - 1;
        var m := heap[h];
        if m >= d.codes {
          AssignSkip(dl[..], given, blCount[..], todo, leaves, d, merges, j);
          continue;
        }
        AssignLeaf(dl[..], given, blCount[..], todo, leaves, d, merges, j, bits);
        LeafLength(dl[..], leaves, d, merges, j - 1);
        opt := Assign(fc, dl, d, m, bits, opt);
        given, todo := given[m := bits], todo[bits := todo[bits] - 1];
        n := n - 1;
      }
      GrowingLess(dl[..], merges, d.codes, h - heapMax - 1, bits);
      bits := bits - 1;
    }
    AssigningRanged(dl[..], given, blCount[..], todo, leaves, d, merges, h - heapMax - 1);
    AssignEnd(dl[..], given, blCount[..], todo, leaves, d, merges, h - heapMax - 1);
    GrowingEnd(dl[..], todo, merges, d.codes, h - heapMax - 1, bits);
  }

  lemma DescIs(d: Desc, dl: seq<nat>, leaves: set<nat>)
    requires ValidDesc(d) && Ranged(dl, leaves, d)
    ensures 1 <= d.max <= MAX_BITS && d.codes <= d.elems <= |dl|
    ensures forall x: nat :: x < d.elems && x !in leaves ==> dl[x] == 0
    ensures forall x: nat :: x in leaves ==> x < d.codes && 1 <= dl[x] <= d.max
  {}

  lemma LeafLength(dl: seq<nat>, leaves: set<nat>, d: Desc, merges: seq<Merge>, q: nat)
    requires ValidDesc(d) && Ranged(dl, leaves, d) && Tree(leaves, d.elems, merges) && q < 2 * |merges| && NodeAt(merges, q) < d.codes
    ensures d.codes <= |dl| && 1 <= dl[NodeAt(merges, q)] <= d.max
  {
    ListedUse(leaves, d.elems, merges, q);
  }

  // ----- the whole of gen_bitlen -----

  /** The statistics of a length vector. */
  function CountSeq(s: seq<nat>, n: nat): (r: seq<nat>)
    ensures |r| == n + 1 && r[0] == 0 && forall b {:trigger r[b]} :: 1 <= b <= n ==> r[b] == Count(s, b)
  {
    if n == 0 then [0] else CountSeq(s, n - 1) + [Count(s, n)]
  }

  lemma CountSeqPush(s: seq<nat>, x: nat, n: nat)
    ensures CountSeq(s + [x], n) ==
            if 1 <= x <= n then CountSeq(s, n)[x := CountSeq(s, n)[x] + 1] else CountSeq(s, n)
  {
    hide CountSeq;
    var t := s + [x];
    var a, b := CountSeq(s, n), CountSeq(t, n);
    forall i | 1 <= i <= n ensures b[i] == a[i] + if x == i then 1 else 0 {
      assert t[..|t| - 1] == s;
      assert Count(t, i) == Count(s, i) + if x == i then 1 else 0;
    }
  }

  /** The Kraft sum over the leaves is that of the statistics, and so is the number of longest codes. */
  lemma {:induction false} KraftCounts(leaves: set<nat>, dl: seq<nat>, codes: nat, max: nat, j: nat)
    requires j <= codes <= |dl| && 1 <= max <= MAX_BITS
    requires forall x: nat :: x < codes ==> if x in leaves then 1 <= dl[x] <= max else dl[x] == 0
    ensures SumTo(leaves, Weights(dl, max), j) == BlKraft(CountSeq(dl[..j], MAX_BITS), max, max)
    ensures SumTo(leaves, AtMax(dl, max), j) == Count(dl[..j], max)
  {
    hide CountSeq, Shl;
    if j == 0 {
      BlKraftNone(CountSeq(dl[..0], MAX_BITS), max, max);
    } else {
      KraftCounts(leaves, dl, codes, max, j - 1);
      assert dl[..j] == dl[..j - 1] + [dl[j - 1]];
      CountSeqPush(dl[..j - 1], dl[j - 1], MAX_BITS);
      if j - 1 in leaves {
        var l, bl := dl[j - 1], CountSeq(dl[..j - 1], MAX_BITS);
        BlKraftUpdate(bl, max, max, l, bl[l] + 1);
        ShlAdd(bl[l], 1, max - l);
      }
    }
  }

  lemma {:induction false} BlKraftNone(bl: seq<nat>, max: nat, n: nat)
    requires n < |bl| && n <= max && forall b :: 1 <= b <= n ==> bl[b] == 0
    ensures BlKraft(bl, max, n) == 0
  {
    if n > 0 {
      BlKraftNone(bl, max, n - 1);
      ShlZero(max - n);
    }
  }

  lemma {:induction false} SumToAbove(a: set<nat>, v: seq<nat>, m: nat, n: nat)
    requires m <= n <= |v| && forall x :: x in a ==> x < m
    ensures SumTo(a, v, n) == SumTo(a, v, m)
    decreases n
  {
    if m < n {
      SumToAbove(a, v, m, n - 1);
    }
  }

  lemma {:induction false} BlSumOff(s: seq<nat>, bl: seq<nat>, n: nat)
    requires n < |bl| && forall b {:trigger bl[b]} :: 1 <= b <= n ==> bl[b] == Count(s, b)
    ensures BlSum(bl, n) == Off(s, n + 1)
  {
    if n > 0 {
      BlSumOff(s, bl, n - 1);
    }
  }

  lemma {:induction false} BlSumAbove(bl: seq<nat>, m: nat, n: nat)
    requires m <= n < |bl| && forall b :: m < b <= n ==> bl[b] == 0
    ensures BlSum(bl, n) == BlSum(bl, m)
    decreases n
  {
    if m < n {
      BlSumAbove(bl, m, n - 1);
    }
  }

  /** After the first pass, what is over the limit is exactly what the repair takes back. */
  lemma PassRepairing(leaves: set<nat>, dl: seq<nat>, bl: seq<nat>, d: Desc, merges: seq<Merge>, overflow: nat)
    requires ValidDesc(d) && Tree(leaves, d.elems, merges) && Ranged(dl, leaves, d)
    requires Pass(dl, d.elems, merges, d.max, 2 * |merges|) && overflow == OverTo(dl, d.elems, merges, d.max, 2 * |merges|)
    requires Tallied(bl, dl, d.codes)
    ensures overflow == 2 * Excess(d.elems, merges, dl, d.max, 0)
    ensures Repairing(bl, d.max, overflow / 2, BlSum(bl, MAX_BITS))
  {
    hide Pass, OverTo, Merging, Count, CountSeq, Pow2, BlKraft, BlSum, Weights, AtMax, Frontier;
    PassDepths(leaves, dl, d.elems, merges, d.max);
    OverIsExcess(dl, d.elems, merges, d.max, 0);
    KraftExcess(leaves, d.elems, merges, dl, d.max, 0);
    assert merges[..0] == [];
    FirstFrontier(leaves, d.elems);
    KraftCounts(leaves, dl, d.codes, d.max, d.codes);
    assert bl == CountSeq(dl[..d.codes], MAX_BITS);
    SumToAbove(leaves, Weights(dl, d.max), d.codes, |dl|);
    SumToAbove(leaves, AtMax(dl, d.max), d.codes, |dl|);
    AboveMax(leaves, dl, bl, d);
    BlSumAbove(bl, d.max, MAX_BITS);
    BlSumOff(dl[..d.codes], bl, MAX_BITS);
    OffTotal(dl[..d.codes], MAX_BITS + 1);
  }

  lemma AboveMax(leaves: set<nat>, dl: seq<nat>, bl: seq<nat>, d: Desc)
    requires ValidDesc(d) && Ranged(dl, leaves, d) && Tallied(bl, dl, d.codes)
    ensures forall b :: d.max < b <= MAX_BITS ==> bl[b] == 0
  {
    forall b | d.max < b <= MAX_BITS ensures bl[b] == 0 {
      CountNone(dl[..d.codes], b);
    }
  }

  lemma LeavesKraft(dl: seq<nat>, bl: seq<nat>, leaves: set<nat>, d: Desc)
    requires ValidDesc(d) && Ranged(dl, leaves, d) && Tallied(bl, dl, d.codes)
    ensures Kraft(leaves, dl, d.max) == BlKraft(bl, d.max, d.max)
  {
    hide Count, BlKraft, Pow2, CountSeq, Weights;
    KraftCounts(leaves, dl, d.codes, d.max, d.codes);
    assert bl == CountSeq(dl[..d.codes], MAX_BITS);
    SumToAbove(leaves, Weights(dl, d.max), d.codes, |dl|);
  }

  /** A repaired code is complete. */
  lemma RepairedComplete(dl: seq<nat>, bl: seq<nat>, leaves: set<nat>, d: Desc, total: nat)
    requires ValidDesc(d) && Ranged(dl, leaves, d) && Tallied(bl, dl, d.codes) && Repairing(bl, d.max, 0, total)
    ensures Complete(dl[..d.codes]) && ValidLens(dl[..d.codes])
    ensures Kraft(leaves, dl, d.max) == Pow2(d.max)
  {
    hide Count, Base, BlKraft, BlSum, Shl;
    LeavesKraft(dl, bl, leaves, d);
    BaseKraft(dl[..d.codes], bl, d.max, d.max);
    ShlShl(1, d.max, MAX_BITS - d.max);
    forall b {:trigger Count(dl[..d.codes], b)} | d.max < b <= MAX_BITS ensures Count(dl[..d.codes], b) == 0 {
      assert bl[b] == 0;
    }
    BaseAbove(dl[..d.codes], d.max + 1, MAX_BITS + 1);
    forall i: nat | i < d.codes ensures dl[i] <= MAX_BITS {
      if i in leaves {}
    }
  }

  lemma {:induction false} BaseKraft(s: seq<nat>, bl: seq<nat>, max: nat, n: nat)
    requires n <= max <= MAX_BITS && n < |bl| && forall b {:trigger bl[b]} :: 1 <= b <= n ==> bl[b] == Count(s, b)
    ensures Base(s, n + 1) == Shl(BlKraft(bl, max, n), MAX_BITS - max)
  {
    hide Count, Shl;
    if n == 0 {
      ShlZero(MAX_BITS - max);
    } else {
      BaseKraft(s, bl, max, n - 1);
      ShlShl(bl[n], max - n, MAX_BITS - max);
      ShlAdd(BlKraft(bl, max, n - 1), Shl(bl[n], max - n), MAX_BITS - max);
    }
  }

  lemma {:induction false} BaseAbove(s: seq<nat>, m: nat, n: nat)
    requires 1 <= m <= n <= MAX_BITS + 1
    requires forall b {:trigger Count(s, b)} :: m <= b < n ==> Count(s, b) == 0
    ensures Base(s, n) == Base(s, m)
    decreases n
  {
    hide Count;
    if m < n {
      BaseAbove(s, m, n - 1);
      ShlZero(MAX_BITS - (n - 1));
    }
  }

  lemma BuiltGreedy(h: seq<nat>, heapMax: nat, freq: seq<nat>, dl: seq<nat>, elems: nat, merges: seq<Merge>)
    requires Built(h, heapMax, freq, dl, elems, merges)
    ensures Tree(Used(freq, elems), elems, merges) && Adds(elems, merges, freq) && Greedy(Used(freq, elems), elems, merges, freq)
  {
    hide Used, Adds, Greedy, Tree;
  }

  /**
    gen_bitlen: the lengths of the codes. They are those of a complete code within the limit, and
    opt_len and static_len grow by their exact cost; without overflow they are the depths in the tree.
   */
  method GenBitlen(heap: array<nat>, heapMax: nat, fc: array<nat>, dl: array<nat>, d: Desc, blCount: array<nat>,
                   optLen: int, staticLen: int, ghost merges: seq<Merge>)
    returns (opt: int, stat: int, ghost overflow: nat)
    requires heap != dl && fc != dl && blCount != dl && heap != blCount && fc != blCount && blCount.Length == MAX_BITS + 1
    requires ValidDesc(d) && Built(heap[..], heapMax, fc[..], dl[..], d.elems, merges)
    requires forall x :: x in Used(fc[..], d.elems) ==> x < d.codes
    requires forall i :: 0 <= i < d.elems && i !in Used(fc[..], d.elems) ==> dl[i] == 0
    modifies dl, blCount
    ensures d.elems <= fc.Length && Ranged(dl[..], Used(fc[..], d.elems), d) && Tallied(blCount[..], dl[..], d.codes)
    ensures Complete(dl[..d.codes]) && ValidLens(dl[..d.codes]) && Kraft(Used(fc[..], d.elems), dl[..], d.max) == Pow2(d.max)
    ensures opt == optLen + Price(fc[..], dl[..], d) && stat == staticLen + StaticPrice(fc[..], dl[..], d)
    ensures overflow == 0 ==> Depths(d.elems, merges, dl[..], d.max) && Excess(d.elems, merges, dl[..], d.max, 0) == 0
    ensures overflow == 0 ==> forall x :: d.elems <= x < d.elems + |merges| ==> dl[..][x] < d.max
    ensures overflow != 0 ==> Fair(Used(fc[..], d.elems), fc[..], dl[..])
  {
    hide Tree, Built, Tallied, Used, Ranged, Pass, OverTo, Price, StaticPrice, Depths, Repairing, LeavesTo, BlSum, Listed, Root, ValidDesc, Complete, ValidLens, Excess, Kraft, Fair, Growing;
    BuiltSize(heap[..], heapMax, fc[..], dl[..], d.elems, merges);
    ghost var leaves, h0, dl0 := Used(fc[..], d.elems), heap[..], dl[..];
    var over: nat;
    over, opt, stat := FirstPass(heap, heapMax, fc, dl, d, blCount, optLen, staticLen, merges);
    overflow := over;
    AfterPass(leaves, dl[..], blCount[..], fc[..], d, merges, over, opt - optLen, stat - staticLen);
    ghost var total := BlSum(blCount[..], MAX_BITS);
    if over == 0 {
      RepairedComplete(dl[..], blCount[..], leaves, d, total);
      return;
    }
    Repair(blCount, d.max, over, total);
    RepairedCounts(blCount[..], d.max, total);
    opt := Reassign(heap, heapMax, fc, dl, d, blCount, opt, leaves, merges);
    BuiltGreedy(h0, heapMax, fc[..], dl0, d.elems, merges);
    GrowingFair(dl[..], leaves, d.elems, merges, fc[..], d.codes);
    RepairedComplete(dl[..], blCount[..], leaves, d, total);
  }

  lemma AfterPass(leaves: set<nat>, dl: seq<nat>, bl: seq<nat>, freq: seq<nat>, d: Desc, merges: seq<Merge>, overflow: nat, opt: int, stat: int)
    requires Tree(leaves, d.elems, merges) && Progress(dl, bl, freq, d, merges, 2 * |merges|, overflow, opt, stat)
    requires forall x :: x in leaves ==> x < d.codes
    requires forall i :: 0 <= i < d.elems && i !in leaves ==> dl[i] == 0
    ensures Ranged(dl, leaves, d) && Tallied(bl, dl, d.codes)
    ensures |bl| == MAX_BITS + 1 && Repairing(bl, d.max, overflow / 2, BlSum(bl, MAX_BITS)) && overflow % 2 == 0
    ensures BlSum(bl, MAX_BITS) == LeavesTo(merges, d.codes, 2 * |merges|)
    ensures d.codes <= |freq| && opt == Price(freq, dl, d) && stat == StaticPrice(freq, dl, d)
    ensures d.elems + |merges| <= |dl|
    ensures overflow == 0 ==> Depths(d.elems, merges, dl, d.max) && Excess(d.elems, merges, dl, d.max, 0) == 0
    ensures overflow == 0 ==> forall x :: d.elems <= x < d.elems + |merges| ==> dl[x] < d.max
  {
    hide Price, StaticPrice, OverTo, LeavesTo, BlSum, BlKraft, Count, Pow2, Merging;
    PassDepths(leaves, dl, d.elems, merges, d.max);
    PassRepairing(leaves, dl, bl, d, merges, overflow);
    if overflow == 0 { NoExcess(d.elems, merges, dl, d.max, 0); }
  }

  /** Without overflow every inner node is above the limit. */
  lemma {:induction false} NoExcess(elems: nat, merges: seq<Merge>, lens: seq<nat>, max: nat, k: nat)
    requires k <= |merges| && elems + |merges| <= |lens| && Excess(elems, merges, lens, max, k) == 0
    requires forall x :: elems <= x < elems + |merges| ==> lens[x] <= max
    ensures forall x :: elems + k <= x < elems + |merges| ==> lens[x] < max
    decreases |merges| - k
  {
    if k < |merges| {
      NoExcess(elems, merges, lens, max, k + 1);
    }
  }

  lemma RepairedCounts(bl: seq<nat>, max: nat, total: nat)
    requires Repairing(bl, max, 0, total)
    ensures BlSum(bl, MAX_BITS) == total && bl[0] == 0 && forall b :: max < b <= MAX_BITS ==> bl[b] == 0
  {
    hide BlSum, BlKraft;
    BlSumAbove(bl, max, MAX_BITS);
  }
}
