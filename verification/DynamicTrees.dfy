/**
  The trees of a dynamic block: building the literal, distance and code length trees from the
  tallied frequencies (the first half of _tr_flush_block, and build_bl_tree).
 */
module DynamicTrees {
  import opened Bits
  import opened Canonical
  import opened Symbols
  import opened Reference
  import opened Runs
  import opened Heap
  import opened BitLengths
  import opened BuildCode
  import opened TokenCoding
  import opened RunCoding
  import opened TreeSending
  import opened Blocks
  import opened BlockDecoding
  import opened BlockCost
  import opened StaticTrees

  const MAX_BL_BITS: nat := 7

  function LitDesc(): Desc {
    Desc(L_CODES, 0, FixedLens(), ExtraLBits(), EXTRA_BASE, MAX_BITS)
  }

  function DistDesc(): Desc {
    Desc(D_CODES, 0, StaticDists(), ExtraDBits(), 0, MAX_BITS)
  }

  function BlDesc(): Desc {
    Desc(BL_CODES, 0, [], ExtraBlBits(), 0, MAX_BL_BITS)
  }

  lemma DescsValid()
    ensures ValidDesc(LitDesc()) && NoExtra(LitDesc())
    ensures ValidDesc(DistDesc()) && NoExtra(DistDesc())
    ensures ValidDesc(BlDesc()) && NoExtra(BlDesc())
  {
    hide FixedLens, StaticDists;
    Pow2Values();
    FixedSizes();
  }

  /** The price depends on the first n entries only. */
  lemma {:induction false} PriceFrame(freq: seq<nat>, g: seq<nat>, dl: seq<nat>, dl': seq<nat>, lens: seq<nat>, lens': seq<nat>,
                                      extra: seq<nat>, base: nat, n: nat)
    requires n <= |freq| && n <= |g| && n <= |dl| && n <= |dl'| && n <= |lens| && n <= |lens'|
    requires forall i :: 0 <= i < n ==> g[i] == freq[i] && dl'[i] == dl[i] && lens'[i] == lens[i]
    ensures PriceTo(g, dl', lens', extra, base, n) == PriceTo(freq, dl, lens, extra, base, n)
  {
    if n > 0 {
      PriceFrame(freq, g, dl, dl', lens, lens', extra, base, n - 1);
    }
  }

  lemma {:induction false} TotalFrame(freq: seq<nat>, g: seq<nat>, n: nat)
    requires n <= |freq| && n <= |g| && forall i :: 0 <= i < n ==> g[i] == freq[i]
    ensures FreqTotal(g, n) == FreqTotal(freq, n)
  {
    if n > 0 {
      TotalFrame(freq, g, n - 1);
    }
  }

  /** Arrays the size of the state's heap and depth, and bl_count. */
  method Scratch() returns (heap: array<nat>, depth: array<nat>, blCount: array<nat>)
    ensures fresh(heap) && fresh(depth) && fresh(blCount) && heap != depth && heap != blCount && depth != blCount
    ensures heap.Length == HEAP_SIZE && depth.Length == HEAP_SIZE && blCount.Length == MAX_BITS + 1
    ensures forall i :: 0 <= i < HEAP_SIZE ==> depth[i] < 256
  {
    heap, depth, blCount := new nat[HEAP_SIZE], new nat[HEAP_SIZE], new nat[MAX_BITS + 1];
    for i := 0 to HEAP_SIZE
      invariant forall j :: 0 <= j < i ==> depth[j] < 256
    {
      depth[i] := 0;
    }
  }

  /** What build_tree leaves: a code for every symbol counted, ready to be sent with. */
  ghost predicate CodeBuilt(fc: seq<nat>, dl: seq<nat>, freq: seq<nat>, lens: seq<nat>) {
    && TreeIs(fc, dl, lens) && Complete(lens) && |lens| <= |freq|
    && forall x: nat :: x < |freq| && freq[x] != 0 ==> HasCode(lens, x)
  }

  lemma CodeBuiltIs(fc: seq<nat>, dl: seq<nat>, was: seq<nat>, freq: seq<nat>, codes: nat)
    requires codes <= |dl| == |fc| && |freq| <= |was| && was[..|freq|] == freq
    requires Complete(dl[..codes]) && ValidLens(dl[..codes]) && CodesFor(was, dl[..codes], |freq|)
    requires forall n {:trigger fc[n]} :: 0 <= n < codes && dl[n] != 0 ==> fc[n] == Huff(dl[..codes], n)
    ensures CodeBuilt(fc, dl, freq, dl[..codes])
  {
    hide Huff, Base;
    forall x: nat | x < |freq| && freq[x] != 0 ensures HasCode(dl[..codes], x) {
      assert was[x] == freq[x];
    }
  }

  /** build_tree on one of the two trees that have static counterparts. */
  method BuildOne(heap: array<nat>, fc: array<nat>, depth: array<nat>, dl: array<nat>, d: Desc, blCount: array<nat>,
                  optLen: int, staticLen: int, ghost freq: seq<nat>)
    returns (maxCode: nat, opt: int, stat: int, ghost lens: seq<nat>)
    requires Arrays(heap, fc, depth, dl, d) && d.codes == 0
    requires blCount != heap && blCount != fc && blCount != depth && blCount != dl && blCount.Length == MAX_BITS + 1
    requires forall i :: 0 <= i < depth.Length ==> depth[i] < 256
    requires |freq| == d.elems && fc[..d.elems] == freq && FreqTotal(freq, d.elems) + 2 <= 0xffff
    modifies heap, fc, depth, dl, blCount
    ensures maxCode < d.elems && lens == dl[..maxCode + 1] && CodeBuilt(fc[..], dl[..], freq, lens)
    ensures forall i :: 0 <= i < |lens| ==> lens[i] <= d.max
    ensures forall i :: maxCode < i < d.elems ==> dl[i] == 0
    ensures opt == optLen + PriceTo(freq, lens, lens, d.extra, d.base, |lens|)
    ensures d.stree != [] ==> |lens| <= |d.stree| && stat == staticLen + PriceTo(freq, lens, d.stree, d.extra, d.base, |lens|)
    ensures forall i :: 0 <= i < depth.Length ==> depth[i] < 256
  {
    hide PriceTo, FreqTotal, CodesFor, Huff, Complete, ValidLens, XBits, CodeBuilt, Pow2, NoExtra, LeastTree;
    ghost var was: seq<nat> := fc[..];
    assert was[..d.elems] == freq;
    TotalFrame(freq, was, d.elems);
    ghost var overflow, weights, forced, merges;
    maxCode, opt, stat, overflow, weights, forced, merges := BuildTree(heap, fc, depth, dl, d, blCount, optLen, staticLen);
    lens := dl[..maxCode + 1];
    assert dl[..][..maxCode + 1] == lens;
    CodeBuiltIs(fc[..], dl[..], was, freq, maxCode + 1);
    PriceFrame(was, freq, dl[..], lens, dl[..], lens, d.extra, d.base, maxCode + 1);
    if d.stree != [] {
      PriceFrame(was, freq, dl[..], lens, d.stree, d.stree, d.extra, d.base, maxCode + 1);
    }
  }

  /** The literal and distance trees of a block, and its size under them and under the static ones. */
  method BuildBoth(lfc: array<nat>, ldl: array<nat>, dfc: array<nat>, ddl: array<nat>, ghost tokens: seq<Token>)
    returns (lmax: nat, dmax: nat, opt: int, stat: int, ghost ll: seq<nat>, ghost dl: seq<nat>)
    requires lfc != ldl && lfc != dfc && lfc != ddl && ldl != dfc && ldl != ddl && dfc != ddl
    requires lfc.Length == HEAP_SIZE && ldl.Length == HEAP_SIZE && dfc.Length == 2 * D_CODES + 1 && ddl.Length == 2 * D_CODES + 1
    requires ValidTokens(tokens) && |tokens| <= 0x8000
    requires lfc[..L_CODES] == LitFreqs(tokens) && dfc[..D_CODES] == DistFreqs(tokens)
    modifies lfc, ldl, dfc, ddl
    ensures lmax < L_CODES && dmax < D_CODES && ll == ldl[..lmax + 1] && dl == ddl[..dmax + 1]
    ensures CodeBuilt(lfc[..], ldl[..], LitFreqs(tokens), ll) && CodeBuilt(dfc[..], ddl[..], DistFreqs(tokens), dl)
    ensures opt == LitPrice(tokens, ll, ll) + DistPrice(tokens, dl, dl)
    ensures |ll| <= |FixedLens()| && stat == LitPrice(tokens, ll, FixedLens()) + DistPrice(tokens, dl, StaticDists())
  {
    hide PriceTo, FreqTotal, LitFreqs, DistFreqs, CodeBuilt, NoExtra, ValidDesc, FixedLens, StaticDists, ExtraLBits, ExtraDBits;
    DescsValid();
    FixedSizes();
    FreqTotals(tokens);
    var heap, depth, blCount := Scratch();
    lmax, opt, stat, ll := BuildOne(heap, lfc, depth, ldl, LitDesc(), blCount, 0, 0, LitFreqs(tokens));
    dmax, opt, stat, dl := BuildOne(heap, dfc, depth, ddl, DistDesc(), blCount, opt, stat, DistFreqs(tokens));
  }

  // ----- the code length code -----

  lemma {:induction false} CountPad(lens: seq<nat>, k: nat, l: nat)
    requires l > 0
    ensures Count(lens + Rep<nat>(0, k), l) == Count(lens, l)
  {
    CountConcat(lens, Rep<nat>(0, k), l);
    CountRep(0, k, l);
  }

  lemma {:induction false} BasePad(lens: seq<nat>, k: nat, l: nat)
    requires l <= MAX_BITS + 1
    ensures Base(lens + Rep<nat>(0, k), l) == Base(lens, l)
  {
    if l > 1 {
      BasePad(lens, k, l - 1);
      CountPad(lens, k, l - 1);
    }
  }

  lemma {:induction false} FirstCodePad(lens: seq<nat>, k: nat, l: nat)
    ensures FirstCode(lens + Rep<nat>(0, k), l) == FirstCode(lens, l)
  {
    if l > 1 {
      FirstCodePad(lens, k, l - 1);
      CountPad(lens, k, l - 1);
    }
  }

  /** Symbols without a code at the end change nothing. */
  lemma PadCode(lens: seq<nat>, k: nat)
    ensures Complete(lens) ==> Complete(lens + Rep<nat>(0, k))
    ensures forall n: nat :: n < |lens| ==> Huff(lens + Rep<nat>(0, k), n) == Huff(lens, n)
  {
    hide Base, FirstCode, Rev;
    var more := lens + Rep<nat>(0, k);
    BasePad(lens, k, MAX_BITS + 1);
    forall n: nat | n < |lens| ensures Huff(more, n) == Huff(lens, n) {
      FirstCodePad(lens, k, lens[n]);
      assert more[..n] == lens[..n];
    }
  }

  lemma PadTree(fc: seq<nat>, dl: seq<nat>, lens: seq<nat>, k: nat)
    requires TreeIs(fc, dl, lens) && Complete(lens) && |lens| + k <= |fc| && |lens| + k <= |dl|
    requires forall i :: |lens| <= i < |lens| + k ==> dl[i] == 0
    ensures dl[..|lens| + k] == lens + Rep<nat>(0, k)
    ensures TreeIs(fc, dl, dl[..|lens| + k]) && Complete(dl[..|lens| + k])
  {
    hide Base, Huff;
    PadCode(lens, k);
    assert dl[..|lens| + k] == dl[..|lens|] + dl[|lens|..|lens| + k];
  }

  lemma {:induction false} PerformCount(got: seq<nat>, ops: seq<Op>)
    requires Performable(got, ops)
    ensures |got| + |ops| <= |PerformAll(got, ops)|
    decreases |ops|
  {
    if ops != [] {
      PerformCount(Perform(got, ops[0]), ops[1..]);
    }
  }

  /** There are no more operations than lengths, and they are valid. */
  lemma OpsBound(lens: seq<nat>)
    requires ValidLens(lens)
    ensures |Ops(lens)| <= |lens| && ValidOps(Ops(lens))
  {
    hide Ops;
    OpsRoundTrip([], lens);
    PerformCount([], Ops(lens));
    PerformableValid([], Ops(lens));
  }

  lemma {:induction false} OpFreqsTotal(ops: seq<Op>)
    requires ValidOps(ops)
    ensures FreqTotal(OpFreqs(ops), BL_CODES) == |ops|
  {
    if ops == [] {
      TotalZero(BL_CODES, BL_CODES);
    } else {
      OpFreqsTotal(ops[1..]);
      TotalBump(OpFreqs(ops[1..]), BL_CODES, SymbolOf(ops[0]));
    }
  }

  /** Every operation's symbol is counted. */
  lemma {:induction false} OpCounted(ops: seq<Op>, i: nat)
    requires ValidOps(ops) && i < |ops|
    ensures SymbolOf(ops[i]) < BL_CODES && OpFreqs(ops)[SymbolOf(ops[i])] > 0
    decreases |ops|
  {
    if i > 0 {
      OpCounted(ops[1..], i - 1);
    }
  }

  function TreeOps(ll: seq<nat>, dl: seq<nat>): seq<Op> {
    Ops(ll) + Ops(dl)
  }

  lemma TreeOpsFreqs(ll: seq<nat>, dl: seq<nat>, freq: seq<nat>)
    requires ValidLens(ll) && ValidLens(dl) && |freq| == BL_CODES
    requires forall s :: 0 <= s < BL_CODES ==> freq[s] == Tally(Ops(ll), s) + Tally(Ops(dl), s)
    ensures ValidOps(TreeOps(ll, dl)) && |TreeOps(ll, dl)| <= |ll| + |dl| && freq == OpFreqs(TreeOps(ll, dl))
    ensures FreqTotal(freq, BL_CODES) <= |ll| + |dl|
  {
    hide Ops, Tally, ValidOp, OpFreqs;
    OpsBound(ll);
    OpsBound(dl);
    OpFreqsTotal(TreeOps(ll, dl));
    forall s: nat | s < BL_CODES ensures freq[s] == OpFreqs(TreeOps(ll, dl))[s] {
      TallyConcat(Ops(ll), Ops(dl), s);
      OpFreqsTally(TreeOps(ll, dl), s);
    }
  }

  /** scan_tree on both trees. */
  method ScanBoth(ldl: array<nat>, lmax: nat, ddl: array<nat>, dmax: nat, bfc: array<nat>)
    requires ldl != ddl && ldl != bfc && ddl != bfc && BL_CODES <= bfc.Length
    requires lmax + 1 < ldl.Length && dmax + 1 < ddl.Length
    requires ValidLens(ldl[..lmax + 1]) && ValidLens(ddl[..dmax + 1])
    requires forall s :: 0 <= s < BL_CODES ==> bfc[s] == 0
    modifies ldl, ddl, bfc
    ensures ldl[..] == old(ldl[..])[lmax + 1 := GUARD] && ddl[..] == old(ddl[..])[dmax + 1 := GUARD]
    ensures ValidOps(TreeOps(old(ldl[..lmax + 1]), old(ddl[..dmax + 1])))
    ensures bfc[..BL_CODES] == OpFreqs(TreeOps(old(ldl[..lmax + 1]), old(ddl[..dmax + 1])))
    ensures FreqTotal(bfc[..BL_CODES], BL_CODES) <= lmax + dmax + 2
    ensures Guarded(ldl[..], old(ldl[..lmax + 1])) && Guarded(ddl[..], old(ddl[..dmax + 1]))
  {
    hide Tally, Ops, OpFreqs, FreqTotal;
    ghost var ll: seq<nat>, dl: seq<nat> := ldl[..lmax + 1], ddl[..dmax + 1];
    ScanTree(ldl, lmax, bfc);
    ScanTree(ddl, dmax, bfc);
    TreeOpsFreqs(ll, dl, bfc[..BL_CODES]);
  }

  /** Without a first length that is not zero, nothing but zeros comes out. */
  lemma {:induction false} OnlyZeros(got: seq<nat>, ops: seq<Op>)
    requires Performable(got, ops) && forall i :: 0 <= i < |got| ==> got[i] == 0
    requires forall i :: 0 <= i < |ops| && ops[i].One? ==> ops[i].len == 0
    ensures forall i :: 0 <= i < |PerformAll(got, ops)| ==> PerformAll(got, ops)[i] == 0
    decreases |ops|
  {
    if ops != [] {
      OnlyZeros(Perform(got, ops[0]), ops[1..]);
    }
  }

  /** A tree with a code in it uses the symbol of some length above 0. */
  lemma SomeLengthSent(bl: seq<nat>, ll: seq<nat>, n: nat) returns (s: nat)
    requires ValidLens(ll) && HasCode(ll, n) && Sendable(bl, Ops(ll))
    ensures 1 <= s <= 15 && bl[s] != 0
  {
    hide Ops, ValidOp;
    OpsRoundTrip([], ll);
    var ops := Ops(ll);
    assert [] + ll == ll && ll[n] != 0;
    if forall i :: 0 <= i < |ops| && ops[i].One? ==> ops[i].len == 0 {
      OnlyZeros([], ops);
    }
    var i :| 0 <= i < |ops| && ops[i].One? && ops[i].len != 0;
    s := ops[i].len;
    OneIsLength(ops, i);
    assert SymbolOf(ops[i]) == s;
  }

  lemma OneIsLength(ops: seq<Op>, i: nat)
    requires ValidOps(ops) && i < |ops| && ops[i].One?
    ensures ops[i].len <= 15
  {}

  /**
    The index, in the order of sending, of the last length worth sending. As some length above 0
    has a code, the search ends before the index drops below 4.
   */
  method LastToSend(bdl: array<nat>, ghost bl: seq<nat>, ghost s: nat) returns (maxBlindex: nat)
    requires |bl| == BL_CODES <= bdl.Length && bdl[..BL_CODES] == bl && 1 <= s <= 15 && bl[s] != 0
    ensures 4 <= maxBlindex < BL_CODES && forall r :: maxBlindex < r < BL_CODES ==> bl[BlOrder()[r]] == 0
  {
    OrderPlace();
    OrdersAgree();
    maxBlindex := BL_CODES - 1;
    while maxBlindex >= 3
      invariant Place(s) <= maxBlindex < BL_CODES && forall r :: maxBlindex < r < BL_CODES ==> bl[BlOrder()[r]] == 0
    {
      assert bdl[BlOrder()[maxBlindex]] == bl[BlOrder()[maxBlindex]];
      if bdl[BlOrder()[maxBlindex]] != 0 { break; }
      maxBlindex := maxBlindex - 1;
    }
  }

  /** Where build_bl_tree's arrays start: no frequencies. */
  method NoFreqs() returns (bfc: array<nat>, bdl: array<nat>)
    ensures fresh(bfc) && fresh(bdl) && bfc != bdl
    ensures bfc.Length == 2 * BL_CODES + 1 && bdl.Length == 2 * BL_CODES + 1
    ensures forall s :: 0 <= s < BL_CODES ==> bfc[s] == 0
  {
    bfc, bdl := new nat[2 * BL_CODES + 1], new nat[2 * BL_CODES + 1];
    for n := 0 to BL_CODES
      invariant forall s :: 0 <= s < n ==> bfc[s] == 0
    {
      bfc[n] := 0;
    }
  }

  /** The code length code is ready: it can send both trees. */
  lemma BlReady(bfc: seq<nat>, bdl: seq<nat>, ll: seq<nat>, dl: seq<nat>, lens: seq<nat>)
    requires ValidOps(TreeOps(ll, dl)) && CodeBuilt(bfc, bdl, OpFreqs(TreeOps(ll, dl)), lens)
    requires BL_CODES <= |bdl| && BL_CODES <= |bfc| && forall i :: |lens| <= i < BL_CODES ==> bdl[i] == 0
    ensures var bl := bdl[..BL_CODES];
            TreeIs(bfc, bdl, bl) && Complete(bl) && Sendable(bl, Ops(ll)) && Sendable(bl, Ops(dl)) && Sendable(bl, TreeOps(ll, dl)) &&
            forall i :: 0 <= i < |lens| ==> bl[i] == lens[i]
  {
    hide Complete, Ops, OpFreqs, ValidOp, SymbolOf, Usable, Huff;
    var bl := bdl[..BL_CODES];
    PadTree(bfc, bdl, lens, BL_CODES - |lens|);
    var ops := TreeOps(ll, dl);
    forall i | 0 <= i < |ops| ensures SymbolOf(ops[i]) < BL_CODES && bl[SymbolOf(ops[i])] != 0 {
      OpCounted(ops, i);
      assert HasCode(lens, SymbolOf(ops[i]));
    }
    SendableParts(bl, Ops(ll), Ops(dl));
  }

  lemma SendableParts(bl: seq<nat>, a: seq<Op>, b: seq<Op>)
    requires Sendable(bl, a + b)
    ensures Sendable(bl, a) && Sendable(bl, b)
  {
    hide ValidOp, SymbolOf;
    assert forall i :: 0 <= i < |a| ==> a[i] == (a + b)[i];
    assert forall i :: 0 <= i < |b| ==> b[i] == (a + b)[|a| + i];
  }

  /** The size of the description of the trees. */
  lemma TreesCost(ll: seq<nat>, dl: seq<nat>, bl: seq<nat>, blcodes: nat, n: nat)
    requires 257 <= |ll| && 1 <= |dl| && 4 <= blcodes <= BL_CODES && ValidLens(bl)
    requires Sendable(bl, TreeOps(ll, dl)) && Sendable(bl, Ops(ll)) && Sendable(bl, Ops(dl))
    requires n <= BL_CODES && forall i :: n <= i < BL_CODES ==> bl[i] == 0
    ensures |TreesBits(ll, dl, bl, blcodes)| ==
            PriceTo(OpFreqs(TreeOps(ll, dl)), bl, bl, ExtraBlBits(), 0, n) + 3 * blcodes + 5 + 5 + 4
  {
    hide Ops, OpsBits, PriceTo, SymbolOf, ValidOp, OpFreqs;
    OpsCost(bl, TreeOps(ll, dl), n);
    OpsBitsConcat(bl, Ops(ll), Ops(dl));
    TreesBitsSplit(ll, dl, bl, blcodes, []);
  }

  /**
    build_bl_tree: the code length code for the two trees, and what sending them adds to opt_len.
   */
  method BuildBlTree(ldl: array<nat>, lmax: nat, ddl: array<nat>, dmax: nat, optLen: int)
    returns (bfc: array<nat>, bdl: array<nat>, maxBlindex: nat, opt: int, ghost bl: seq<nat>)
    requires ldl != ddl && L_CODES < ldl.Length && D_CODES < ddl.Length && END_BLOCK <= lmax < L_CODES && dmax < D_CODES
    requires ValidLens(ldl[..lmax + 1]) && ValidLens(ddl[..dmax + 1]) && ldl[END_BLOCK] != 0
    modifies ldl, ddl
    ensures fresh(bfc) && fresh(bdl)
    ensures ldl[..] == old(ldl[..])[lmax + 1 := GUARD] && ddl[..] == old(ddl[..])[dmax + 1 := GUARD]
    ensures Guarded(ldl[..], old(ldl[..lmax + 1])) && Guarded(ddl[..], old(ddl[..dmax + 1]))
    ensures TreeIs(bfc[..], bdl[..], bl) && Complete(bl) && maxBlindex < BL_CODES
    ensures Sendable3(old(ldl[..lmax + 1]), old(ddl[..dmax + 1]), bl, maxBlindex + 1)
    ensures opt == optLen + |TreesBits(old(ldl[..lmax + 1]), old(ddl[..dmax + 1]), bl, maxBlindex + 1)|
  {
    hide PriceTo, FreqTotal, CodeBuilt, NoExtra, ValidDesc, Ops, OpFreqs, Tally, Complete, SymbolOf, ValidOp, TreesBits, TreeIs, Guarded, ExtraBlBits, Order;
    ghost var ll: seq<nat>, dl: seq<nat> := ldl[..lmax + 1], ddl[..dmax + 1];
    bfc, bdl := NoFreqs();
    ScanBoth(ldl, lmax, ddl, dmax, bfc);
    ghost var freq: seq<nat> := bfc[..BL_CODES];
    DescsValid();
    var heap, depth, blCount := Scratch();
    var bmax, stat;
    ghost var lens: seq<nat>;
    bmax, opt, stat, lens := BuildOne(heap, bfc, depth, bdl, BlDesc(), blCount, optLen, 0, freq);
    bl := bdl[..BL_CODES];
    BlReady(bfc[..], bdl[..], ll, dl, lens);
    assert bdl[..][..BL_CODES] == bl;
    ghost var s := SomeLengthSent(bl, ll, END_BLOCK);
    maxBlindex := LastToSend(bdl, bl, s);
    PriceFrame(freq, freq, lens, bl, lens, bl, ExtraBlBits(), 0, |lens|);
    TreesCost(ll, dl, bl, maxBlindex + 1, |lens|);
    opt := opt + 3 * (maxBlindex + 1) + 5 + 5 + 4;
  }
}
