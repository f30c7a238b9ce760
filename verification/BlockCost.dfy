/**
  What a block costs: the tallied frequencies give its exact size in bits.
 */
module BlockCost {
  import opened Bits
  import opened Canonical
  import opened Symbols
  import opened Huffman
  import opened BitLengths
  import opened BuildCode
  import opened TokenCoding
  import opened RunCoding
  import opened TreeSending
  import opened Blocks

  // ----- frequencies -----

  function Bump(freq: seq<nat>, n: nat): (r: seq<nat>)
    ensures |r| == |freq|
  {
    if n < |freq| then freq[n := freq[n] + 1] else freq
  }

  /** dyn_ltree[].Freq after init_block and the tallies of a block. */
  function LitFreqs(tokens: seq<Token>): (r: seq<nat>)
    requires ValidTokens(tokens)
    ensures |r| == L_CODES
  {
    if tokens == [] then Rep(0, L_CODES)[END_BLOCK := 1]
    else Bump(LitFreqs(tokens[..|tokens| - 1]), LitSymbol(tokens[|tokens| - 1]))
  }

  /** dyn_dtree[].Freq likewise. */
  function DistFreqs(tokens: seq<Token>): (r: seq<nat>)
    requires ValidTokens(tokens)
    ensures |r| == D_CODES
  {
    if tokens == [] then Rep(0, D_CODES)
    else
      var f, t := DistFreqs(tokens[..|tokens| - 1]), tokens[|tokens| - 1];
      if t.Match? then Bump(f, DistCode(t.dist - 1)) else f
  }

  lemma FreqsPush(tokens: seq<Token>, t: Token)
    requires ValidTokens(tokens) && ValidToken(t)
    ensures ValidTokens(tokens + [t])
    ensures LitFreqs(tokens + [t]) == Bump(LitFreqs(tokens), LitSymbol(t))
    ensures DistFreqs(tokens + [t]) == if t.Match? then Bump(DistFreqs(tokens), DistCode(t.dist - 1)) else DistFreqs(tokens)
  {
    hide Bump, LitSymbol, DistCode, ValidToken;
    assert (tokens + [t])[..|tokens|] == tokens;
  }

  lemma {:induction false} FreqsGrow(tokens: seq<Token>, i: nat, n: nat)
    requires ValidTokens(tokens) && i <= |tokens| && n < L_CODES
    ensures ValidTokens(tokens[..i]) && LitFreqs(tokens[..i])[n] <= LitFreqs(tokens)[n]
    ensures n < D_CODES ==> DistFreqs(tokens[..i])[n] <= DistFreqs(tokens)[n]
    decreases |tokens|
  {
    hide LitSymbol, DistCode, ValidToken;
    if i < |tokens| {
      FreqsGrow(tokens[..|tokens| - 1], i, n);
      assert tokens[..|tokens| - 1][..i] == tokens[..i];
    } else {
      assert tokens[..i] == tokens;
    }
  }

  /** Every symbol the tokens need has a frequency. */
  lemma TokenCounted(tokens: seq<Token>, i: nat)
    requires ValidTokens(tokens) && i < |tokens|
    ensures ValidToken(tokens[i]) && LitSymbol(tokens[i]) < L_CODES && LitFreqs(tokens)[LitSymbol(tokens[i])] > 0
    ensures tokens[i].Match? ==> DistFreqs(tokens)[DistCode(tokens[i].dist - 1)] > 0
  {
    hide LitFreqs, DistFreqs, DistCode, LengthCode;
    var t := tokens[i];
    assert tokens[..i + 1] == tokens[..i] + [t];
    FreqsPush(tokens[..i], t);
    FreqsGrow(tokens, i + 1, LitSymbol(t));
    if t.Match? {
      FreqsGrow(tokens, i + 1, DistCode(t.dist - 1));
    }
  }

  lemma {:induction false} EndCounted(tokens: seq<Token>)
    requires ValidTokens(tokens)
    ensures LitFreqs(tokens)[END_BLOCK] > 0
  {
    assert tokens[..0] == [];
    FreqsGrow(tokens, 0, END_BLOCK);
  }

  lemma {:induction false} FreqTotals(tokens: seq<Token>)
    requires ValidTokens(tokens)
    ensures FreqTotal(LitFreqs(tokens), L_CODES) == |tokens| + 1
    ensures FreqTotal(DistFreqs(tokens), D_CODES) <= |tokens|
  {
    hide LengthCode, DistCode;
    if tokens == [] {
      TotalZero(D_CODES, D_CODES);
      TotalZero(L_CODES, L_CODES);
      TotalBump(Rep(0, L_CODES), L_CODES, END_BLOCK);
    } else {
      var k := |tokens| - 1;
      FreqTotals(tokens[..k]);
      TotalBump(LitFreqs(tokens[..k]), L_CODES, LitSymbol(tokens[k]));
      if tokens[k].Match? {
        TotalBump(DistFreqs(tokens[..k]), D_CODES, DistCode(tokens[k].dist - 1));
      }
    }
  }

  lemma {:induction false} TotalBump(freq: seq<nat>, n: nat, i: nat)
    requires n <= |freq| && i < |freq|
    ensures FreqTotal(Bump(freq, i), n) == FreqTotal(freq, n) + if i < n then 1 else 0
  {
    if n > 0 {
      TotalBump(freq, n - 1, i);
    }
  }

  lemma {:induction false} TotalZero(k: nat, n: nat)
    requires n <= k
    ensures FreqTotal(Rep(0, k), n) == 0
  {
    if n > 0 {
      TotalZero(k, n - 1);
    }
  }

  // ----- prices -----

  lemma {:induction false} PriceBump(freq: seq<nat>, dl: seq<nat>, lens: seq<nat>, extra: seq<nat>, base: nat, n: nat, i: nat)
    requires n <= |freq| && n <= |dl| && n <= |lens| && i < n
    ensures PriceTo(Bump(freq, i), dl, lens, extra, base, n) ==
            PriceTo(freq, dl, lens, extra, base, n) + Charge(dl[i], lens[i], extra, base, i)
  {
    hide Charge;
    TimesAdd(freq[n - 1], 1, Charge(dl[n - 1], lens[n - 1], extra, base, n - 1));
    TimesOne(Charge(dl[n - 1], lens[n - 1], extra, base, n - 1));
    if n - 1 == i {
      PriceBumpAbove(freq, dl, lens, extra, base, n - 1, i);
    } else {
      PriceBump(freq, dl, lens, extra, base, n - 1, i);
    }
  }

  lemma {:induction false} PriceBumpAbove(freq: seq<nat>, dl: seq<nat>, lens: seq<nat>, extra: seq<nat>, base: nat, n: nat, i: nat)
    requires n <= |freq| && n <= |dl| && n <= |lens| && n <= i < |freq|
    ensures PriceTo(Bump(freq, i), dl, lens, extra, base, n) == PriceTo(freq, dl, lens, extra, base, n)
  {
    if n > 0 {
      PriceBumpAbove(freq, dl, lens, extra, base, n - 1, i);
    }
  }

  lemma {:induction false} PriceZero(k: nat, dl: seq<nat>, lens: seq<nat>, extra: seq<nat>, base: nat, n: nat)
    requires n <= k && n <= |dl| && n <= |lens|
    ensures PriceTo(Rep(0, k), dl, lens, extra, base, n) == 0
  {
    if n > 0 {
      PriceZero(k, dl, lens, extra, base, n - 1);
      TimesOne(Charge(dl[n - 1], lens[n - 1], extra, base, n - 1));
    }
  }

  const EXTRA_BASE: nat := LITERALS + 1

  /** The price of the literals and lengths of a block; `set` says which symbols have codes, `lens` how long they are. */
  function LitPrice(tokens: seq<Token>, set_: seq<nat>, lens: seq<nat>): nat
    requires ValidTokens(tokens) && |set_| <= L_CODES && |set_| <= |lens|
  {
    PriceTo(LitFreqs(tokens), set_, lens, ExtraLBits(), EXTRA_BASE, |set_|)
  }

  function DistPrice(tokens: seq<Token>, set_: seq<nat>, lens: seq<nat>): nat
    requires ValidTokens(tokens) && |set_| <= D_CODES && |set_| <= |lens|
  {
    PriceTo(DistFreqs(tokens), set_, lens, ExtraDBits(), 0, |set_|)
  }

  lemma CodeSize(ls: seq<nat>, ll: seq<nat>, n: nat)
    requires HasCode(ls, n) && |ls| <= |ll| && ValidLens(ls)
    ensures |Code(ll, n)| == ll[n] && 1 <= ls[n] <= MAX_BITS
  {}

  lemma LengthCost(ls: seq<nat>, ll: seq<nat>, len: nat)
    requires MIN_MATCH <= len <= MAX_MATCH && HasCode(ls, LITERALS + 1 + LengthCode(len - MIN_MATCH)) && |ls| <= |ll| && ValidLens(ls)
    ensures var n := LITERALS + 1 + LengthCode(len - MIN_MATCH);
            |LengthBits(ll, len)| == Charge(ls[n], ll[n], ExtraLBits(), EXTRA_BASE, n)
  {
    hide BitsOf, Code, LengthCode, LengthBase, ValidLens, HasCode, ExtraLBits;
    CodeSize(ls, ll, LITERALS + 1 + LengthCode(len - MIN_MATCH));
  }

  lemma DistanceCost(ds: seq<nat>, dl: seq<nat>, dist: nat)
    requires 1 <= dist <= MAX_DISTANCE && HasCode(ds, DistCode(dist - 1)) && |ds| <= |dl| && ValidLens(ds)
    ensures var n := DistCode(dist - 1);
            |DistanceBits(dl, dist)| == Charge(ds[n], dl[n], ExtraDBits(), 0, n)
  {
    hide BitsOf, Code, DistCode, DistBase, ValidLens, HasCode, ExtraDBits;
    CodeSize(ds, dl, DistCode(dist - 1));
  }

  /** The size of a token is what its symbols are charged. */
  lemma TokenCost(ls: seq<nat>, ds: seq<nat>, ll: seq<nat>, dl: seq<nat>, t: Token)
    requires ValidToken(t) && Codable(ls, ds, t) && |ls| <= |ll| && |ds| <= |dl| && ValidLens(ls) && ValidLens(ds)
    ensures |TokenBits(ll, dl, t)| ==
            Charge(ls[LitSymbol(t)], ll[LitSymbol(t)], ExtraLBits(), EXTRA_BASE, LitSymbol(t)) +
            (if t.Match? then Charge(ds[DistCode(t.dist - 1)], dl[DistCode(t.dist - 1)], ExtraDBits(), 0, DistCode(t.dist - 1)) else 0)
  {
    hide BitsOf, Code, LengthCode, DistCode, LengthBits, DistanceBits, ValidLens, ExtraLBits, ExtraDBits;
    CodeSize(ls, ll, LitSymbol(t));
    if t.Match? {
      LengthCost(ls, ll, t.len);
      DistanceCost(ds, dl, t.dist);
    }
  }

  /** The size of the tokens of a block is their price, whatever code they are sent in. */
  lemma {:induction false} TokensCost(ls: seq<nat>, ds: seq<nat>, ll: seq<nat>, dl: seq<nat>, tokens: seq<Token>)
    requires ValidTokens(tokens) && forall i :: 0 <= i < |tokens| ==> Codable(ls, ds, tokens[i])
    requires HasCode(ls, END_BLOCK) && |ls| <= L_CODES && |ds| <= D_CODES && |ls| <= |ll| && |ds| <= |dl|
    requires ValidLens(ls) && ValidLens(ds)
    ensures |TokensBits(ll, dl, tokens)| + ll[END_BLOCK] == LitPrice(tokens, ls, ll) + DistPrice(tokens, ds, dl)
    decreases |tokens|
  {
    hide TokenBits, LengthCode, DistCode, PriceTo, Charge;
    if tokens == [] {
      PriceZero(D_CODES, ds, dl, ExtraDBits(), 0, |ds|);
      PriceZero(L_CODES, ls, ll, ExtraLBits(), EXTRA_BASE, |ls|);
      PriceBump(Rep(0, L_CODES), ls, ll, ExtraLBits(), EXTRA_BASE, |ls|, END_BLOCK);
      EndCharge(ls, ll);
    } else {
      var k := |tokens| - 1;
      var t := tokens[k];
      TokensCost(ls, ds, ll, dl, tokens[..k]);
      assert Codable(ls, ds, t);
      TokenCost(ls, ds, ll, dl, t);
      PriceBump(LitFreqs(tokens[..k]), ls, ll, ExtraLBits(), EXTRA_BASE, |ls|, LitSymbol(t));
      if t.Match? {
        PriceBump(DistFreqs(tokens[..k]), ds, dl, ExtraDBits(), 0, |ds|, DistCode(t.dist - 1));
      }
    }
  }

  lemma EndCharge(ls: seq<nat>, ll: seq<nat>)
    requires HasCode(ls, END_BLOCK) && |ls| <= |ll| && ValidLens(ls)
    ensures Charge(ls[END_BLOCK], ll[END_BLOCK], ExtraLBits(), EXTRA_BASE, END_BLOCK) == ll[END_BLOCK]
  {}

  /** The body of a block, its end included, takes exactly its price in bits. */
  lemma BodyCost(ls: seq<nat>, ds: seq<nat>, ll: seq<nat>, dl: seq<nat>, tokens: seq<Token>)
    requires ValidTokens(tokens) && AllCodable(ls, ds, tokens) && ValidLens(ls) && ValidLens(ds)
    requires |ls| <= L_CODES && |ds| <= D_CODES && |ls| <= |ll| && |ds| <= |dl|
    ensures |BodyBits(ll, dl, tokens)| == LitPrice(tokens, ls, ll) + DistPrice(tokens, ds, dl)
  {
    hide TokensBits, Codable, LitPrice, DistPrice;
    TokensCost(ls, ds, ll, dl, tokens);
  }

  // ----- the trees themselves -----

  /** The frequencies of the code length symbols used by a list of operations. */
  function OpFreqs(ops: seq<Op>): (r: seq<nat>)
    requires ValidOps(ops)
    ensures |r| == BL_CODES
  {
    if ops == [] then Rep(0, BL_CODES) else Bump(OpFreqs(ops[1..]), SymbolOf(ops[0]))
  }

  lemma {:induction false} OpFreqsTally(ops: seq<Op>, s: nat)
    requires ValidOps(ops) && s < BL_CODES
    ensures OpFreqs(ops)[s] == Tally(ops, s)
  {
    if ops != [] {
      OpFreqsTally(ops[1..], s);
    }
  }

  function ExtraBlBits(): (r: seq<nat>)
    ensures |r| == BL_CODES
  {
    [0, 0, 0, 0, 0, 0, 0, 0, 0, 0, 0, 0, 0, 0, 0, 0, 2, 3, 7]
  }

  lemma OpCost(bl: seq<nat>, op: Op)
    requires |bl| == BL_CODES && ValidOp(op) && 1 <= bl[SymbolOf(op)] <= MAX_BITS
    ensures |OpBits(bl, op)| == Charge(bl[SymbolOf(op)], bl[SymbolOf(op)], ExtraBlBits(), 0, SymbolOf(op))
  {
    hide BitsOf, Huff;
  }

  /** The size of the sent operations is their price. */
  lemma {:induction false} OpsCost(bl: seq<nat>, ops: seq<Op>, n: nat)
    requires Sendable(bl, ops) && ValidLens(bl) && n <= BL_CODES && forall i :: n <= i < BL_CODES ==> bl[i] == 0
    ensures |OpsBits(bl, ops)| == PriceTo(OpFreqs(ops), bl, bl, ExtraBlBits(), 0, n)
    decreases |ops|
  {
    hide PriceTo, Charge, OpBits;
    if ops == [] {
      PriceZero(BL_CODES, bl, bl, ExtraBlBits(), 0, n);
    } else {
      OpsCost(bl, ops[1..], n);
      OpCost(bl, ops[0]);
      PriceBump(OpFreqs(ops[1..]), bl, bl, ExtraBlBits(), 0, n, SymbolOf(ops[0]));
    }
  }
}
