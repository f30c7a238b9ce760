/**
  The canonical Huffman code of a vector of code lengths (section 3.2.2 of RFC 1951), and
  `gen_codes`/`bi_reverse` of trees.c, which assign it on the encoding side.

  A code of length l is seen as an interval of size 2^(15-l) in [0, 2^15): the codes, sorted
  by length and then by symbol, tile that range from 0 upwards. Prefix-freeness, completeness
  and the decoder's table layout are statements about these intervals.
 */
module Canonical {
  import opened Bits

  const MAX_BITS: nat := 15

  predicate ValidLens(lens: seq<nat>) {
    forall i :: 0 <= i < |lens| ==> lens[i] <= MAX_BITS
  }

  /** How many symbols have code length l. */
  function Count(lens: seq<nat>, l: nat): nat {
    if lens == [] then 0
    else Count(lens[..|lens| - 1], l) + (if lens[|lens| - 1] == l then 1 else 0)
  }

  /** The numeric value of the first code of length l; length 0 means "no code". */
  function FirstCode(lens: seq<nat>, l: nat): nat {
    if l <= 1 then 0 else 2 * (FirstCode(lens, l - 1) + Count(lens, l - 1))
  }

  /** How many earlier symbols share the length of symbol n. */
  function Rank(lens: seq<nat>, n: nat): nat
    requires n < |lens|
  {
    Count(lens[..n], lens[n])
  }

  /** The code of symbol n as RFC 1951 numbers it, most significant bit first. */
  function CodeOf(lens: seq<nat>, n: nat): nat
    requires n < |lens|
  {
    FirstCode(lens, lens[n]) + Rank(lens, n)
  }

  /** The same code as it is read from the stream, first bit lowest. */
  function Huff(lens: seq<nat>, n: nat): nat
    requires n < |lens|
  {
    Rev(CodeOf(lens, n), lens[n])
  }

  /** Code space taken by the codes shorter than l, in units of 2^-15. */
  function Base(lens: seq<nat>, l: nat): nat
    requires l <= MAX_BITS + 1
  {
    if l <= 1 then 0 else Base(lens, l - 1) + Shl(Count(lens, l - 1), MAX_BITS - (l - 1))
  }

  function Size(l: nat): nat
    requires l <= MAX_BITS
  {
    Pow2(MAX_BITS - l)
  }

  function Start(lens: seq<nat>, n: nat): nat
    requires n < |lens| && lens[n] <= MAX_BITS
  {
    Shl(CodeOf(lens, n), MAX_BITS - lens[n])
  }

  /** Not over-subscribed: the Kraft sum is at most 1. */
  predicate Fits(lens: seq<nat>) {
    Base(lens, MAX_BITS + 1) <= Pow2(MAX_BITS)
  }

  /** The Kraft sum is exactly 1. */
  predicate Complete(lens: seq<nat>) {
    Base(lens, MAX_BITS + 1) == Pow2(MAX_BITS)
  }

  /** The stream whose first bits are those of v begins with the code of symbol n. */
  predicate Matches(lens: seq<nat>, n: nat, v: nat)
    requires n < |lens|
  {
    lens[n] != 0 && Low(v, lens[n]) == Huff(lens, n)
  }

  // ----- counting -----

  lemma {:induction false} CountMono(lens: seq<nat>, i: nat, j: nat, l: nat)
    requires i <= j <= |lens|
    ensures Count(lens[..i], l) <= Count(lens[..j], l)
    ensures i < j && lens[i] == l ==> Count(lens[..i], l) < Count(lens[..j], l)
    decreases j
  {
    if i < j {
      assert lens[..j][..j - 1] == lens[..j - 1];
      CountMono(lens, i, j - 1, l);
    }
  }

  lemma CountStep(lens: seq<nat>, i: nat, l: nat)
    requires i < |lens|
    ensures Count(lens[..i + 1], l) == Count(lens[..i], l) + (if lens[i] == l then 1 else 0)
  {
    assert lens[..i + 1][..i] == lens[..i];
  }

  lemma RankBound(lens: seq<nat>, n: nat)
    requires n < |lens|
    ensures Rank(lens, n) < Count(lens, lens[n])
  {
    CountMono(lens, n, |lens|, lens[n]);
    assert lens[..|lens|] == lens;
  }

  lemma RankInjective(lens: seq<nat>, m: nat, n: nat)
    requires m < |lens| && n < |lens| && lens[m] == lens[n] && Rank(lens, m) == Rank(lens, n)
    ensures m == n
  {
    if m < n {
      CountMono(lens, m, n, lens[n]);
    } else if n < m {
      CountMono(lens, n, m, lens[n]);
    }
  }

  /** Every rank below the count is taken. */
  lemma {:induction false} SymbolWithRank(lens: seq<nat>, l: nat, r: nat) returns (n: nat)
    requires r < Count(lens, l)
    ensures n < |lens| && lens[n] == l && Rank(lens, n) == r
  {
    var k := |lens| - 1;
    if lens[k] == l && Count(lens[..k], l) == r {
      n := k;
    } else {
      n := SymbolWithRank(lens[..k], l, r);
      assert lens[..k][..n] == lens[..n];
    }
  }

  // ----- the tiling -----

  lemma {:induction false} BaseIsFirstCode(lens: seq<nat>, l: nat)
    requires 1 <= l <= MAX_BITS
    ensures Base(lens, l) == Shl(FirstCode(lens, l), MAX_BITS - l)
  {
    if l == 1 {
      ShlZero(MAX_BITS - 1);
    } else {
      BaseIsFirstCode(lens, l - 1);
      var k := MAX_BITS - l;
      var x := FirstCode(lens, l - 1) + Count(lens, l - 1);
      ShlAdd(FirstCode(lens, l - 1), Count(lens, l - 1), k + 1);
      ShlShl(x, 1, k);
      assert Shl(x, 1) == 2 * x;
      assert 1 + k == k + 1;
    }
  }

  lemma BaseStep(lens: seq<nat>, len: nat)
    requires 1 <= len <= MAX_BITS
    ensures Base(lens, len + 1) == Base(lens, len) + Shl(Count(lens, len), MAX_BITS - len)
  {}

  lemma {:induction false} BaseMono(lens: seq<nat>, l: nat, m: nat)
    requires l <= m <= MAX_BITS + 1
    ensures Base(lens, l) <= Base(lens, m)
    decreases m
  {
    if l < m {
      BaseMono(lens, l, m - 1);
    }
  }

  /** The interval of a symbol, placed by its length and rank. */
  lemma StartByRank(lens: seq<nat>, n: nat)
    requires n < |lens| && 1 <= lens[n] <= MAX_BITS
    ensures Start(lens, n) == Base(lens, lens[n]) + Shl(Rank(lens, n), MAX_BITS - lens[n])
    ensures Start(lens, n) + Size(lens[n]) <= Base(lens, lens[n] + 1)
  {
    var l := lens[n];
    BaseIsFirstCode(lens, l);
    ShlAdd(FirstCode(lens, l), Rank(lens, n), MAX_BITS - l);
    RankBound(lens, n);
    ShlMono(Rank(lens, n), Count(lens, l), MAX_BITS - l);
  }

  predicate Before(lens: seq<nat>, m: nat, n: nat)
    requires m < |lens| && n < |lens|
  {
    lens[m] < lens[n] || (lens[m] == lens[n] && m < n)
  }

  lemma Disjoint(lens: seq<nat>, m: nat, n: nat)
    requires m < |lens| && n < |lens|
    requires 1 <= lens[m] && lens[n] <= MAX_BITS && Before(lens, m, n)
    ensures Start(lens, m) + Size(lens[m]) <= Start(lens, n)
  {
    StartByRank(lens, m);
    StartByRank(lens, n);
    if lens[m] < lens[n] {
      BaseMono(lens, lens[m] + 1, lens[n]);
    } else {
      CountMono(lens, m, n, lens[n]);
      ShlMono(Rank(lens, m), Rank(lens, n), MAX_BITS - lens[m]);
    }
  }

  lemma CodeBound(lens: seq<nat>, n: nat)
    requires Fits(lens) && n < |lens| && 1 <= lens[n] <= MAX_BITS
    ensures Start(lens, n) + Size(lens[n]) <= Pow2(MAX_BITS)
    ensures CodeOf(lens, n) < Pow2(lens[n])
  {
    var l := lens[n];
    StartByRank(lens, n);
    BaseMono(lens, l + 1, MAX_BITS + 1);
    if Pow2(l) <= CodeOf(lens, n) {
      ShlMono(Pow2(l), CodeOf(lens, n), MAX_BITS - l);
      ShlShl(1, l, MAX_BITS - l);
    }
  }

  /** Reading the code of n is falling into the interval of n. */
  lemma MatchesIffInterval(lens: seq<nat>, n: nat, v: nat)
    requires Fits(lens) && n < |lens| && lens[n] <= MAX_BITS
    ensures Matches(lens, n, v) <==>
      lens[n] != 0 && Start(lens, n) <= Rev(v, MAX_BITS) < Start(lens, n) + Size(lens[n])
  {
    var l := lens[n];
    if l != 0 {
      CodeBound(lens, n);
      var c := CodeOf(lens, n);
      LowSmall(c, l);
      RevRev(c, l);
      RevRev(v, l);
      RevLowBits(v, l, l);
      RevTop(v, l, MAX_BITS);
      ShrIff(Rev(v, MAX_BITS), c, MAX_BITS - l);
    }
  }

  /** The canonical code is prefix-free: at most one symbol's code begins any stream. */
  lemma PrefixFree(lens: seq<nat>, m: nat, n: nat, v: nat)
    requires ValidLens(lens) && Fits(lens)
    requires m < |lens| && n < |lens| && Matches(lens, m, v) && Matches(lens, n, v)
    ensures m == n
  {
    MatchesIffInterval(lens, m, v);
    MatchesIffInterval(lens, n, v);
    if m != n {
      if Before(lens, m, n) {
        Disjoint(lens, m, n);
      } else {
        Disjoint(lens, n, m);
      }
    }
  }

  lemma {:induction false} LengthOfPosition(lens: seq<nat>, p: nat, l: nat) returns (k: nat)
    requires 1 <= l <= MAX_BITS + 1 && p < Base(lens, l)
    ensures 1 <= k < l && Base(lens, k) <= p < Base(lens, k + 1)
  {
    if Base(lens, l - 1) <= p {
      k := l - 1;
    } else {
      k := LengthOfPosition(lens, p, l - 1);
    }
  }

  /** A position below the total is inside the interval of exactly the symbol found here. */
  lemma SymbolAt(lens: seq<nat>, v: nat) returns (n: nat)
    requires ValidLens(lens) && Fits(lens)
    requires Rev(v, MAX_BITS) < Base(lens, MAX_BITS + 1)
    ensures n < |lens| && Matches(lens, n, v)
  {
    var p := Rev(v, MAX_BITS);
    var l := LengthOfPosition(lens, p, MAX_BITS + 1);
    var r := Shr(p - Base(lens, l), MAX_BITS - l);
    ShrIff(p - Base(lens, l), r, MAX_BITS - l);
    if Count(lens, l) <= r {
      ShlMono(Count(lens, l), r, MAX_BITS - l);
    }
    n := SymbolWithRank(lens, l, r);
    StartByRank(lens, n);
    MatchesIffInterval(lens, n, v);
  }

  /** A complete code decodes every stream: some symbol's code begins it. */
  lemma Total(lens: seq<nat>, v: nat) returns (n: nat)
    requires ValidLens(lens) && Complete(lens)
    ensures n < |lens| && Matches(lens, n, v)
  {
    n := SymbolAt(lens, v);
  }

  // ----- symbols in sorted order -----

  /** Where the symbols of length l begin in the sorted order. */
  function Off(lens: seq<nat>, l: nat): nat {
    if l <= 1 then 0 else Off(lens, l - 1) + Count(lens, l - 1)
  }

  lemma {:induction false} OffMono(lens: seq<nat>, l: nat, m: nat)
    requires l <= m
    ensures Off(lens, l) <= Off(lens, m)
    ensures 1 <= l < m ==> Off(lens, l) + Count(lens, l) <= Off(lens, m)
    decreases m
  {
    if l < m {
      OffMono(lens, l, m - 1);
    }
  }

  lemma {:induction false} OffTotal(lens: seq<nat>, l: nat)
    ensures Off(lens, l) <= |lens|
  {
    if lens != [] {
      var k := |lens| - 1;
      OffTotal(lens[..k], l);
      OffDrop(lens, l);
    } else {
      OffEmpty(l);
    }
  }

  lemma {:induction false} OffEmpty(l: nat)
    ensures Off([], l) == 0
  {
    if l > 1 {
      OffEmpty(l - 1);
    }
  }

  lemma {:induction false} OffDrop(lens: seq<nat>, l: nat)
    requires lens != []
    ensures Off(lens, l) == Off(lens[..|lens| - 1], l) + (if 1 <= lens[|lens| - 1] < l then 1 else 0)
  {
    if l > 1 {
      OffDrop(lens, l - 1);
    }
  }

  // ----- trees.c -----

  /** bi_reverse: reverse the first len bits of a code. */
  method BiReverse(value: nat, length: nat) returns (r: nat)
    requires 1 <= length <= MAX_BITS
    ensures r == Rev(value, length)
  {
    var code, len, res := value, length, 0;
    ghost var i := 0;
    while true
      invariant i < length && len == length - i
      invariant code == Shr(value, i) && res == 2 * Rev(value, i)
      decreases len
    {
      OrDisjoint(code % 2, Rev(value, i), 1);
      assert Shl(Rev(value, i), 1) == res;
      res := Or(res, code % 2);
      assert res == Rev(value, i + 1);
      code, res := code / 2, 2 * res;
      ShrShr(value, i, 1);
      i := i + 1;
      len := len - 1;
      if len == 0 { break; }
    }
    return res / 2;
  }

  /** The first loop of gen_codes: the first code of every length. */
  method FirstCodes(ghost lens: seq<nat>, blCount: array<nat>) returns (nextCode: array<nat>)
    requires Fits(lens) && blCount.Length == MAX_BITS + 1 && blCount[0] == 0
    requires forall l {:trigger blCount[l]} :: 1 <= l <= MAX_BITS ==> blCount[l] == Count(lens, l)
    ensures fresh(nextCode) && nextCode.Length == MAX_BITS + 1
    ensures forall l {:trigger nextCode[l]} :: 1 <= l <= MAX_BITS ==> nextCode[l] == FirstCode(lens, l)
  {
    hide Fits, Low, Count, Pow2;
    nextCode := new nat[MAX_BITS + 1];
    var code := 0;
    for bits := 1 to MAX_BITS + 1
      invariant code == FirstCode(lens, bits - 1)
      invariant forall l {:trigger nextCode[l]} :: 1 <= l < bits ==> nextCode[l] == FirstCode(lens, l)
    {
      code := (code + blCount[bits - 1]) * 2;
      assert code == FirstCode(lens, bits);
      FirstCodeBound(lens, bits);
      nextCode[bits] := Low(code, 16);
    }
  }

  /** next_code[] when the symbols below n have been given their codes. */
  ghost predicate NextCodes(next: seq<nat>, lens: seq<nat>, n: nat)
    requires n <= |lens|
  {
    |next| == MAX_BITS + 1 &&
    forall l {:trigger next[l]} :: 1 <= l <= MAX_BITS ==> next[l] == FirstCode(lens, l) + Count(lens[..n], l)
  }

  lemma HuffIs(lens: seq<nat>, n: nat, code: nat)
    requires n < |lens| && code == CodeOf(lens, n)
    ensures Huff(lens, n) == Rev(code, lens[n])
  {}

  lemma NextCodesStep(next: seq<nat>, lens: seq<nat>, n: nat)
    requires n < |lens| && ValidLens(lens) && NextCodes(next, lens, n)
    ensures lens[n] == 0 ==> NextCodes(next, lens, n + 1)
    ensures lens[n] != 0 ==> next[lens[n]] == CodeOf(lens, n)
    ensures lens[n] != 0 ==> NextCodes(next[lens[n] := next[lens[n]] + 1], lens, n + 1)
  {
    CountStepAll(lens, n);
  }

  /**
    gen_codes: given the lengths in dl[0..maxCode] and their statistics, leave in fc each
    symbol's canonical code, bit-reversed. The union of frequency and code is the array fc.
   */
  method GenCodes(fc: array<nat>, dl: array<nat>, maxCode: int, blCount: array<nat>)
    requires fc != dl && blCount != fc && blCount.Length == MAX_BITS + 1
    requires -1 <= maxCode < fc.Length && maxCode < dl.Length
    requires ValidLens(dl[..maxCode + 1]) && Fits(dl[..maxCode + 1]) && blCount[0] == 0
    requires forall l {:trigger blCount[l]} :: 1 <= l <= MAX_BITS ==> blCount[l] == Count(dl[..maxCode + 1], l)
    modifies fc
    ensures forall n {:trigger fc[n]} :: 0 <= n <= maxCode && dl[n] != 0 ==> fc[n] == Huff(dl[..maxCode + 1], n)
    ensures forall n :: 0 <= n < fc.Length && (maxCode < n || dl[n] == 0) ==> fc[n] == old(fc[n])
  {
    hide Fits, Huff, FirstCode;
    ghost var lens := dl[..maxCode + 1];
    var nextCode := FirstCodes(lens, blCount);
    for n := 0 to maxCode + 1
      invariant NextCodes(nextCode[..], lens, n)
      invariant forall k {:trigger fc[k]} :: 0 <= k < n && lens[k] != 0 ==> fc[k] == Huff(lens, k)
      invariant forall k :: 0 <= k < fc.Length && (n <= k || lens[k] == 0) ==> fc[k] == old(fc[k])
    {
      var len := dl[n];
      NextCodesStep(nextCode[..], lens, n);
      if len != 0 {
        ghost var next := nextCode[..];
        var r := BiReverse(nextCode[len], len);
        assert r == Huff(lens, n) by { HuffIs(lens, n, nextCode[len]); }
        nextCode[len] := nextCode[len] + 1;
        assert nextCode[..] == next[len := next[len] + 1];
        fc[n] := r;
      }
    }
  }

  lemma CountStepAll(lens: seq<nat>, i: nat)
    requires i < |lens|
    ensures forall l :: Count(lens[..i + 1], l) == Count(lens[..i], l) + (if lens[i] == l then 1 else 0)
  {
    forall l ensures Count(lens[..i + 1], l) == Count(lens[..i], l) + (if lens[i] == l then 1 else 0) {
      CountStep(lens, i, l);
    }
  }

  /** The running code never leaves 16 bits, so storing it in an unsigned short loses nothing. */
  lemma FirstCodeBound(lens: seq<nat>, l: nat)
    requires Fits(lens) && 1 <= l <= MAX_BITS
    ensures Low(FirstCode(lens, l), 16) == FirstCode(lens, l)
  {
    BaseIsFirstCode(lens, l);
    BaseMono(lens, l, MAX_BITS + 1);
    Pow2Values();
    Pow2Mono(l, MAX_BITS);
    if Pow2(l) < FirstCode(lens, l) {
      ShlMono(Pow2(l), FirstCode(lens, l), MAX_BITS - l);
      ShlShl(1, l, MAX_BITS - l);
    }
    LowSmall(FirstCode(lens, l), 16);
  }
}
