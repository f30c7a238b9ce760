/**
  inflate_table (inftrees.c): build the lookup tables for a vector of code lengths.
 */
module InflateTable {
  import opened Bits
  import opened Canonical
  import opened DecodeTable
  import opened TableSpace

  /** Symbols sorted by length, and by symbol order within each length. */
  ghost predicate Sorted(work: seq<nat>, lens: seq<nat>) {
    forall n {:trigger Rank(lens, n)} :: 0 <= n < |lens| && 1 <= lens[n] <= MAX_BITS ==>
      Off(lens, lens[n]) + Rank(lens, n) < |work| && work[Off(lens, lens[n]) + Rank(lens, n)] == n
  }

  ghost predicate Counts(count: seq<nat>, lens: seq<nat>) {
    |count| == MAX_BITS + 1 &&
    forall l {:trigger count[l]} :: 0 <= l <= MAX_BITS ==> count[l] == Count(lens, l)
  }

  method CountLengths(lens: seq<nat>) returns (count: array<nat>)
    requires ValidLens(lens)
    ensures fresh(count) && Counts(count[..], lens)
  {
    count := new nat[MAX_BITS + 1];
    for len := 0 to MAX_BITS + 1
      invariant forall l :: 0 <= l < len ==> count[l] == 0
    {
      count[len] := 0;
    }
    for sym := 0 to |lens|
      invariant forall l {:trigger count[l]} :: 0 <= l <= MAX_BITS ==> count[l] == Count(lens[..sym], l)
    {
      CountStepAll(lens, sym);
      count[lens[sym]] := count[lens[sym]] + 1;
    }
    assert lens[..|lens|] == lens;
  }

  lemma {:induction false} CountZero(lens: seq<nat>, l: nat)
    ensures Count(lens, l) == 0 <==> forall i :: 0 <= i < |lens| ==> lens[i] != l
  {
    if lens != [] {
      CountZero(lens[..|lens| - 1], l);
    }
  }

  /** The longest length in use, 0 if there is none. */
  method LongestCode(lens: seq<nat>, count: array<nat>) returns (max: nat)
    requires ValidLens(lens) && Counts(count[..], lens)
    ensures max <= MAX_BITS && (max > 0 ==> Count(lens, max) > 0)
    ensures forall l {:trigger Count(lens, l)} :: max < l <= MAX_BITS ==> Count(lens, l) == 0
    ensures forall i :: 0 <= i < |lens| ==> lens[i] <= max
  {
    max := MAX_BITS;
    while max >= 1 && count[max] == 0
      invariant max <= MAX_BITS
      invariant forall l {:trigger Count(lens, l)} :: max < l <= MAX_BITS ==> Count(lens, l) == 0
    {
      assert count[..][max] == Count(lens, max);
      max := max - 1;
    }
    assert max > 0 ==> count[..][max] == Count(lens, max);
    forall i | 0 <= i < |lens| ensures lens[i] <= max {
      CountZero(lens, lens[i]);
    }
  }

  method ShortestCode(ghost lens: seq<nat>, count: array<nat>, max: nat) returns (min: nat)
    requires Counts(count[..], lens) && 1 <= max <= MAX_BITS && Count(lens, max) > 0
    ensures 1 <= min <= max && Count(lens, min) > 0
    ensures forall l {:trigger Count(lens, l)} :: 1 <= l < min ==> Count(lens, l) == 0
  {
    min := 1;
    while min < max && count[min] == 0
      invariant 1 <= min <= max
      invariant forall l {:trigger Count(lens, l)} :: 1 <= l < min ==> Count(lens, l) == 0
    {
      assert count[..][min] == Count(lens, min);
      min := min + 1;
    }
    assert min < max ==> count[..][min] == Count(lens, min);
  }

  /** The number of codes still available, or -1 when the lengths are over-subscribed. */
  method CodesLeft(ghost lens: seq<nat>, count: array<nat>) returns (left: int)
    requires Counts(count[..], lens)
    ensures left < 0 <==> !Fits(lens)
    ensures left == 0 ==> Complete(lens)
    ensures left > 0 ==> !Complete(lens)
  {
    hide Fits, Complete;
    left := 1;
    for len := 1 to MAX_BITS + 1
      invariant left >= 1 || left == 0
      invariant Shl(left, MAX_BITS - (len - 1)) + Base(lens, len) == Pow2(MAX_BITS)
    {
      assert count[..][len] == Count(lens, len);
      LeftStep(lens, left, len);
      left := left * 2;
      left := left - count[len];
      if left < 0 { return -1; }
    }
    LeftEnd(lens, left);
  }

  lemma LeftStep(lens: seq<nat>, left: nat, len: nat)
    requires 1 <= len <= MAX_BITS
    requires Shl(left, MAX_BITS - (len - 1)) + Base(lens, len) == Pow2(MAX_BITS)
    ensures 2 * left < Count(lens, len) ==> !Fits(lens)
    ensures 2 * left >= Count(lens, len) ==>
              Shl(2 * left - Count(lens, len), MAX_BITS - len) + Base(lens, len + 1) == Pow2(MAX_BITS)
  {
    hide Shl, Pow2, Fits, Count;
    var k := MAX_BITS - len;
    TwiceShl(left, k);
    BaseStep(lens, len);
    if 2 * left < Count(lens, len) {
      ShlMono(2 * left, Count(lens, len), k);
      OverSubscribed(lens, len + 1);
    } else {
      ShlAdd(2 * left - Count(lens, len), Count(lens, len), k);
    }
  }

  lemma TwiceShl(v: nat, k: nat)
    ensures Shl(2 * v, k) == Shl(v, k + 1)
  {
    ShlShl(v, 1, k);
    assert Shl(v, 1) == 2 * v;
  }

  lemma OverSubscribed(lens: seq<nat>, len: nat)
    requires len <= MAX_BITS + 1 && Base(lens, len) > Pow2(MAX_BITS)
    ensures !Fits(lens)
  {
    BaseMono(lens, len, MAX_BITS + 1);
  }

  lemma LeftEnd(lens: seq<nat>, left: nat)
    requires Shl(left, 0) + Base(lens, MAX_BITS + 1) == Pow2(MAX_BITS)
    ensures Fits(lens) && (left == 0 <==> Complete(lens))
  {}

  method SortSymbols(lens: seq<nat>, count: array<nat>) returns (work: array<nat>)
    requires ValidLens(lens) && Counts(count[..], lens)
    ensures fresh(work) && Sorted(work[..], lens)
    ensures work.Length == |lens|
  {
    var offs := new nat[MAX_BITS + 1];
    offs[1] := 0;
    for len := 1 to MAX_BITS
      invariant forall l {:trigger offs[l]} :: 1 <= l <= len ==> offs[l] == Off(lens, l)
    {
      assert count[..][len] == Count(lens, len);
      offs[len + 1] := offs[len] + count[len];
    }
    work := new nat[|lens|];
    for sym := 0 to |lens|
      invariant forall l {:trigger offs[l]} :: 1 <= l <= MAX_BITS ==> offs[l] == Off(lens, l) + Count(lens[..sym], l)
      invariant forall n {:trigger Rank(lens, n)} :: 0 <= n < sym && lens[n] != 0 ==>
                  Off(lens, lens[n]) + Rank(lens, n) < |lens| && work[Off(lens, lens[n]) + Rank(lens, n)] == n
    {
      CountStepAll(lens, sym);
      if lens[sym] != 0 {
        ghost var pos := Off(lens, lens[sym]) + Rank(lens, sym);
        SlotBound(lens, sym);
        SlotsDiffer(lens, sym);
        work[offs[lens[sym]]] := sym;
        offs[lens[sym]] := offs[lens[sym]] + 1;
      }
    }
  }

  lemma SlotsDiffer(lens: seq<nat>, n: nat)
    requires n < |lens| && lens[n] != 0
    ensures forall m {:trigger Rank(lens, m)} :: 0 <= m < n && lens[m] != 0 ==>
              Off(lens, lens[m]) + Rank(lens, m) != Off(lens, lens[n]) + Rank(lens, n)
  {
    forall m {:trigger Rank(lens, m)} | 0 <= m < n && lens[m] != 0
      ensures Off(lens, lens[m]) + Rank(lens, m) != Off(lens, lens[n]) + Rank(lens, n)
    {
      RankBound(lens, m);
      RankBound(lens, n);
      if lens[m] < lens[n] {
        OffMono(lens, lens[m], lens[n]);
      } else if lens[n] < lens[m] {
        OffMono(lens, lens[n], lens[m]);
      } else {
        CountMono(lens, m, n, lens[n]);
      }
    }
  }

  lemma SlotBound(lens: seq<nat>, n: nat)
    requires ValidLens(lens) && n < |lens| && lens[n] != 0
    ensures Off(lens, lens[n]) + Rank(lens, n) < |lens|
  {
    RankBound(lens, n);
    OffMono(lens, lens[n], MAX_BITS + 1);
    OffTotal(lens, MAX_BITS + 1);
  }

  // ----- filling -----

  /** Replicate an entry over the indices of the current table whose low k bits are h. */
  method Replicate(table: array<Entry>, next: nat, curr: nat, h: nat, k: nat, here: Entry)
    requires k <= curr && h < Pow2(k) && next + Pow2(curr) <= table.Length
    modifies table
    ensures Replicated(old(table[..]), table[..], next, curr, h, k, here)
  {
    hide Shl, Low;
    ghost var q := Pow2(curr - k);
    ShlShl(1, curr - k, k);
    var incr, fill := Pow2(k), Pow2(curr);
    while true
      invariant 1 <= q && fill == Shl(q, k) <= Pow2(curr)
      invariant forall j :: 0 <= j < next + fill || next + Pow2(curr) <= j < table.Length ==>
                  table[j] == old(table[j])
      invariant forall j :: next + fill <= j < next + Pow2(curr) ==>
                  table[j] == if Low(j - next, k) == h then here else old(table[j])
      decreases q
    {
      ShlAdd(q - 1, 1, k);
      fill, q := fill - incr, q - 1;
      LowInBlock(q, k);
      table[next + h + fill] := here;
      ShlZero(k);
      if fill == 0 { break; }
    }
  }

  lemma LowInBlock(q: nat, k: nat)
    ensures forall i: nat {:trigger Low(i, k)} :: Shl(q, k) <= i < Shl(q, k) + Pow2(k) ==> Low(i, k) == i - Shl(q, k)
  {
    forall i: nat {:trigger Low(i, k)} | Shl(q, k) <= i < Shl(q, k) + Pow2(k)
      ensures Low(i, k) == i - Shl(q, k)
    {
      LowShrUnique(i - Shl(q, k), q, k);
    }
  }

  /** The reversed code that follows huff among the codes of length len. */
  function NextHuff(huff: nat, len: nat): nat {
    if len == 0 then 0
    else if Shr(huff, len - 1) % 2 == 1 then NextHuff(huff, len - 1)
    else Low(huff, len - 1) + Pow2(len - 1)
  }

  /** Setting the first clear bit from the top increments the reversal. */
  lemma SetTopBit(huff: nat, k: nat)
    ensures var x := Low(huff, k) + Pow2(k);
            x < Pow2(k + 1) && Rev(x, k + 1) == 2 * Rev(huff, k) + 1
  {
    hide Low, Shr, Shl;
    var x := Low(huff, k) + Pow2(k);
    LowShrUnique(Low(huff, k), 1, k);
    RevLowBits(huff, k, k);
    RevLowBits(x, k, k);
    Pow2Mono(k, k + 1);
  }

  /** Incrementing the reversed code backwards is incrementing the code. */
  lemma {:induction false} NextHuffIncrements(huff: nat, len: nat)
    ensures NextHuff(huff, len) < Pow2(len)
    ensures Rev(huff, len) + 1 == Pow2(len) ==> NextHuff(huff, len) == 0
    ensures Rev(huff, len) + 1 != Pow2(len) ==> Rev(NextHuff(huff, len), len) == Rev(huff, len) + 1
  {
    if len > 0 {
      if Shr(huff, len - 1) % 2 == 1 {
        NextHuffIncrements(huff, len - 1);
        hide Low, Shr;
        LowSmall(NextHuff(huff, len - 1), len - 1);
      } else {
        SetTopBit(huff, len - 1);
        hide Low, Shr;
      }
    }
  }

  /** The backwards increment; incr of the source is 1 << (k - 1), or 0 once k is 0. */
  method Increment(huff: nat, len: nat) returns (r: nat)
    requires 1 <= len
    ensures r == NextHuff(huff, len) < Pow2(len)
    ensures Rev(huff, len) + 1 == Pow2(len) ==> r == 0
    ensures Rev(huff, len) + 1 != Pow2(len) ==> Rev(r, len) == Rev(huff, len) + 1
  {
    NextHuffIncrements(huff, len);
    var k := len;
    while k > 0 && Shr(huff, k - 1) % 2 == 1
      invariant k <= len && NextHuff(huff, k) == NextHuff(huff, len)
    {
      k := k - 1;
    }
    if k != 0 {
      r := Low(huff, k - 1);
      r := r + Pow2(k - 1);
    } else {
      r := 0;
    }
  }

  /** The reversed code determines the code and back. */
  lemma RevHuff(lens: seq<nat>, n: nat)
    requires ValidLens(lens) && Fits(lens) && n < |lens| && lens[n] != 0
    ensures Rev(Huff(lens, n), lens[n]) == CodeOf(lens, n)
  {
    CodeBound(lens, n);
    LowSmall(CodeOf(lens, n), lens[n]);
    RevRev(CodeOf(lens, n), lens[n]);
  }

  lemma PositionStep(lens: seq<nat>, c: nat)
    requires ValidLens(lens) && Fits(lens) && c < |lens| && lens[c] != 0
    ensures NextHuff(Huff(lens, c), lens[c]) < Pow2(lens[c])
    ensures Start(lens, c) + Size(lens[c]) <= Pow2(MAX_BITS)
    ensures Start(lens, c) + Size(lens[c]) == Pow2(MAX_BITS) ==> NextHuff(Huff(lens, c), lens[c]) == 0
    ensures Start(lens, c) + Size(lens[c]) < Pow2(MAX_BITS) ==>
              Rev(NextHuff(Huff(lens, c), lens[c]), MAX_BITS) == Start(lens, c) + Size(lens[c])
  {
    hide NextHuff, Rev, Huff, CodeOf, Low, Shr, Shl, Fits;
    var l, code := lens[c], CodeOf(lens, c);
    var x := NextHuff(Huff(lens, c), l);
    CodeBound(lens, c);
    RevHuff(lens, c);
    NextHuffIncrements(Huff(lens, c), l);
    RevWiden(x, l, MAX_BITS);
    ShlShl(1, l, MAX_BITS - l);
    ShlAdd(code, 1, MAX_BITS - l);
    if code + 1 != Pow2(l) {
      ShlMono(code + 1, Pow2(l), MAX_BITS - l);
    }
  }

  // ----- from one code to the next -----

  /** Slot sym of the sorted order holds symbol c; count[] says what is left from here on. */
  ghost predicate AtSymbol(lens: seq<nat>, work: seq<nat>, count: seq<nat>, sym: nat, c: nat) {
    && c < |lens| && 1 <= lens[c] <= MAX_BITS
    && sym == Off(lens, lens[c]) + Rank(lens, c) && sym < |work| && work[sym] == c
    && |count| == MAX_BITS + 1 && count[lens[c]] == Count(lens, lens[c]) - Rank(lens, c)
    && forall l {:trigger count[l]} :: lens[c] < l <= MAX_BITS ==> count[l] == Count(lens, l)
  }

  lemma {:induction false} NextLength(lens: seq<nat>, len: nat, max: nat) returns (l: nat)
    requires len < max && Count(lens, max) > 0
    ensures len < l <= max && Count(lens, l) > 0
    ensures Off(lens, l) == Off(lens, len + 1)
    ensures max <= MAX_BITS ==> Base(lens, l) == Base(lens, len + 1)
    decreases max - len
  {
    if Count(lens, len + 1) > 0 {
      l := len + 1;
    } else {
      l := NextLength(lens, len + 1, max);
      if max <= MAX_BITS {
        ShlZero(MAX_BITS - (len + 1));
      }
    }
  }

  /** The symbol after c in the sorted order starts where the interval of c ends. */
  lemma NextSymbol(lens: seq<nat>, work: seq<nat>, count: seq<nat>, sym: nat, c: nat, max: nat) returns (d: nat)
    requires ValidLens(lens) && Sorted(work, lens) && AtSymbol(lens, work, count, sym, c)
    requires max <= MAX_BITS && Count(lens, max) > 0 && 1 <= count[lens[c]]
    requires count[lens[c]] == 1 ==> lens[c] < max
    ensures var count' := count[lens[c] := count[lens[c]] - 1]; AtSymbol(lens, work, count', sym + 1, d)
    ensures count[lens[c]] > 1 ==> lens[d] == lens[c]
    ensures lens[c] <= lens[d] && Start(lens, d) == Start(lens, c) + Size(lens[c])
  {
    hide Count, Start, Base, Shl;
    var l, r := lens[c], Rank(lens, c);
    RankBound(lens, c);
    if count[l] > 1 {
      d := SymbolWithRank(lens, l, r + 1);
    } else {
      var m := NextLength(lens, l, max);
      d := SymbolWithRank(lens, m, 0);
    }
    StartsAdjacent(lens, c, d);
  }

  lemma StartsAdjacent(lens: seq<nat>, c: nat, d: nat)
    requires ValidLens(lens) && c < |lens| && d < |lens| && lens[c] != 0 && lens[d] != 0
    requires || (lens[c] == lens[d] && Rank(lens, d) == Rank(lens, c) + 1)
             || (Rank(lens, c) + 1 == Count(lens, lens[c]) && Rank(lens, d) == 0 &&
                 Base(lens, lens[d]) == Base(lens, lens[c] + 1))
    ensures Start(lens, d) == Start(lens, c) + Size(lens[c])
  {
    hide Count, Start, Rank, Shl, FirstCode, CodeOf;
    StartByRank(lens, c);
    StartByRank(lens, d);
    ShlAdd(Rank(lens, c), 1, MAX_BITS - lens[c]);
    ShlZero(MAX_BITS - lens[d]);
  }

  /** A register holding the right position holds the right code. */
  lemma HuffByPosition(lens: seq<nat>, d: nat, huff: nat, len: nat)
    requires ValidLens(lens) && Fits(lens) && d < |lens| && 1 <= len <= lens[d]
    requires huff < Pow2(len) && Rev(huff, MAX_BITS) == Start(lens, d)
    ensures huff == Huff(lens, d)
  {
    hide Rev, Shl, Low, Fits, CodeOf, Pow2;
    var l := lens[d];
    Pow2Mono(len, l);
    RevWiden(huff, l, MAX_BITS);
    ShlInjective(Rev(huff, l), CodeOf(lens, d), MAX_BITS - l);
    RevRev(huff, l);
    LowSmall(huff, l);
  }

  lemma ShlInjective(a: nat, b: nat, k: nat)
    requires Shl(a, k) == Shl(b, k)
    ensures a == b
  {
    if a < b {
      ShlMono(a, b, k);
    } else if b < a {
      ShlMono(b, a, k);
    }
  }

  /** The last code ends the whole tiling. */
  lemma LastSymbol(lens: seq<nat>, c: nat)
    requires ValidLens(lens) && c < |lens| && lens[c] != 0
    requires Rank(lens, c) + 1 == Count(lens, lens[c])
    requires forall l {:trigger Count(lens, l)} :: lens[c] < l <= MAX_BITS ==> Count(lens, l) == 0
    ensures Start(lens, c) + Size(lens[c]) == Base(lens, MAX_BITS + 1)
  {
    hide Count, Start, Rank, Shl, FirstCode, CodeOf;
    StartByRank(lens, c);
    ShlAdd(Rank(lens, c), 1, MAX_BITS - lens[c]);
    BaseFlat(lens, lens[c] + 1);
  }

  lemma {:induction false} BaseFlat(lens: seq<nat>, m: nat)
    requires 1 <= m <= MAX_BITS + 1
    requires forall l {:trigger Count(lens, l)} :: m <= l <= MAX_BITS ==> Count(lens, l) == 0
    ensures Base(lens, m) == Base(lens, MAX_BITS + 1)
    decreases MAX_BITS + 1 - m
  {
    if m <= MAX_BITS {
      BaseFlat(lens, m + 1);
      ShlZero(MAX_BITS - m);
      assert Count(lens, m) == 0;
    }
  }

  // ----- sub-tables -----

  /** Every code in the block named low fits a sub-table indexed by curr bits. */
  ghost predicate Covers(lens: seq<nat>, root: nat, curr: nat, low: nat) {
    forall n :: 0 <= n < |lens| && lens[n] > root && Low(Huff(lens, n), root) == low ==> lens[n] <= root + curr
  }

  /** Where the block of a code lies in code space. */
  lemma BlockOf(lens: seq<nat>, n: nat, root: nat)
    requires ValidLens(lens) && Fits(lens) && n < |lens| && 1 <= root < lens[n]
    ensures Rev(Low(Huff(lens, n), root), root) == Shr(Start(lens, n), MAX_BITS - root)
  {
    hide Rev, Low, Shr, Start, Fits, Huff;
    HuffAtStart(lens, n);
    RootBits(Huff(lens, n), root);
  }

  /** When the block changes, no code already entered lies in the new one. */
  lemma FreshBlock(lens: seq<nat>, c: nat, d: nat, root: nat)
    requires ValidLens(lens) && Fits(lens) && c < |lens| && d < |lens| && 1 <= root < lens[d]
    requires lens[c] != 0 && Start(lens, d) == Start(lens, c) + Size(lens[c])
    requires lens[c] > root ==> Low(Huff(lens, c), root) != Low(Huff(lens, d), root)
    ensures forall n :: 0 <= n < |lens| && Done(lens, n, Start(lens, d)) && lens[n] > root ==>
              Low(Huff(lens, n), root) != Low(Huff(lens, d), root)
  {
    hide Rev, Low, Shr, Start, Fits, Huff;
    forall n | 0 <= n < |lens| && Done(lens, n, Start(lens, d)) && lens[n] > root
      ensures Low(Huff(lens, n), root) != Low(Huff(lens, d), root)
    {
      DoneStep(lens, c, n);
      if lens[c] > root && Low(Huff(lens, n), root) == Low(Huff(lens, d), root) {
        BlockOf(lens, n, root);
        BlockOf(lens, c, root);
        BlockOf(lens, d, root);
        ShrMono(Start(lens, n), Start(lens, c), MAX_BITS - root);
        ShrMono(Start(lens, c), Start(lens, d), MAX_BITS - root);
        SameRev(Low(Huff(lens, c), root), Low(Huff(lens, d), root), root);
      }
    }
  }

  lemma SameRev(a: nat, b: nat, n: nat)
    requires a < Pow2(n) && b < Pow2(n) && Rev(a, n) == Rev(b, n)
    ensures a == b
  {
    RevRev(a, n);
    RevRev(b, n);
    LowSmall(a, n);
    LowSmall(b, n);
  }

  /** A new block is entered exactly at its beginning. */
  lemma BlockAligned(lens: seq<nat>, c: nat, d: nat, root: nat)
    requires ValidLens(lens) && Fits(lens) && c < |lens| && d < |lens| && 1 <= root < lens[d]
    requires lens[c] != 0 && Start(lens, d) == Start(lens, c) + Size(lens[c])
    requires lens[c] > root ==> Low(Huff(lens, c), root) != Low(Huff(lens, d), root)
    ensures Start(lens, d) == Shl(Shr(Start(lens, d), MAX_BITS - root), MAX_BITS - root)
  {
    hide Rev, Low, Shr, Fits, Huff, CodeOf, Shl;
    var w := MAX_BITS - root;
    var code, l := CodeOf(lens, c), lens[c];
    ShlAdd(code, 1, MAX_BITS - l);
    if l <= root {
      ShlShl(code + 1, root - l, w);
      ShlZero(w);
      assert root - l + w == MAX_BITS - l;
      Exact(Shl(code + 1, root - l), w);
    } else {
      BlockOf(lens, c, root);
      BlockOf(lens, d, root);
      var q := Shr(Start(lens, c), w);
      if Shr(Start(lens, d), w) == q {
        SameRev(Low(Huff(lens, c), root), Low(Huff(lens, d), root), root);
      }
      assert l - root + (MAX_BITS - l) == w;
      AlignedStep(code, l - root, MAX_BITS - l, q);
    }
  }

  lemma Exact(x: nat, w: nat)
    ensures Shr(Shl(x, w), w) == x
  {
    ShrIff(Shl(x, w), x, w);
  }

  /** Stepping by one tile either stays in a block of 2^k tiles or lands on the next boundary. */
  lemma AlignedStep(code: nat, k: nat, s: nat, q: nat)
    requires q == Shr(Shl(code, s), k + s) && Shr(Shl(code + 1, s), k + s) != q
    ensures Shl(code + 1, s) == Shl(Shr(Shl(code + 1, s), k + s), k + s)
  {
    hide Shl, Shr;
    Exact(code, s);
    Exact(code + 1, s);
    ShrShr(Shl(code, s), s, k);
    ShrShr(Shl(code + 1, s), s, k);
    assert s + k == k + s;
    ShrIff(code, q, k);
    ShrIff(code + 1, q, k);
    ShlAdd(q, 1, k);
    assert code + 1 == Shl(q + 1, k);
    Exact(q + 1, k);
    ShlShl(q + 1, k, s);
  }

  lemma CoversBy(lens: seq<nat>, d: nat, root: nat, curr: nat, max: nat)
    requires ValidLens(lens) && Fits(lens) && d < |lens| && 1 <= root < lens[d] && root + curr <= max <= MAX_BITS
    requires forall i :: 0 <= i < |lens| ==> lens[i] <= max
    requires Start(lens, d) == Shl(Shr(Start(lens, d), MAX_BITS - root), MAX_BITS - root)
    requires root + curr == max || Base(lens, root + curr + 1) >= Start(lens, d) + Pow2(MAX_BITS - root)
    ensures Covers(lens, root, curr, Low(Huff(lens, d), root))
  {
    hide Rev, Low, Shr, Fits, Huff, CodeOf, Shl, Base, Start, Pow2;
    forall n | 0 <= n < |lens| && lens[n] > root && Low(Huff(lens, n), root) == Low(Huff(lens, d), root)
      ensures lens[n] <= root + curr
    {
      BlockOf(lens, n, root);
      BlockOf(lens, d, root);
      var q := Shr(Start(lens, d), MAX_BITS - root);
      ShrIff(Start(lens, n), q, MAX_BITS - root);
      if lens[n] > root + curr {
        BaseMono(lens, root + curr + 1, lens[n]);
        StartByRank(lens, n);
      }
    }
  }

  /** How many codes of the block come before those of root + curr bits. */
  ghost predicate Level(lens: seq<nat>, sym: nat, d: nat, l: nat, taken: nat)
    requires d < |lens|
  {
    if l == lens[d] then taken == 0 else sym + taken == Off(lens, l)
  }

  lemma LevelStep(lens: seq<nat>, work: seq<nat>, count: seq<nat>, sym: nat, d: nat, l: nat, taken: nat)
    requires AtSymbol(lens, work, count, sym, d) && lens[d] <= l <= MAX_BITS && Level(lens, sym, d, l, taken)
    ensures Level(lens, sym, d, l + 1, taken + count[l])
  {
    hide Count, Rank;
  }

  /** The codes of the block end `left` codes after the first of l bits. */
  lemma BlockEnd(lens: seq<nat>, work: seq<nat>, count: seq<nat>, sym: nat, d: nat, root: nat, l: nat, left: nat, taken: nat)
    requires ValidLens(lens) && AtSymbol(lens, work, count, sym, d) && lens[d] <= l <= MAX_BITS && root <= MAX_BITS
    requires Level(lens, sym, d, l, taken) && left <= count[l]
    requires Shl(left, MAX_BITS - l) + (if l == lens[d] then Start(lens, d) else Base(lens, l))
             == Start(lens, d) + Pow2(MAX_BITS - root)
    ensures Beyond(lens, Start(lens, d) + Pow2(MAX_BITS - root), sym + taken + left, l)
    ensures sym + taken + left <= Off(lens, MAX_BITS + 1)
  {
    hide Count, Start, Base, Shl, FirstCode, CodeOf, Beyond, Off;
    var r := left + if l == lens[d] then Rank(lens, d) else 0;
    if l == lens[d] {
      StartByRank(lens, d);
      RankBound(lens, d);
      ShlAdd(Rank(lens, d), left, MAX_BITS - l);
    }
    BeyondBy(lens, Start(lens, d) + Pow2(MAX_BITS - root), l, r);
    OffMono(lens, l, MAX_BITS + 1);
  }

  /** At the greatest length, what is left of the block is no more than the codes there are. */
  lemma LeftAtMax(lens: seq<nat>, work: seq<nat>, count: seq<nat>, sym: nat, d: nat, root: nat, max: nat, left: nat)
    requires AtSymbol(lens, work, count, sym, d) && 1 <= root < lens[d] <= max <= MAX_BITS && Complete(lens)
    requires forall l {:trigger Count(lens, l)} :: max < l <= MAX_BITS ==> Count(lens, l) == 0
    requires Start(lens, d) == Shl(Shr(Start(lens, d), MAX_BITS - root), MAX_BITS - root)
    requires Shl(left, MAX_BITS - max) + (if max == lens[d] then Start(lens, d) else Base(lens, max))
             == Start(lens, d) + Pow2(MAX_BITS - root)
    ensures left <= count[max]
  {
    hide Count, Start, Base, Shl, Shr, FirstCode, CodeOf, Off, Rank, Pow2;
    var k := MAX_BITS - root;
    var q := Shr(Start(lens, d), k);
    StartByRank(lens, d);
    BaseMono(lens, lens[d] + 1, MAX_BITS + 1);
    BaseFlat(lens, max + 1);
    BaseStep(lens, max);
    Pow2IsShl(k);
    ShlAdd(q, 1, k);
    WholeBlocks(root);
    RankBound(lens, d);
    if q + 1 > Pow2(root) {
      ShlMono(Pow2(root), q, k);
    } else {
      ShlMono(q + 1, Pow2(root), k);
    }
    if left > count[max] {
      if max == lens[d] {
        ShlMono(Count(lens, max), Rank(lens, d) + left, MAX_BITS - max);
        ShlAdd(Rank(lens, d), left, MAX_BITS - max);
      } else {
        ShlMono(Count(lens, max), left, MAX_BITS - max);
      }
      SizePositive(max);
    }
  }

  lemma SizePositive(l: nat)
    requires l <= MAX_BITS
    ensures Size(l) >= 1 && Pow2(MAX_BITS - l) >= 1
  {}

  lemma WholeBlocks(root: nat)
    requires root <= MAX_BITS
    ensures Shl(Pow2(root), MAX_BITS - root) == Pow2(MAX_BITS)
  {
    ShlShl(1, root, MAX_BITS - root);
  }

  /** Look ahead in the counts for the size of the sub-table that starts with symbol d; k codes go into it. */
  method SubTableBits(ghost lens: seq<nat>, ghost work: seq<nat>, ghost sym: nat, ghost d: nat,
                      count: array<nat>, len: nat, root: nat, max: nat) returns (curr: nat, ghost k: nat)
    requires ValidLens(lens) && Complete(lens) && AtSymbol(lens, work, count[..], sym, d) && len == lens[d]
    requires 1 <= root < len <= max <= MAX_BITS
    requires forall l {:trigger Count(lens, l)} :: max < l <= MAX_BITS ==> Count(lens, l) == 0
    requires Start(lens, d) == Shl(Shr(Start(lens, d), MAX_BITS - root), MAX_BITS - root)
    ensures len - root <= curr && root + curr <= max
    ensures root + curr == max || Base(lens, root + curr + 1) >= Start(lens, d) + Pow2(MAX_BITS - root)
    ensures k >= Pow2(len - root) + curr - (len - root) && sym + k <= Off(lens, MAX_BITS + 1)
    ensures Beyond(lens, Start(lens, d) + Pow2(MAX_BITS - root), sym + k, root + curr)
  {
    hide Shl, Shr, Start, Pow2, Base, Rank, Off, Count, Beyond, Complete, ValidLens;
    curr := len - root;
    var left: int := Pow2(curr);
    ShlShl(1, curr, MAX_BITS - len);
    assert curr + (MAX_BITS - len) == MAX_BITS - root;
    Pow2IsShl(curr);
    Pow2IsShl(MAX_BITS - root);
    ghost var taken: nat := 0;
    while curr + root < max
      invariant 1 <= left && len - root <= curr && root + curr <= max
      invariant Shl(left, MAX_BITS - root - curr) + (if root + curr == len then Start(lens, d) else Base(lens, root + curr))
                == Start(lens, d) + Pow2(MAX_BITS - root)
      invariant Level(lens, sym, d, root + curr, taken)
      invariant taken + left >= Pow2(len - root) + curr - (len - root)
    {
      assert count[..][curr + root] == count[curr + root];
      LookAhead(lens, work, count[..], sym, d, root, curr, left);
      ghost var before: nat := left;
      left := left - count[curr + root];
      if left <= 0 {
        k := taken + before;
        BlockEnd(lens, work, count[..], sym, d, root, root + curr, before, taken);
        return;
      }
      LevelStep(lens, work, count[..], sym, d, root + curr, taken);
      taken := taken + count[curr + root];
      curr := curr + 1;
      left := left * 2;
    }
    k := taken + left;
    LeftAtMax(lens, work, count[..], sym, d, root, max, left);
    BlockEnd(lens, work, count[..], sym, d, root, max, left, taken);
  }

  /** Where the codes of the sub-table named low end; before the first sub-table, where the short codes end. */
  function EndOf(lens: seq<nat>, root: nat, low: int): nat
    requires root < MAX_BITS
  {
    if low < 0 then Base(lens, root + 1) else Shl(Rev(low, root) + 1, MAX_BITS - root)
  }

  /** The space accounting of the loop: `last` is the width of the last sub-table, 0 before the first. */
  ghost predicate Spaced(lens: seq<nat>, root: nat, used: nat, due: nat, last: nat, low: int)
    requires ValidLens(lens)
  {
    used % 2 == 0 && (root < MAX_BITS ==> Bounded(lens, root, used, due, last) && Beyond(lens, EndOf(lens, root, low), due, root + last))
  }

  lemma SpacedFirst(lens: seq<nat>, root: nat)
    requires ValidLens(lens) && 1 <= root <= MAX_BITS
    ensures Spaced(lens, root, Pow2(root), Off(lens, root + 1), 0, -1)
  {
    hide Base, Off, Beyond, Pow2, Slack;
    EvenPow2(root);
    if root < MAX_BITS {
      ShlZero(MAX_BITS - (root + 1));
      BeyondBy(lens, Base(lens, root + 1), root + 1, 0);
      BeyondLess(lens, Base(lens, root + 1), Off(lens, root + 1), root + 1, root);
      NoSlack();
    }
  }

  lemma NoSlack()
    ensures Slack(0) == 0
  {}

  lemma BeyondLess(lens: seq<nat>, end: nat, due: nat, l: nat, m: nat)
    requires ValidLens(lens) && Beyond(lens, end, due, l) && m <= l
    ensures Beyond(lens, end, due, m)
  {}

  /** A symbol that needs a new sub-table starts past the last one. */
  lemma PastEnd(lens: seq<nat>, c: nat, d: nat, root: nat, low: int)
    requires ValidLens(lens) && Fits(lens) && c < |lens| && d < |lens| && 1 <= root < lens[d]
    requires lens[c] != 0 && Start(lens, d) == Start(lens, c) + Size(lens[c])
    requires lens[c] <= root ==> low == -1
    requires lens[c] > root ==> low == Low(Huff(lens, c), root)
    requires Low(Huff(lens, d), root) != low
    ensures Start(lens, d) >= EndOf(lens, root, low)
  {
    hide Rev, Low, Shr, Shl, Start, Fits, Huff, Base;
    if lens[c] > root {
      BlockOf(lens, c, root);
      BlockOf(lens, d, root);
      var k := MAX_BITS - root;
      var q, p := Shr(Start(lens, c), k), Shr(Start(lens, d), k);
      ShrMono(Start(lens, c), Start(lens, d), k);
      if p == q {
        SameRev(Low(Huff(lens, c), root), Low(Huff(lens, d), root), root);
      }
      ShrIff(Start(lens, d), p, k);
      ShlMono(q + 1, p, k);
    } else {
      StartByRank(lens, d);
      BaseMono(lens, root + 1, lens[d]);
    }
  }

  /** Opening the sub-table keeps the accounting. */
  lemma SpacedNext(lens: seq<nat>, work: seq<nat>, count: seq<nat>, sym: nat, d: nat, root: nat, used: nat, due: nat, last: nat,
                   low: int, curr: nat, k: nat)
    requires ValidLens(lens) && Fits(lens) && AtSymbol(lens, work, count, sym, d) && 1 <= root < lens[d]
    requires Spaced(lens, root, used, due, last, low) && Start(lens, d) >= EndOf(lens, root, low)
    requires lens[d] - root <= curr && k >= Pow2(lens[d] - root) + curr - (lens[d] - root)
    requires Start(lens, d) == Shl(Shr(Start(lens, d), MAX_BITS - root), MAX_BITS - root)
    requires Beyond(lens, Start(lens, d) + Pow2(MAX_BITS - root), sym + k, root + curr)
    ensures Spaced(lens, root, used + Pow2(curr), sym + k, curr, Low(Huff(lens, d), root))
  {
    hide Rev, Low, Shr, Shl, Start, Fits, Huff, Base, Off, Rank, Bounded;
    assert Slot(lens, d) >= due && lens[d] >= root + last;
    OpenKeeps(lens, root, used, due, last, sym, lens[d] - root, curr, k);
    EvenPow2(curr);
    BlockOf(lens, d, root);
    ShlAdd(Shr(Start(lens, d), MAX_BITS - root), 1, MAX_BITS - root);
    Pow2IsShl(MAX_BITS - root);
  }

  /** Where the constants of inftrees.h are known to be enough: inflate()'s own calls. */
  predicate Roomy(kind: CodeType, lens: seq<nat>, root: nat, max: nat) {
    || max <= root
    || (kind == Lens && root == 9 && |lens| <= 286)
    || (kind == Dists && root == 6 && |lens| <= 30)
  }

  lemma RoomLeft(kind: CodeType, lens: seq<nat>, work: seq<nat>, count: seq<nat>, sym: nat, d: nat, root: nat, max: nat,
                 used: nat, due: nat, curr: nat, low: int)
    requires ValidLens(lens) && Complete(lens) && Roomy(kind, lens, root, max)
    requires AtSymbol(lens, work, count, sym, d) && 1 <= root < lens[d] <= max <= MAX_BITS && Spaced(lens, root, used, due, curr, low)
    requires root + curr <= max && due <= Off(lens, MAX_BITS + 1)
    ensures kind == Lens ==> used <= ENOUGH_LENS
    ensures kind == Dists ==> used <= ENOUGH_DISTS
  {
    hide Off, Rank, Beyond, Complete, Bounded, Count;
    RankBound(lens, d);
    OffMono(lens, root + 1, lens[d]);
    OffMono(lens, lens[d], MAX_BITS + 1);
    OffTotal(lens, MAX_BITS + 1);
    if kind == Lens {
      EnoughLens(lens, used, due, curr);
    } else if kind == Dists {
      EnoughDists(lens, used, due, curr);
    }
  }

  lemma Pow2IsShl(k: nat)
    ensures Pow2(k) == Shl(1, k)
  {}

  lemma LookAhead(lens: seq<nat>, work: seq<nat>, count: seq<nat>, sym: nat, d: nat, root: nat, curr: nat, left: nat)
    requires AtSymbol(lens, work, count, sym, d) && lens[d] <= root + curr < MAX_BITS
    requires Shl(left, MAX_BITS - root - curr) +
             (if root + curr == lens[d] then Start(lens, d) else Base(lens, root + curr))
             == Start(lens, d) + Pow2(MAX_BITS - root)
    ensures left <= count[root + curr] ==> Base(lens, root + curr + 1) >= Start(lens, d) + Pow2(MAX_BITS - root)
    ensures left > count[root + curr] ==>
              Shl(2 * (left - count[root + curr]), MAX_BITS - root - (curr + 1)) + Base(lens, root + curr + 1)
              == Start(lens, d) + Pow2(MAX_BITS - root)
  {
    hide Shl, Start, Pow2, Rank, Off, Count;
    var l := root + curr;
    var k := MAX_BITS - l;
    var rem := count[l];
    BaseStep(lens, l);
    if l == lens[d] {
      StartByRank(lens, d);
      ShlAdd(Rank(lens, d), rem, k);
    }
    if left <= rem {
      ShlMono(left, rem, k);
    } else {
      ShlAdd(left - rem, rem, k);
      TwiceShl(left - rem, k - 1);
    }
  }

  // ----- the main loop -----

  function Limit(kind: CodeType, request: nat): nat {
    match kind case Codes => Pow2(request) case Lens => ENOUGH_LENS case Dists => ENOUGH_DISTS
  }

  /** The state at the head of the loop, about to enter symbol c. */
  ghost predicate Ready(t: seq<Entry>, lens: seq<nat>, kind: CodeType, work: seq<nat>, count: seq<nat>,
                        sym: nat, c: nat, huff: nat, root: nat, max: nat,
                        next: nat, curr: nat, low: int)
  {
    && ValidLens(lens) && Fits(lens) && |lens| <= MaxSymbols(kind) && 1 <= root <= MAX_BITS
    && AtSymbol(lens, work, count, sym, c) && lens[c] <= max
    && huff == Huff(lens, c)
    && Filled(t, lens, kind, root, Start(lens, c), next, curr, low)
    && (lens[c] <= root ==> low == -1)
    && (lens[c] > root ==> low == Low(huff, root) && Covers(lens, root, curr, low))
  }

  /** Entering the code of c, for either kind of table. */
  lemma Entered(t: seq<Entry>, t': seq<Entry>, lens: seq<nat>, kind: CodeType, work: seq<nat>, count: seq<nat>,
                sym: nat, c: nat, huff: nat, root: nat, max: nat, next: nat, curr: nat, low: int, drop: nat)
    requires Ready(t, lens, kind, work, count, sym, c, huff, root, max, next, curr, low)
    requires drop == if lens[c] > root then root else 0
    requires Replicated(t, t', next, curr, Shr(huff, drop), lens[c] - drop, SymEntry(kind, c, lens[c] - drop))
    ensures Filled(t', lens, kind, root, Start(lens, c) + Size(lens[c]), next, curr, low)
  {
    hide Filled, Replicated, Low, Huff, Start, SymEntry, Size, Fits;
    if lens[c] <= root {
      FilledRoot(t, lens, kind, root, Start(lens, c), next, curr, low);
      assert Shr(huff, 0) == huff;
      EnterShort(t, t', lens, kind, root, c);
    } else {
      assert lens[c] <= root + curr;
      EnterLong(t, t', lens, kind, root, c, next, curr, low);
    }
  }

  lemma FilledRoot(t: seq<Entry>, lens: seq<nat>, kind: CodeType, root: nat, p: nat, next: nat, curr: nat, low: int)
    requires ValidLens(lens) && |lens| <= MaxSymbols(kind)
    requires Filled(t, lens, kind, root, p, next, curr, low) && low < 0
    ensures next == 0 && curr == root
  {}

  lemma FitsCurrent(t: seq<Entry>, lens: seq<nat>, kind: CodeType, work: seq<nat>, count: seq<nat>,
                    sym: nat, c: nat, huff: nat, root: nat, max: nat, next: nat, curr: nat, low: int, drop: nat)
    requires Ready(t, lens, kind, work, count, sym, c, huff, root, max, next, curr, low)
    requires drop == if lens[c] > root then root else 0
    ensures c < |lens| <= MaxSymbols(kind) && drop < lens[c] <= MAX_BITS
    ensures AtSymbol(lens, work, count, sym, c) && 1 <= count[lens[c]] && lens[c] <= max && huff == Huff(lens, c)
    ensures lens[c] <= root ==> low == -1
    ensures lens[c] > root ==> low == Low(huff, root) && Covers(lens, root, curr, low)
    ensures lens[c] - drop <= curr && Shr(huff, drop) < Pow2(lens[c] - drop)
    ensures next + Pow2(curr) <= |t|
  {
    hide Low, Start, Shr;
    HuffAtStart(lens, c);
    RankBound(lens, c);
    LowSmall(huff, lens[c]);
    ShrLow(huff, drop, lens[c]);
  }

  /** After the increment, the same sub-table (or the root table) still serves symbol d. */
  lemma SameTable(t: seq<Entry>, lens: seq<nat>, kind: CodeType, work: seq<nat>, count: seq<nat>, sym: nat,
                  c: nat, d: nat, root: nat, max: nat, next: nat, curr: nat, low: int)
    requires ValidLens(lens) && Fits(lens) && |lens| <= MaxSymbols(kind) && 1 <= root <= MAX_BITS
    requires AtSymbol(lens, work, count, sym, d) && lens[d] <= max
    requires Filled(t, lens, kind, root, Start(lens, d), next, curr, low)
    requires c < |lens| && lens[c] <= lens[d]
    requires lens[c] <= root ==> low == -1
    requires lens[c] > root ==> low >= 0 && Covers(lens, root, curr, low)
    requires lens[d] <= root || Low(Huff(lens, d), root) == low
    ensures Ready(t, lens, kind, work, count, sym, d, Huff(lens, d), root, max, next, curr, low)
  {
    hide Filled, Low, Huff, Start, Fits, Covers;
  }

  lemma FirstSymbol(t: seq<Entry>, lens: seq<nat>, kind: CodeType, work: seq<nat>, count: seq<nat>,
                    root: nat, min: nat, max: nat) returns (c: nat)
    requires ValidLens(lens) && Fits(lens) && |lens| <= MaxSymbols(kind)
    requires Counts(count, lens) && Sorted(work, lens)
    requires 1 <= min <= max <= MAX_BITS && Count(lens, min) > 0
    requires forall l {:trigger Count(lens, l)} :: 1 <= l < min ==> Count(lens, l) == 0
    requires min <= root <= max && Pow2(root) <= |t|
    ensures Ready(t, lens, kind, work, count, 0, c, 0, root, max, 0, root, -1) && c < |lens| && lens[c] == min
  {
    hide Shl, Count, Fits, Pow2, Start;
    c := SymbolWithRank(lens, min, 0);
    NothingBelow(lens, min);
    StartByRank(lens, c);
    ShlZero(MAX_BITS - min);
    RevZero(MAX_BITS);
    Pow2Positive(min);
    HuffByPosition(lens, c, 0, min);
    forall n | 0 <= n < |lens| ensures !Done(lens, n, 0) {}
  }

  lemma Pow2Positive(k: nat)
    ensures 0 < Pow2(k)
  {}

  lemma {:induction false} NothingBelow(lens: seq<nat>, m: nat)
    requires 1 <= m <= MAX_BITS
    requires forall l {:trigger Count(lens, l)} :: 1 <= l < m ==> Count(lens, l) == 0
    ensures Off(lens, m) == 0 && Base(lens, m) == 0
  {
    if m > 1 {
      NothingBelow(lens, m - 1);
      ShlZero(MAX_BITS - (m - 1));
      assert Count(lens, m - 1) == 0;
    }
  }

  /** Going on to symbol d: the register and the position agree. */
  lemma OnToNext(lens: seq<nat>, c: nat, d: nat, huff: nat)
    requires ValidLens(lens) && Fits(lens) && c < |lens| && d < |lens| && 1 <= lens[c] <= lens[d]
    requires Start(lens, d) == Start(lens, c) + Size(lens[c])
    requires huff == NextHuff(Huff(lens, c), lens[c])
    ensures huff == Huff(lens, d)
  {
    hide Huff, Start, Fits, NextHuff;
    PositionStep(lens, c);
    CodeBound(lens, d);
    HuffByPosition(lens, d, huff, lens[c]);
  }

  /** A sub-table opened for symbol d puts the loop back at its head. */
  lemma NewTable(t: seq<Entry>, t': seq<Entry>, lens: seq<nat>, kind: CodeType, work: seq<nat>, count: seq<nat>,
                 sym: nat, c: nat, d: nat, root: nat, max: nat, next: nat, curr: nat, low: int, curr': nat)
    requires ValidLens(lens) && Fits(lens) && |lens| <= MaxSymbols(kind) && 1 <= root <= MAX_BITS
    requires AtSymbol(lens, work, count, sym, d) && root < lens[d] <= max <= MAX_BITS
    requires forall i :: 0 <= i < |lens| ==> lens[i] <= max
    requires Filled(t, lens, kind, root, Start(lens, d), next, curr, low)
    requires c < |lens| && 1 <= lens[c] && Start(lens, d) == Start(lens, c) + Size(lens[c])
    requires lens[c] > root ==> Low(Huff(lens, c), root) != Low(Huff(lens, d), root)
    requires lens[d] - root <= curr' && root + curr' <= max
    requires root + curr' == max || Base(lens, root + curr' + 1) >= Start(lens, d) + Pow2(MAX_BITS - root)
    requires next + Pow2(curr) + Pow2(curr') <= |t| && Low(Huff(lens, d), root) < |t|
    requires t' == t[Low(Huff(lens, d), root) := Entry(curr', root, next + Pow2(curr))]
    ensures Ready(t', lens, kind, work, count, sym, d, Huff(lens, d), root, max,
                  next + Pow2(curr), curr', Low(Huff(lens, d), root))
  {
    hide Filled, Low, Huff, Start, Fits, Covers, Base, Pow2, Size;
    FreshBlock(lens, c, d, root);
    BlockAligned(lens, c, d, root);
    CoversBy(lens, d, root, curr', max);
    OpenSubTable(t, t', lens, kind, root, d, next, curr, low,
                 next + Pow2(curr), curr', Low(Huff(lens, d), root));
  }

  /** A complete code leaves the register at zero. */
  lemma CompleteEnd(lens: seq<nat>, c: nat)
    requires ValidLens(lens) && Complete(lens) && c < |lens| && lens[c] != 0
    requires Start(lens, c) + Size(lens[c]) == Base(lens, MAX_BITS + 1)
    ensures NextHuff(Huff(lens, c), lens[c]) == 0
  {
    PositionStep(lens, c);
  }

  /** The incomplete code leaves it at 1, and the marker makes the table total. */
  lemma IncompleteEnd(t: seq<Entry>, lens: seq<nat>, kind: CodeType, c: nat)
    requires ValidLens(lens) && |lens| <= MaxSymbols(kind) && kind != Codes
    requires Fits(lens) && !Complete(lens) && c < |lens| && lens[c] == 1
    requires forall i :: 0 <= i < |lens| ==> lens[i] <= 1
    requires Start(lens, c) + Size(lens[c]) == Base(lens, MAX_BITS + 1)
    requires Filled(t, lens, kind, 1, Base(lens, MAX_BITS + 1), 0, 1, -1) && Rank(lens, c) + 1 == Count(lens, 1)
    ensures NextHuff(Huff(lens, c), 1) == 1 && 2 <= |t|
    ensures TableFor(t[1 := INVALID], 1, lens, kind)
  {
    hide Filled, Fits, Complete, Base, Start, TableFor, Count;
    OneBitLens(lens);
    HuffZero(lens, c);
    NextOfZero();
    MarkerFits(t, lens, kind, c);
    OneBitTable(t[1 := INVALID], lens, kind);
  }

  lemma NextOfZero()
    ensures NextHuff(0, 1) == 1 && Pow2(1) == 2
  {
    assert Shr(0, 0) == 0 && Low(0, 0) == 0;
  }

  lemma MarkerFits(t: seq<Entry>, lens: seq<nat>, kind: CodeType, c: nat)
    requires ValidLens(lens) && |lens| <= MaxSymbols(kind) && c < |lens| && lens[c] == 1 && Rank(lens, c) == 0
    requires Count(lens, 1) == 1 && forall i :: 0 <= i < |lens| ==> lens[i] <= 1
    requires Filled(t, lens, kind, 1, Base(lens, MAX_BITS + 1), 0, 1, -1)
    ensures 2 <= |t| && Filled(t[1 := INVALID], lens, kind, 1, Base(lens, MAX_BITS + 1), 0, 1, -1)
  {
    hide Base, Start, SymEntry, Huff, Count;
    NextOfZero();
    var t' := t[1 := INVALID];
    forall n | 0 <= n < |lens| && Done(lens, n, Base(lens, MAX_BITS + 1))
      ensures PlacedShort(t', lens, kind, 1, n)
    {
      RankBound(lens, n);
      HuffZero(lens, n);
      assert Low(1, 1) == 1;
    }
  }

  /** The loop of inflate_table that fills the tables; ret is 1 when the space runs out. */
  method FillTables(kind: CodeType, lens: seq<nat>, count: array<nat>, work: array<nat>, table: array<Entry>,
                    request: nat, root: nat, min: nat, max: nat) returns (ret: int)
    requires ValidLens(lens) && |lens| <= MaxSymbols(kind)
    requires Fits(lens) && (Complete(lens) || (kind != Codes && max == 1))
    requires Counts(count[..], lens) && Sorted(work[..], lens)
    requires 1 <= min <= max <= MAX_BITS && Count(lens, min) > 0 && Count(lens, max) > 0
    requires forall l {:trigger Count(lens, l)} :: 1 <= l < min || max < l <= MAX_BITS ==> Count(lens, l) == 0
    requires forall i :: 0 <= i < |lens| ==> lens[i] <= max
    requires min <= root <= max && Pow2(root) <= Limit(kind, request) <= table.Length
    requires kind == Codes ==> root == max
    requires count != work && work.Length == |lens|
    modifies table, count
    ensures ret == 0 || ret == 1
    ensures kind == Codes || Roomy(kind, lens, root, max) ==> ret == 0
    ensures ret == 0 ==> TableFor(table[..], root, lens, kind)
  {
    hide Spaced, Roomy, Slack, Beyond, EndOf, Filled, Ready, Fits, Complete, Start, Low, Shr, Huff, Count, Rank, Off, Pow2, TableFor, Covers, SymEntry, Replicated, Sorted,
         Base, Size, Shl, Counts, Lookup, Matches, NextHuff;
    ghost var work0 := work[..];
    ghost var c: nat := FirstSymbol(table[..], lens, kind, work0, count[..], root, min, max);
    var huff: nat, sym: nat, len: nat, next: nat, curr: nat := 0, 0, min, 0, root;
    var drop: nat, low: int := 0, -1;
    var used: nat := Pow2(root);
    ghost var due: nat, last: nat := Off(lens, root + 1), 0;
    SpacedFirst(lens, root);
    while true
      invariant Spaced(lens, root, used, due, last, low)
      invariant work[..] == work0 && c < |lens|
      invariant Ready(table[..], lens, kind, work0, count[..], sym, c, huff, root, max, next, curr, low)
      invariant len == lens[c] && drop == if len > root then root else 0
      invariant used == next + Pow2(curr) <= Limit(kind, request)
      decreases |lens| - sym
    {
      FitsCurrent(table[..], lens, kind, work0, count[..], sym, c, huff, root, max, next, curr, low, drop);
      var n := work[sym];
      var here := SymEntry(kind, n, len - drop);
      ghost var t, count0, huff0 := table[..], count[..], huff;
      Replicate(table, next, curr, Shr(huff, drop), len - drop, here);
      Entered(t, table[..], lens, kind, work0, count0, sym, c, huff, root, max, next, curr, low, drop);

      huff := Increment(huff, len);
      sym := sym + 1;
      count[len] := count[len] - 1;
      if count[len] == 0 && len == max { break; }
      ghost var d: nat := NextSymbol(lens, work0, count0, sym - 1, c, max);
      assert count[..] == count0[lens[c] := count0[lens[c]] - 1];
      OnToNext(lens, c, d, huff);
      if count[len] == 0 {
        len := lens[work[sym]];
      }

      if len > root && Low(huff, root) != low {
        drop := root;
        ghost var next0, curr0 := next, curr;
        next := next + Pow2(curr);
        ghost var k: nat, used0;
        used0 := used;
        PastEnd(lens, c, d, root, low);
        BlockAligned(lens, c, d, root);
        curr, k := SubTableBits(lens, work0, sym, d, count, len, root, max);
        used := used + Pow2(curr);
        SpacedNext(lens, work0, count[..], sym, d, root, used0, due, last, low, curr, k);
        due, last := sym + k, curr;
        if Roomy(kind, lens, root, max) {
          RoomLeft(kind, lens, work0, count[..], sym, d, root, max, used, due, curr, Low(huff, root));
        }
        if (kind == Lens && used > ENOUGH_LENS) || (kind == Dists && used > ENOUGH_DISTS) { return 1; }
        ghost var t1, low0 := table[..], low;
        low := Low(huff, root);
        table[low] := Entry(curr, root, next);
        NewTable(t1, table[..], lens, kind, work0, count[..], sym, c, d, root, max, next0, curr0, low0, curr);
      } else {
        SameTable(table[..], lens, kind, work0, count[..], sym, c, d, root, max, next, curr, low);
      }
      c := d;
    }
    LastSymbol(lens, c);
    if Complete(lens) {
      CompleteEnd(lens, c);
      CompleteTable(table[..], lens, kind, root, next, curr, low);
    } else {
      FilledRoot(table[..], lens, kind, root, Start(lens, c) + Size(lens[c]), next, curr, low);
      IncompleteEnd(table[..], lens, kind, c);
    }
    if huff != 0 {
      ghost var t := table[..];
      table[next + huff] := Entry(64, len - drop, 0);
      assert table[..] == t[1 := INVALID];
    }
    ret := 0;
  }

  /** No symbols at all: a table that reports an error at the first bit. */
  lemma NoCodesTable(t: seq<Entry>, lens: seq<nat>, kind: CodeType)
    requires |lens| <= MaxSymbols(kind) && forall i :: 0 <= i < |lens| ==> lens[i] == 0
    requires |t| >= 2 && t[0] == INVALID && t[1] == INVALID
    ensures TableFor(t, 1, lens, kind)
  {
    hide Low, Shr, SymEntry;
    assert Pow2(1) == 2;
    forall v: nat ensures Lookup(t, 1, v) == INVALID {
      LowOneBit(v);
    }
  }

  lemma LowOneBit(v: nat)
    ensures Low(v, 1) == 0 || Low(v, 1) == 1
  {}

  lemma AcceptableIff(kind: CodeType, lens: seq<nat>, max: nat, left: int)
    requires ValidLens(lens) && 1 <= max <= MAX_BITS && Count(lens, max) > 0
    requires forall i :: 0 <= i < |lens| ==> lens[i] <= max
    requires left < 0 <==> !Fits(lens)
    requires left == 0 ==> Complete(lens)
    requires left > 0 ==> !Complete(lens)
    ensures Acceptable(kind, lens) <==> left >= 0 && (left == 0 || (kind != Codes && max == 1))
  {
    hide Base, Count;
    CountZero(lens, max);
  }

  /**
    inflate_table: -1 for a set of lengths that is over-subscribed or not allowed to be
    incomplete, 1 when the table space runs out, 0 with a table and its root width otherwise.
   */
  method InflateTable(kind: CodeType, lens: seq<nat>, request: nat, table: array<Entry>)
      returns (ret: int, root: nat)
    requires ValidLens(lens) && |lens| <= MaxSymbols(kind)
    requires 1 <= request <= MAX_BITS && 2 <= Limit(kind, request) <= table.Length
    requires kind == Codes ==> forall i :: 0 <= i < |lens| ==> lens[i] <= request
    modifies table
    ensures ret == -1 || ret == 0 || ret == 1
    ensures ret == -1 <==> !Acceptable(kind, lens)
    ensures ret == 1 ==> kind != Codes
    ensures Enough(kind, lens, request) ==> ret != 1
    ensures ret == 0 ==> TableFor(table[..], root, lens, kind)
    ensures ret == 0 && (exists i :: 0 <= i < |lens| && lens[i] == request) ==> root == request
  {
    hide Acceptable, Roomy, Enough, TableFor, Fits, Complete, Counts, Sorted, Pow2;
    var count := CountLengths(lens);
    root := request;
    var max := LongestCode(lens, count);
    if root > max { root := max; }
    if max == 0 {
      table[0] := INVALID;
      table[1] := INVALID;
      NoCodesTable(table[..], lens, kind);
      AcceptNone(kind, lens);
      return 0, 1;
    }
    var min := ShortestCode(lens, count, max);
    if root < min { root := min; }
    if exists i :: 0 <= i < |lens| && lens[i] == request {
      CountZero(lens, request);
      assert root == request;
    }

    var left := CodesLeft(lens, count);
    AcceptableIff(kind, lens, max, left);
    if left < 0 { return -1, root; }
    if left > 0 && (kind == Codes || max != 1) { return -1, root; }

    var work := SortSymbols(lens, count);
    Pow2Mono(root, max);
    Pow2Mono(max, if max < request then request else max);
    if kind == Codes {
      LongestInUse(lens, max);
      assert root == max;
    }
    if Enough(kind, lens, request) {
      EnoughRoom(kind, lens, request, root, min, max);
    }
    if (kind == Lens && Pow2(root) > ENOUGH_LENS) || (kind == Dists && Pow2(root) > ENOUGH_DISTS) {
      return 1, root;
    }
    ret := FillTables(kind, lens, count, work, table, request, root, min, max);
  }

  /** The calls inflate() makes: the fixed codes, and dynamic ones with roots of 9 and 6 bits. */
  predicate Enough(kind: CodeType, lens: seq<nat>, request: nat) {
    match kind
    case Codes => true
    case Lens => request == 9 && (|lens| <= 286 || forall i :: 0 <= i < |lens| ==> lens[i] <= 9)
    case Dists => (request == 6 && |lens| <= 30) || (request <= 6 && forall i :: 0 <= i < |lens| ==> lens[i] <= request)
  }

  /** In these calls the root table fits, and the sub-tables do. */
  lemma EnoughRoom(kind: CodeType, lens: seq<nat>, request: nat, root: nat, min: nat, max: nat)
    requires ValidLens(lens) && |lens| <= MaxSymbols(kind) && Enough(kind, lens, request) && 1 <= request
    requires 1 <= min <= max <= MAX_BITS && Count(lens, min) > 0 && Count(lens, max) > 0
    requires forall l {:trigger Count(lens, l)} :: 1 <= l < min ==> Count(lens, l) == 0
    requires Complete(lens) || max == 1
    requires root == if (if request > max then max else request) < min then min else if request > max then max else request
    ensures kind == Codes || Roomy(kind, lens, root, max)
    ensures kind == Lens ==> Pow2(root) <= ENOUGH_LENS
    ensures kind == Dists ==> Pow2(root) <= ENOUGH_DISTS
  {
    hide Count, Complete, Pow2, Base;
    Pow2Values();
    LongestInUse(lens, max);
    if max > 1 && kind != Codes {
      NothingBelow(lens, min);
      ManyCodes(lens, min);
      if kind == Lens && min > 8 {
        Pow2Mono(9, min);
      }
      if kind == Dists && min > 5 {
        Pow2Mono(6, min);
      }
    }
    if kind == Lens {
      Pow2Mono(root, 9);
    } else if kind == Dists {
      Pow2Mono(root, 6);
    }
  }

  lemma AcceptNone(kind: CodeType, lens: seq<nat>)
    requires forall i :: 0 <= i < |lens| ==> lens[i] == 0
    ensures Acceptable(kind, lens)
  {}

  lemma LongestInUse(lens: seq<nat>, max: nat)
    requires Count(lens, max) > 0
    ensures exists i :: 0 <= i < |lens| && lens[i] == max
  {
    CountZero(lens, max);
  }
}
