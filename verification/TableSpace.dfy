/**
  The space inflate_table needs: why ENOUGH_LENS and ENOUGH_DISTS (inftrees.h) are enough.

  A sub-table of 2^c entries holds the codes of one root-size block of code space, the longest
  being c bits past the root. The codes come in order of length, so a sub-table that follows one
  of 2^b entries holds at least 2^b + c - b of them. Summed up, the entries of all sub-tables
  exceed the number of codes in them by at most 2^c - c - 1, c belonging to the last one.
 */
module TableSpace {
  import opened Bits
  import opened Canonical

  /** Where symbol n stands among the symbols sorted by length. */
  function Slot(lens: seq<nat>, n: nat): nat
    requires n < |lens|
  {
    Off(lens, lens[n]) + Rank(lens, n)
  }

  lemma {:induction false} Pow2Above(c: nat)
    ensures Pow2(c) >= c + 1
  {
    if c > 0 {
      Pow2Above(c - 1);
    }
  }

  /** By how much the entries of the sub-tables can exceed the codes in them. */
  function Slack(c: nat): nat {
    Pow2Above(c);
    Pow2(c) - c - 1
  }

  lemma {:induction false} SlackMono(b: nat, c: nat)
    requires b <= c
    ensures Slack(b) <= Slack(c)
    decreases c
  {
    if b < c {
      SlackMono(b, c - 1);
      Pow2Above(c - 1);
    }
  }

  /** Codes at or past a position of the tiling stand at or past the slot there. */
  lemma LaterSlot(lens: seq<nat>, n: nat, l: nat, r: nat)
    requires ValidLens(lens) && n < |lens| && lens[n] != 0
    requires 1 <= l <= MAX_BITS && r <= Count(lens, l)
    requires Start(lens, n) >= Base(lens, l) + Shl(r, MAX_BITS - l)
    ensures Slot(lens, n) >= Off(lens, l) + r && lens[n] >= l
  {
    hide Shl, Count, Start, FirstCode, CodeOf, Off, Base;
    RankBound(lens, n);
    StartByRank(lens, n);
    if lens[n] < l {
      BaseMono(lens, lens[n] + 1, l);
    } else if lens[n] == l {
      if Rank(lens, n) < r {
        ShlMono(Rank(lens, n), r, MAX_BITS - l);
      }
    } else {
      OffMono(lens, l, lens[n]);
    }
  }

  /** Every code from position `end` on stands at slot `due` or later and is at least `least` bits long. */
  ghost predicate Beyond(lens: seq<nat>, end: nat, due: nat, least: nat)
    requires ValidLens(lens)
  {
    forall n {:trigger Start(lens, n)} :: 0 <= n < |lens| && lens[n] != 0 && Start(lens, n) >= end ==>
      Slot(lens, n) >= due && lens[n] >= least
  }

  lemma BeyondBy(lens: seq<nat>, end: nat, l: nat, r: nat)
    requires ValidLens(lens) && 1 <= l <= MAX_BITS && r <= Count(lens, l)
    requires end >= Base(lens, l) + Shl(r, MAX_BITS - l)
    ensures Beyond(lens, end, Off(lens, l) + r, l)
  {
    hide Start, Slot, Count;
    forall n {:trigger Start(lens, n)} | 0 <= n < |lens| && lens[n] != 0 && Start(lens, n) >= end
      ensures Slot(lens, n) >= Off(lens, l) + r && lens[n] >= l
    {
      LaterSlot(lens, n, l, r);
    }
  }

  /** The bound kept while sub-tables are opened: `used` entries, the codes of the last one ending at slot `due`. */
  predicate Bounded(lens: seq<nat>, root: nat, used: nat, due: nat, curr: nat) {
    used + Off(lens, root + 1) <= Pow2(root) + due + Slack(curr)
  }

  /** Opening a sub-table for k codes from slot `sym` on keeps the bound. */
  lemma OpenKeeps(lens: seq<nat>, root: nat, used: nat, due: nat, curr: nat, sym: nat, c0: nat, curr': nat, k: nat)
    requires Bounded(lens, root, used, due, curr) && due <= sym && curr <= c0 <= curr'
    requires k >= Pow2(c0) + curr' - c0
    ensures Bounded(lens, root, used + Pow2(curr'), sym + k, curr')
  {
    hide Off;
    SlackMono(curr, c0);
    Pow2Above(c0);
    Pow2Above(curr');
  }

  // ----- few codes leave room -----

  /** The code space of the codes of l1 to l2 - 1 bits. */
  lemma {:induction false} SpaceOf(lens: seq<nat>, l1: nat, l2: nat)
    requires 1 <= l1 <= l2 <= MAX_BITS + 1
    ensures Off(lens, l1) <= Off(lens, l2)
    ensures l1 <= MAX_BITS ==> Base(lens, l2) <= Base(lens, l1) + Shl(Off(lens, l2) - Off(lens, l1), MAX_BITS - l1)
    decreases l2
  {
    OffMono(lens, l1, l2);
    if l1 < l2 {
      SpaceOf(lens, l1, l2 - 1);
      var n, m := Off(lens, l2 - 1) - Off(lens, l1), Count(lens, l2 - 1);
      OffMono(lens, l1, l2 - 1);
      ShlAdd(n, m, MAX_BITS - l1);
      ShlFewer(m, MAX_BITS - (l2 - 1), MAX_BITS - l1);
    } else {
      if l1 <= MAX_BITS { ShlZero(MAX_BITS - l1); }
    }
  }

  lemma {:induction false} ShlFewer(v: nat, j: nat, k: nat)
    requires j <= k
    ensures Shl(v, j) <= Shl(v, k)
    decreases k
  {
    if j < k {
      ShlFewer(v, j, k - 1);
    }
  }

  /** A complete code with no code shorter than min bits has at least 2^min codes. */
  lemma ManyCodes(lens: seq<nat>, min: nat)
    requires Complete(lens) && 1 <= min <= MAX_BITS && Base(lens, min) == 0
    ensures |lens| >= Pow2(min)
  {
    hide Shl, Base, Off, Count;
    SpaceOf(lens, min, MAX_BITS + 1);
    OffTotal(lens, MAX_BITS + 1);
    var n := Off(lens, MAX_BITS + 1) - Off(lens, min);
    if n < Pow2(min) {
      ShlMono(n, Pow2(min), MAX_BITS - min);
      ShlShl(1, min, MAX_BITS - min);
    }
  }

  /** The first code longer than the root is not among the first symbols: short codes must fill the rest of the space. */
  lemma ShortCodes(lens: seq<nat>, root: nat, space: nat)
    requires Complete(lens) && 1 <= root < MAX_BITS && Off(lens, MAX_BITS + 1) > Off(lens, root + 1)
    requires space == Shl(|lens|, MAX_BITS - (root + 1))
    ensures Off(lens, root + 1) <= 1 ==> Shl(1, 14) + space >= Pow2(MAX_BITS)
    ensures Off(lens, root + 1) <= 2 ==> Shl(1, 14) + Shl(1, 13) + space >= Pow2(MAX_BITS)
  {
    hide Shl, Base, Off, Count;
    SpaceOf(lens, root + 1, MAX_BITS + 1);
    OffTotal(lens, MAX_BITS + 1);
    ShlMono(Off(lens, MAX_BITS + 1) - Off(lens, root + 1), |lens|, MAX_BITS - (root + 1));
    var one := Count(lens, 1);
    SpaceOf(lens, 2, root + 1);
    var rest := Off(lens, root + 1) - Off(lens, 2);
    FirstTwo(lens);
    if one >= 2 {
      BaseMono(lens, 2, root + 1);
      ShlMono(2, one, 14);
      TwoHalf();
      SpaceFull(lens, root);
    } else {
      FewTails(one, rest);
    }
  }

  lemma FirstTwo(lens: seq<nat>)
    ensures Off(lens, 2) == Count(lens, 1) && Base(lens, 2) == Shl(Count(lens, 1), 14)
  {
    hide Count, Shl;
    assert Off(lens, 1) == 0 && Base(lens, 1) == 0;
  }

  lemma TwoHalf()
    ensures Shl(2, 14) == Pow2(MAX_BITS)
  {
    ShlShl(1, 1, 14);
    assert Shl(1, 1) == 2;
  }

  lemma Sizes()
    ensures Shl(286, 5) == 9152 && Shl(30, 8) == 7680 && Shl(1, 14) == 16384 && Shl(1, 13) == 8192
  {
    assert Shl(30, 4) == 480 && Shl(480, 4) == 7680;
    ShlShl(30, 4, 4);
    Pow2Values();
  }

  /** When the short codes fill the space there are no longer ones. */
  lemma SpaceFull(lens: seq<nat>, root: nat)
    requires Complete(lens) && 1 <= root < MAX_BITS && Base(lens, root + 1) >= Pow2(MAX_BITS)
    ensures Off(lens, MAX_BITS + 1) == Off(lens, root + 1)
  {
    NoMore(lens, root + 1, MAX_BITS + 1);
  }

  lemma {:induction false} NoMore(lens: seq<nat>, l: nat, m: nat)
    requires Complete(lens) && 1 <= l <= m <= MAX_BITS + 1 && Base(lens, l) >= Pow2(MAX_BITS)
    ensures Off(lens, m) == Off(lens, l)
    decreases m
  {
    if l < m {
      NoMore(lens, l, m - 1);
      BaseMono(lens, l, m - 1);
      BaseMono(lens, m, MAX_BITS + 1);
    }
  }

  lemma FewTails(one: nat, rest: nat)
    requires one <= 1
    ensures one + rest <= 1 ==> Shl(one, 14) + Shl(rest, 13) <= Shl(1, 14)
    ensures one + rest <= 2 ==> Shl(one, 14) + Shl(rest, 13) <= Shl(1, 14) + Shl(1, 13)
  {
    hide Shl;
    Pow2Values();
    ShlZero(13);
    ShlZero(14);
    ShlAdd(1, 1, 13);
    if one + rest <= 2 {
      assert rest == 0 || rest == 1 || rest == 2;
      assert one == 0 || one == 1;
    }
  }

  /** Sizes are even. */
  lemma EvenPow2(k: nat)
    requires k >= 1
    ensures Pow2(k) % 2 == 0
  {}

  /** ENOUGH_LENS: 286 codes and a root of 9 bits. */
  lemma EnoughLens(lens: seq<nat>, used: nat, due: nat, curr: nat)
    requires Complete(lens) && |lens| <= 286 && Bounded(lens, 9, used, due, curr) && used % 2 == 0
    requires due <= |lens| && curr <= 6 && Off(lens, MAX_BITS + 1) > Off(lens, 10)
    ensures used <= 852
  {
    hide Off, Shl;
    Pow2Values();
    ShortCodes(lens, 9, Shl(|lens|, 5));
    ShlMono(|lens|, 286, 5);
    Sizes();
    SlackMono(curr, 6);
  }

  /** ENOUGH_DISTS: 30 codes and a root of 6 bits. */
  lemma EnoughDists(lens: seq<nat>, used: nat, due: nat, curr: nat)
    requires Complete(lens) && |lens| <= 30 && Bounded(lens, 6, used, due, curr) && used % 2 == 0
    requires due <= |lens| && curr <= 9 && Off(lens, MAX_BITS + 1) > Off(lens, 7)
    ensures used <= 592
  {
    hide Off, Shl;
    Pow2Values();
    ShortCodes(lens, 6, Shl(|lens|, 8));
    ShlMono(|lens|, 30, 8);
    Sizes();
    SlackMono(curr, 9);
  }
}
