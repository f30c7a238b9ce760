/**
  The static trees (section 3.2.6 of RFC 1951): tr_static_init of trees.c.
 */
module StaticTrees {
  import opened Bits
  import opened Canonical
  import opened Symbols
  import opened Reference
  import opened Runs
  import opened TokenCoding
  import opened TreeSending

  /** The lengths of static_dtree: the two distance codes that are never sent have none. */
  function StaticDists(): (r: seq<nat>)
    ensures |r| == D_CODES && forall i :: 0 <= i < D_CODES ==> r[i] == 5
  {
    Rep<nat>(5, D_CODES)
  }

  lemma {:induction false} FirstFive(k: nat, l: nat)
    requires l <= 5
    ensures FirstCode(Rep<nat>(5, k), l) == 0
  {
    if l > 1 {
      FirstFive(k, l - 1);
      CountRep(5, k, l - 1);
    }
  }

  /** Codes of one length are the symbols themselves. */
  lemma FlatCode(k: nat, n: nat)
    requires n < k
    ensures CodeOf(Rep<nat>(5, k), n) == n && Huff(Rep<nat>(5, k), n) == Rev(n, 5)
  {
    hide Count, FirstCode;
    FirstFive(k, 5);
    assert Rep<nat>(5, k)[..n] == Rep<nat>(5, n);
    CountRep(5, n, 5);
  }

  /** The distance codes sent are those the decoder knows. */
  lemma SameDistance(dist: nat)
    requires 1 <= dist <= MAX_DISTANCE
    ensures DistanceBits(StaticDists(), dist) == DistanceBits(FixedDists(), dist)
  {
    hide DistCode, DistBase, BitsOf, Huff;
    var c := DistCode(dist - 1);
    FlatCode(D_CODES, c);
    FlatCode(32, c);
  }

  lemma {:induction false} SameTokens(ll: seq<nat>, tokens: seq<Token>)
    requires ValidTokens(tokens)
    ensures TokensBits(ll, StaticDists(), tokens) == TokensBits(ll, FixedDists(), tokens)
  {
    hide DistanceBits, LengthBits, Code, StaticDists, FixedDists;
    if tokens != [] {
      var k := |tokens| - 1;
      SameTokens(ll, tokens[..k]);
      if tokens[k].Match? {
        SameDistance(tokens[k].dist);
      }
    }
  }

  lemma BaseFive(lens: seq<nat>, l: nat)
    requires lens == StaticDists() && 1 <= l <= MAX_BITS
    ensures Base(lens, l + 1) == Base(lens, l) + (if l == 5 then 30720 else 0)
  {
    hide Count;
    CountRep(5, D_CODES, l);
    BaseStep(lens, l);
    ShlZero(MAX_BITS - l);
    assert Shl(30, 10) == 30720;
  }

  lemma StaticUsable()
    ensures Usable(StaticDists())
  {
    hide Base;
    var lens := StaticDists();
    BaseOne(lens);
    BaseFive(lens, 1);
    BaseFive(lens, 2);
    BaseFive(lens, 3);
    BaseFive(lens, 4);
    BaseFive(lens, 5);
    BaseFive(lens, 6);
    BaseFive(lens, 7);
    BaseFive(lens, 8);
    BaseFive(lens, 9);
    BaseFive(lens, 10);
    BaseFive(lens, 11);
    BaseFive(lens, 12);
    BaseFive(lens, 13);
    BaseFive(lens, 14);
    BaseFive(lens, 15);
    Pow2Values();
  }

  /** The static distance tree is trivial. */
  method DistanceTree() returns (dfc: array<nat>, ddl: array<nat>)
    ensures fresh(dfc) && fresh(ddl) && ddl[..] == StaticDists() && TreeIs(dfc[..], ddl[..], StaticDists())
  {
    hide Huff, Usable, CodeOf;
    dfc, ddl := new nat[D_CODES], new nat[D_CODES];
    for n := 0 to D_CODES
      invariant forall i :: 0 <= i < n ==> ddl[i] == 5
      invariant forall i {:trigger dfc[i]} :: 0 <= i < n ==> dfc[i] == Huff(StaticDists(), i)
    {
      ddl[n] := 5;
      FlatCode(D_CODES, n);
      dfc[n] := BiReverse(n, 5);
    }
    assert ddl[..] == StaticDists();
    StaticUsable();
  }

  /** tr_static_init, its last loops: the two trees. */
  method BothTrees() returns (lfc: array<nat>, ldl: array<nat>, dfc: array<nat>, ddl: array<nat>)
    ensures fresh(lfc) && fresh(ldl) && fresh(dfc) && fresh(ddl)
    ensures ldl[..] == FixedLens() && ddl[..] == StaticDists()
    ensures TreeIs(lfc[..], ldl[..], FixedLens()) && TreeIs(dfc[..], ddl[..], StaticDists())
  {
    hide Huff, Count, FixedLens, Fits, ValidLens, StaticDists;
    var blCount;
    lfc, ldl, blCount := LiteralLengths();
    FixedComplete();
    FixedSizes();
    assert ldl[..288] == ldl[..];
    GenCodes(lfc, ldl, L_CODES + 1, blCount);
    dfc, ddl := DistanceTree();
  }

  /** The lengths of static_ltree and their statistics. */
  method LiteralLengths() returns (fc: array<nat>, dl: array<nat>, blCount: array<nat>)
    ensures fresh(fc) && fresh(dl) && fresh(blCount) && fc != dl && fc != blCount && dl != blCount
    ensures fc.Length == 288 && dl[..] == FixedLens() && blCount.Length == MAX_BITS + 1 && blCount[0] == 0
    ensures forall l {:trigger blCount[l]} :: 1 <= l <= MAX_BITS ==> blCount[l] == Count(FixedLens(), l)
  {
    fc, dl, blCount := new nat[288], new nat[288], new nat[MAX_BITS + 1];
    for bits := 0 to MAX_BITS + 1
      invariant forall i :: 0 <= i < bits ==> blCount[i] == 0
    {
      blCount[bits] := 0;
    }
    var n: nat := 0;
    while n <= 143
      invariant n <= 144 && blCount[8] == n
      invariant forall i :: 0 <= i < n ==> dl[i] == 8
      invariant forall l :: 0 <= l <= MAX_BITS && l != 8 ==> blCount[l] == 0
    {
      dl[n] := 8; n := n + 1; blCount[8] := blCount[8] + 1;
    }
    while n <= 255
      invariant 144 <= n <= 256 && blCount[8] == 144 && blCount[9] == n - 144
      invariant forall i :: 0 <= i < n ==> dl[i] == if i < 144 then 8 else 9
      invariant forall l :: 0 <= l <= MAX_BITS && l != 8 && l != 9 ==> blCount[l] == 0
    {
      dl[n] := 9; n := n + 1; blCount[9] := blCount[9] + 1;
    }
    while n <= 279
      invariant 256 <= n <= 280 && blCount[8] == 144 && blCount[9] == 112 && blCount[7] == n - 256
      invariant forall i :: 0 <= i < n ==> dl[i] == if i < 144 then 8 else if i < 256 then 9 else 7
      invariant forall l :: 0 <= l <= MAX_BITS && l != 8 && l != 9 && l != 7 ==> blCount[l] == 0
    {
      dl[n] := 7; n := n + 1; blCount[7] := blCount[7] + 1;
    }
    while n <= 287
      invariant 280 <= n <= 288 && blCount[8] == 144 + (n - 280) && blCount[9] == 112 && blCount[7] == 24
      invariant forall i :: 0 <= i < n ==> dl[i] == if i < 144 then 8 else if i < 256 then 9 else if i < 280 then 7 else 8
      invariant forall l :: 0 <= l <= MAX_BITS && l != 8 && l != 9 && l != 7 ==> blCount[l] == 0
    {
      dl[n] := 8; n := n + 1; blCount[8] := blCount[8] + 1;
    }
    FixedLensAt(dl[..]);
    forall l {:trigger blCount[l]} | 1 <= l <= MAX_BITS ensures blCount[l] == Count(FixedLens(), l) {
      FixedCount(l);
    }
  }

  lemma FixedLensAt(s: seq<nat>)
    requires |s| == 288
    requires forall i :: 0 <= i < 288 ==> s[i] == if i < 144 then 8 else if i < 256 then 9 else if i < 280 then 7 else 8
    ensures s == FixedLens()
  {}
}
