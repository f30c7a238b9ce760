/**
  The polynomial of the CRC-32: x^32 and the terms that crc32.c lists by their exponents, and the
  exclusive-or pattern that make_crc_table makes of them.

  A polynomial over the integers modulo 2 is a number: bit i is the coefficient of x^i.
 */
module Polynomial {
  import opened Bits

  /** The exclusive-or pattern: the terms below x^32, the highest in the lowest bit. */
  const POLY: nat := 0xedb88320

  /** p of make_crc_table: the exponents of the terms below x^32 (section 8.1.1.6.2 of ITU-T V.42). */
  const EXPONENTS: seq<nat> := [0, 1, 2, 4, 5, 7, 8, 10, 11, 12, 16, 22, 23, 26]

  /** The polynomial with these terms, no two of which are the same. */
  function Terms(e: seq<nat>): nat {
    if e == [] then 0 else Terms(e[..|e| - 1]) + Pow2(e[|e| - 1])
  }

  /** The polynomial that the CRC is a remainder of. */
  function Divisor(): nat {
    Pow2(32) + Terms(EXPONENTS)
  }

  predicate Rising(e: seq<nat>) {
    forall i, j :: 0 <= i < j < |e| ==> e[i] < e[j]
  }

  lemma {:induction false} TermsBelow(e: seq<nat>, n: nat)
    requires Rising(e) && forall i :: 0 <= i < |e| ==> e[i] < n
    ensures Terms(e) < Pow2(n)
    decreases |e|
  {
    hide Pow2;
    if e != [] {
      var last := e[|e| - 1];
      TermsBelow(e[..|e| - 1], last);
      Pow2Mono(last, n);
    }
  }

  lemma RevNone(v: nat)
    ensures Rev(v, 0) == 0
  {}

  lemma RevStep(v: nat, n: nat)
    requires n > 0
    ensures Rev(v, n) == 2 * Rev(v, n - 1) + Shr(v, n - 1) % 2
  {}

  lemma NextBit(t: nat, e: nat)
    requires t < Pow2(e)
    ensures Rev(t, e + 1) == 2 * Rev(t, e) && Rev(t + Pow2(e), e + 1) == 2 * Rev(t, e) + 1
  {
    hide Low, Rev, Shr, Shl;
    RevStep(t, e + 1);
    RevStep(t + Pow2(e), e + 1);
    LowShrUnique(t, 1, e);
    LowSmall(t, e);
    ShlZero(e);
    LowShrUnique(t, 0, e);
    RevLowBits(t + Pow2(e), e, e);
  }

  /** One more term sets one more bit of the reversed number. */
  lemma RevTerm(t: nat, e: nat, n: nat)
    requires t < Pow2(e) && e < n
    ensures Rev(t + Pow2(e), n) == Rev(t, n) + Pow2(n - 1 - e) == Or(Rev(t, n), Pow2(n - 1 - e))
  {
    hide Low, Or, Rev, Shl;
    var k := n - 1 - e;
    NextBit(t, e);
    DoublePow2(e);
    RevWiden(t + Pow2(e), e + 1, n);
    RevWiden(t, e + 1, n);
    ShlAdd(2 * Rev(t, e), 1, k);
    RevWiden(t, e, n);
    DoublePow2(k);
    OrDisjoint(Pow2(k), Rev(t, e), n - e);
  }

  lemma DoublePow2(k: nat)
    ensures Pow2(k + 1) == 2 * Pow2(k)
  {}

  /** The pattern made from the exponents: bit 31 - e for each of them, and no others. */
  method MakePattern() returns (poly: nat)
    ensures poly == Rev(Terms(EXPONENTS), 32)
  {
    hide Shl, Rev, Or;
    var p := EXPONENTS;
    poly := 0;
    var n := 0;
    RevZero(32);
    while n < |p|
      invariant n <= |p| && poly == Rev(Terms(p[..n]), 32)
    {
      assert p[..n + 1][..n] == p[..n];
      TermsBelow(p[..n], p[n]);
      RevTerm(Terms(p[..n]), p[n], 32);
      assert Terms(p[..n + 1]) == Terms(p[..n]) + Pow2(p[n]);
      poly := Or(poly, Shl(1, 31 - p[n]));
      n := n + 1;
    }
    assert p[..n] == p;
  }

  lemma Powers()
    ensures Pow2(22) == 0x40_0000 && Pow2(23) == 0x80_0000 && Pow2(26) == 0x400_0000
    ensures Pow2(19) == 0x8_0000 && Pow2(20) == 0x10_0000 && Pow2(21) == 0x20_0000 && Pow2(24) == 0x100_0000
    ensures Pow2(27) == 0x800_0000 && Pow2(29) == 0x2000_0000 && Pow2(30) == 0x4000_0000 && Pow2(31) == 0x8000_0000
  {
    Pow2Values();
    assert Pow2(19) == 8 * Pow2(16);
    assert Pow2(22) == 8 * Pow2(19);
    assert Pow2(25) == 8 * Pow2(22);
    assert Pow2(28) == 8 * Pow2(25);
  }

  /** The first k terms, t, and their reversal, r, with one term more. */
  lemma OneMore(k: nat, t: nat, r: nat)
    requires k < |EXPONENTS| && EXPONENTS[k] < 32 && Terms(EXPONENTS[..k]) == t < Pow2(EXPONENTS[k]) && Rev(t, 32) == r
    ensures var x := EXPONENTS[k]; Terms(EXPONENTS[..k + 1]) == t + Pow2(x) && Rev(t + Pow2(x), 32) == r + Pow2(31 - x)
  {
    hide Rev, Shl, Or;
    assert EXPONENTS[..k + 1][..k] == EXPONENTS[..k];
    RevTerm(t, EXPONENTS[k], 32);
  }

  /** The pattern is the constant that crc32_combine_ has for it. */
  lemma PatternIs()
    ensures Terms(EXPONENTS) == 0x4c11db7 && Rev(Terms(EXPONENTS), 32) == POLY
  {
    hide Terms, Rev, Pow2;
    Pow2Values();
    Powers();
    NoTerms();
    OneMore(0, 0x0, 0x0);
    OneMore(1, 0x1, 0x80000000);
    OneMore(2, 0x3, 0xc0000000);
    OneMore(3, 0x7, 0xe0000000);
    OneMore(4, 0x17, 0xe8000000);
    OneMore(5, 0x37, 0xec000000);
    OneMore(6, 0xb7, 0xed000000);
    OneMore(7, 0x1b7, 0xed800000);
    OneMore(8, 0x5b7, 0xeda00000);
    OneMore(9, 0xdb7, 0xedb00000);
    OneMore(10, 0x1db7, 0xedb80000);
    OneMore(11, 0x11db7, 0xedb88000);
    OneMore(12, 0x411db7, 0xedb88200);
    OneMore(13, 0xc11db7, 0xedb88300);
    assert EXPONENTS[..14] == EXPONENTS;
  }

  lemma NoTerms()
    ensures Terms(EXPONENTS[..0]) == 0 && Rev(0, 32) == 0
  {
    RevZero(32);
  }
}
