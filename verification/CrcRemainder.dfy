/**
  What the CRC register holds: the remainder of the bits that went through it, as a polynomial, divided by
  the polynomial of the CRC-32.

  The first bit is the coefficient of the highest power. Bit 31 - i of the register is the
  coefficient of x^i, so a register is read as a polynomial by reversing it.
 */
module CrcRemainder {
  import opened Bits
  import opened Xors
  import opened Polynomial
  import opened Crc

  /** The multiple by the lowest coefficient of q. */
  function Part(q: nat, p: nat): nat {
    if q % 2 == 1 then p else 0
  }

  /** The product of two polynomials. */
  function Product(q: nat, p: nat): nat {
    if q == 0 then 0 else Xor(Part(q, p), 2 * Product(q / 2, p))
  }

  /** a and b leave the same remainder. */
  ghost predicate Congruent(a: nat, b: nat) {
    exists q: nat :: Xor(a, b) == Product(q, Divisor())
  }

  /** The bits as a polynomial, the first being the highest coefficient. */
  function PolynomialOf(bits: seq<bool>): nat {
    if bits == [] then 0 else 2 * PolynomialOf(bits[..|bits| - 1]) + if bits[|bits| - 1] then 1 else 0
  }

  // ----- multiples of the divisor -----

  lemma Doubled(a: nat, b: nat)
    ensures Xor(2 * a, 2 * b) == 2 * Xor(a, b)
  {
    XorIs(2 * a, 2 * b);
    Evens(a, b);
  }

  lemma PartSum(q: nat, r: nat, p: nat)
    ensures Xor(Part(q, p), Part(r, p)) == Part(Xor(q, r), p)
  {
    hide Xor;
    XorStep(q, r);
    OddSum(q, r);
    if q % 2 == 1 && r % 2 == 1 {
      XorSelf(p);
    } else if q % 2 == 1 {
      XorNone(p);
    } else if r % 2 == 1 {
      XorSwap(0, p);
      XorNone(p);
    } else {
      XorSelf(0);
    }
  }

  lemma OddSum(q: nat, r: nat)
    ensures (q + r) % 2 == 1 <==> q % 2 != r % 2
  {}

  lemma {:induction false} ProductSum(q: nat, r: nat, p: nat)
    ensures Xor(Product(q, p), Product(r, p)) == Product(Xor(q, r), p)
    decreases q + r
  {
    hide Xor, Product, Part;
    if q + r == 0 {
      XorSelf(0);
      ProductNone(p);
    } else {
      ProductSum(q / 2, r / 2, p);
      XorStep(q, r);
      ProductStep(q, p);
      ProductStep(r, p);
      ProductStep(Xor(q, r), p);
      PartSum(q, r, p);
      XorSwapMiddle(Part(q, p), 2 * Product(q / 2, p), Part(r, p), 2 * Product(r / 2, p));
      Doubled(Product(q / 2, p), Product(r / 2, p));
    }
  }

  lemma ProductStep(q: nat, p: nat)
    ensures Product(q, p) == Xor(Part(q, p), 2 * Product(q / 2, p))
  {
    if q == 0 {
      XorSelf(0);
    }
  }

  lemma CongruentSelf(a: nat)
    ensures Congruent(a, a)
  {
    hide Xor;
    XorSelf(a);
    assert Product(0, Divisor()) == 0;
  }

  lemma CongruentTrans(a: nat, b: nat, c: nat)
    requires Congruent(a, b) && Congruent(b, c)
    ensures Congruent(a, c)
  {
    hide Xor, Product, Divisor;
    var q: nat :| Xor(a, b) == Product(q, Divisor());
    var r: nat :| Xor(b, c) == Product(r, Divisor());
    ProductSum(q, r, Divisor());
    XorAssoc(a, b, Xor(b, c));
    XorTwice(b, c);
  }

  lemma CongruentAdd(a: nat, b: nat, c: nat)
    requires Congruent(a, b)
    ensures Congruent(Xor(a, c), Xor(b, c))
  {
    hide Xor, Product, Divisor;
    XorSwapMiddle(a, c, b, c);
    XorSelf(c);
    XorNone(Xor(a, b));
  }

  lemma CongruentDouble(a: nat, b: nat)
    requires Congruent(a, b)
    ensures Congruent(2 * a, 2 * b)
  {
    hide Xor, Product, Divisor;
    var q: nat :| Xor(a, b) == Product(q, Divisor());
    Doubled(a, b);
    ProductStep(2 * q, Divisor());
    XorSwap(0, 2 * Product(q, Divisor()));
    XorNone(2 * Product(q, Divisor()));
  }

  /** A multiple of the divisor other than 0 has a degree of 32 or more. */
  lemma {:induction false} ProductDegree(q: nat)
    requires q > 0
    ensures Product(q, Divisor()) >= Pow2(32)
  {
    hide Xor, Pow2, Terms, Product;
    DivisorBelow();
    ProductStep(q, Divisor());
    if q == 1 {
      ProductNone(Divisor());
      XorNone(Divisor());
    } else {
      ProductDegree(q / 2);
      Highest(Part(q, Divisor()), 2 * Product(q / 2, Divisor()));
    }
  }

  lemma ProductNone(p: nat)
    ensures Product(0, p) == 0
  {}

  lemma DivisorBelow()
    ensures Pow2(32) <= Divisor() < Pow2(33)
  {
    hide Terms;
    TermsBelow(EXPONENTS, 32);
    DoublePow2(32);
  }

  lemma Highest(a: nat, b: nat)
    requires a < Pow2(33) && b >= 2 * Pow2(32)
    ensures Xor(a, b) >= Pow2(32)
  {
    hide Xor, Shr, Low, Shl;
    DoublePow2(32);
    if Xor(a, b) < Pow2(33) {
      XorBelow(a, Xor(a, b), 33);
      XorTwice(a, b);
    }
  }

  /** A remainder is determined: two polynomials below degree 32 that are congruent are the same. */
  lemma OneRemainder(a: nat, b: nat)
    requires a < Pow2(32) && b < Pow2(32) && Congruent(a, b)
    ensures a == b
  {
    hide Xor, Product, Divisor;
    var q: nat :| Xor(a, b) == Product(q, Divisor());
    XorBelow(a, b, 32);
    if q > 0 {
      ProductDegree(q);
    }
    ProductNone(Divisor());
    XorTwice(a, b);
    XorNone(a);
  }

  // ----- the register -----

  lemma {:induction false} RevXor(a: nat, b: nat, n: nat)
    ensures Rev(Xor(a, b), n) == Xor(Rev(a, n), Rev(b, n))
  {
    hide Xor, Shr, Rev, Pow2;
    if n == 0 {
      XorSelf(0);
      RevNone(a);
      RevNone(b);
      RevNone(Xor(a, b));
    } else {
      RevXor(a, b, n - 1);
      RevStep(a, n);
      RevStep(b, n);
      RevStep(Xor(a, b), n);
      ShrOfXor(a, b, n - 1);
      XorStep(Shr(a, n - 1), Shr(b, n - 1));
      XorIs(Rev(a, n), Rev(b, n));
      BitSum(Rev(a, n - 1), Shr(a, n - 1) % 2, Rev(b, n - 1), Shr(b, n - 1) % 2);
    }
  }

  lemma BitSum(x: nat, p: nat, y: nat, q: nat)
    requires p < 2 && q < 2
    ensures (2 * x + p) / 2 == x && (2 * y + q) / 2 == y && (2 * x + p + (2 * y + q)) % 2 == (p + q) % 2
  {}

  /** A zero bit multiplies by x. */
  lemma ZeroDoubles(g: nat)
    requires g < Pow2(32)
    ensures Congruent(Rev(Zero(g), 32), 2 * Rev(g, 32))
  {
    hide Xor, Rev, Divisor, Product, Shl, Terms;
    DoublePow2(31);
    var h, bit := g / 2, g % 2;
    RevLow(g, 32);
    RevWiden(h, 31, 32);
    ShlBit(bit, Rev(h, 31));
    XorDisjoint(Rev(h, 32), bit, 32);
    if bit == 1 {
      RevXor(POLY, h, 32);
      RevPattern();
      Reduced(Rev(h, 32));
    } else {
      CongruentSelf(Rev(h, 32));
    }
  }

  lemma ShlBit(bit: nat, r: nat)
    requires bit < 2
    ensures Shl(r, 1) == 2 * r && 2 * Shl(bit, 31) == Shl(bit, 32) && Shl(1, 32) == Pow2(32) && Shl(0, 32) == 0
  {
    ShlZero(32);
  }

  lemma RevPattern()
    ensures Rev(POLY, 32) == Terms(EXPONENTS)
  {
    hide Rev, Terms, Low, Pow2;
    PatternIs();
    TermsBelow(EXPONENTS, 32);
    RevRev(Terms(EXPONENTS), 32);
    LowSmall(Terms(EXPONENTS), 32);
  }

  /** Adding the divisor changes no remainder. */
  lemma Reduced(r: nat)
    requires r < Pow2(32)
    ensures Congruent(Xor(Terms(EXPONENTS), r), r + Pow2(32))
  {
    hide Xor, Terms, Product, Shl;
    var p := Terms(EXPONENTS);
    TermsBelow(EXPONENTS, 32);
    XorDisjoint(r, 1, 32);
    XorDisjoint(p, 1, 32);
    XorAssoc(p, r, Xor(r, Pow2(32)));
    XorTwice(r, Pow2(32));
    ProductStep(1, Divisor());
    ProductNone(Divisor());
    XorNone(Divisor());
  }

  lemma FeedLast(c: nat, bits: seq<bool>)
    requires bits != []
    ensures Feed(c, bits) == Zero(Xor(Feed(c, bits[..|bits| - 1]), if bits[|bits| - 1] then 1 else 0))
  {
    hide Zero, Xor;
    var k := |bits| - 1;
    assert bits == bits[..k] + [bits[k]];
    FeedConcat(c, bits[..k], [bits[k]]);
    assert [bits[k]][1..] == [];
  }

  /** What has gone in: the register at the start, moved up by the bits, and the bits, moved up by 32. */
  function Dividend(c: nat, bits: seq<bool>): nat {
    Xor(Shl(Rev(c, 32), |bits|), Shl(PolynomialOf(bits), 32))
  }

  lemma DividendNext(c: nat, bits: seq<bool>)
    requires bits != []
    ensures var k := |bits| - 1;
            Dividend(c, bits) == Xor(2 * Dividend(c, bits[..k]), if bits[k] then Pow2(32) else 0)
  {
    hide Xor, Rev;
    var k, bit := |bits| - 1, if bits[|bits| - 1] then 1 else 0;
    var a, b := Shl(Rev(c, 32), k), PolynomialOf(bits[..k]);
    Doubled(a, Shl(b, 32));
    ShlDoubled(b, bit);
    XorAssoc(2 * a, 2 * Shl(b, 32), if bits[k] then Pow2(32) else 0);
  }

  /** (2b + bit) << 32, in two parts. */
  lemma ShlDoubled(b: nat, bit: nat)
    requires bit < 2
    ensures Shl(2 * b + bit, 32) == Xor(2 * Shl(b, 32), if bit == 1 then Pow2(32) else 0)
  {
    hide Xor, Shl;
    ShlAdd(2 * b, bit, 32);
    ShlAdd(b, b, 32);
    ShlZero(32);
    if bit == 1 {
      DoublePow2(32);
      ShlOfDouble(b);
      XorDisjoint(Pow2(32), b, 33);
      XorSwap(Pow2(32), Shl(b, 33));
    } else {
      XorNone(2 * Shl(b, 32));
    }
  }

  lemma ShlOfDouble(b: nat)
    ensures Shl(b, 33) == 2 * Shl(b, 32)
  {}

  /**
    The register holds the remainder: it has degree below 32 and is congruent to all that went in, from
    whatever value it started.
   */
  lemma {:induction false} RegisterIsRemainder(c: nat, bits: seq<bool>)
    requires c < Pow2(32)
    ensures Feed(c, bits) < Pow2(32) && Rev(Feed(c, bits), 32) < Pow2(32)
    ensures Congruent(Rev(Feed(c, bits), 32), Dividend(c, bits))
    decreases |bits|
  {
    hide Xor, Rev, Zero, Congruent, Feed, Pow2, Dividend;
    WordSize();
    FeedBelow(c, bits);
    if bits == [] {
      NothingFed(c);
    } else {
      var k := |bits| - 1;
      var f, bit := Feed(c, bits[..k]), if bits[k] then 1 else 0;
      RegisterIsRemainder(c, bits[..k]);
      FeedLast(c, bits);
      BitGoesIn(f, bit);
      CongruentDouble(Rev(f, 32), Dividend(c, bits[..k]));
      CongruentAdd(2 * Rev(f, 32), 2 * Dividend(c, bits[..k]), if bit == 1 then Pow2(32) else 0);
      DividendNext(c, bits);
      CongruentTrans(Rev(Feed(c, bits), 32), Xor(2 * Rev(f, 32), if bit == 1 then Pow2(32) else 0), Dividend(c, bits));
    }
  }

  lemma CongruentSwap(a: nat, b: nat)
    requires Congruent(a, b)
    ensures Congruent(b, a)
  {
    hide Xor, Product, Divisor;
    XorSwap(a, b);
  }

  /** Of all polynomials of degree below 32 the register holds the one that what went in is congruent to. */
  lemma TheRemainder(c: nat, bits: seq<bool>, r: nat)
    requires c < Pow2(32) && r < Pow2(32)
    ensures Congruent(r, Dividend(c, bits)) <==> r == Rev(Feed(c, bits), 32)
  {
    hide Congruent, Dividend, Feed, Rev, Pow2;
    RegisterIsRemainder(c, bits);
    if Congruent(r, Dividend(c, bits)) {
      CongruentSwap(Rev(Feed(c, bits), 32), Dividend(c, bits));
      CongruentTrans(r, Dividend(c, bits), Rev(Feed(c, bits), 32));
      OneRemainder(r, Rev(Feed(c, bits), 32));
    }
  }

  lemma NothingFed(c: nat)
    requires c < Pow2(32)
    ensures Feed(c, []) == c && Congruent(Rev(c, 32), Dividend(c, []))
  {
    hide Xor, Rev, Congruent;
    ShlZero(32);
    XorNone(Rev(c, 32));
    CongruentSelf(Rev(c, 32));
  }

  /** A bit adds its multiple of x^32 once the register has been multiplied by x. */
  lemma BitGoesIn(f: nat, bit: nat)
    requires f < Pow2(32) && bit < 2
    ensures Congruent(Rev(Zero(Xor(f, bit)), 32), Xor(2 * Rev(f, 32), if bit == 1 then Pow2(32) else 0))
  {
    hide Xor, Rev, Zero, Congruent, Shl;
    Pow2Mono(1, 32);
    WordSize();
    XorBelow(f, bit, 32);
    ZeroDoubles(Xor(f, bit));
    RevXor(f, bit, 32);
    RevOfBit(bit);
    Doubled(Rev(f, 32), Rev(bit, 32));
  }

  lemma RevOfBit(bit: nat)
    requires bit < 2
    ensures 2 * Rev(bit, 32) == if bit == 1 then Pow2(32) else 0
  {
    hide Rev;
    RevLow(bit, 32);
    RevZero(31);
    DoublePow2(31);
    ShlZero(31);
  }
}
