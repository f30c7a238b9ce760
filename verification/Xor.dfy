/** Exclusive or on numbers. */
module Xors {
  import opened Bits

  /** a ^ b */
  function Xor(a: nat, b: nat): nat {
    if a == 0 && b == 0 then 0 else (a + b) % 2 + 2 * Xor(a / 2, b / 2)
  }

  /** The low n bits of an exclusive or depend on the low n bits of the operands, and determine them. */
  lemma {:induction false} XorLow(a: nat, b: nat, c: nat, n: nat)
    ensures Low(Xor(a, c), n) == Low(Xor(b, c), n) <==> Low(a, n) == Low(b, n)
  {
    hide Xor, Low;
    if n > 0 {
      XorLow(a / 2, b / 2, c / 2, n - 1);
      XorStep(a, c);
      XorStep(b, c);
      ParityEqual(a, b, c);
      LowStep(a, n);
      LowStep(b, n);
      LowStep(Xor(a, c), n);
      LowStep(Xor(b, c), n);
    } else {
      LowNone(a);
      LowNone(b);
      LowNone(Xor(a, c));
      LowNone(Xor(b, c));
    }
  }

  lemma XorStep(a: nat, b: nat)
    ensures Xor(a, b) % 2 == (a + b) % 2 && Xor(a, b) / 2 == Xor(a / 2, b / 2)
  {
    hide Xor;
    XorIs(a, b);
    Halves(Xor(a / 2, b / 2), (a + b) % 2);
  }

  lemma XorIs(a: nat, b: nat)
    ensures Xor(a, b) == (a + b) % 2 + 2 * Xor(a / 2, b / 2)
  {}

  lemma Halves(m: nat, r: nat)
    requires r < 2
    ensures (r + 2 * m) % 2 == r && (r + 2 * m) / 2 == m
  {}

  lemma LowStep(v: nat, n: nat)
    requires n > 0
    ensures Low(v, n) % 2 == v % 2 && Low(v, n) / 2 == Low(v / 2, n - 1)
  {
    Halves(Low(v / 2, n - 1), v % 2);
  }

  lemma ParityEqual(a: nat, b: nat, c: nat)
    ensures (a + c) % 2 == (b + c) % 2 <==> a % 2 == b % 2
  {}

  lemma {:induction false} XorSwap(a: nat, b: nat)
    ensures Xor(a, b) == Xor(b, a)
  {
    if a != 0 || b != 0 {
      XorSwap(a / 2, b / 2);
    }
  }

  lemma LowNone(v: nat)
    ensures Low(v, 0) == Low(0, 0)
  {}

  lemma ShlLow(v: nat, m: nat, k: nat)
    ensures Low(Shl(v, m), k + m) == Shl(Low(v, k), m)
  {
    LowSplit(Shl(v, m), m, k);
    LowAddShl(0, v, m);
    ShrNothing(m);
    assert m + k == k + m;
  }

  lemma {:induction false} ShrNothing(m: nat)
    ensures Shr(0, m) == 0 && Low(0, m) == 0
  {
    if m > 0 {
      ShrNothing(m - 1);
    }
  }

  lemma {:induction false} XorNone(a: nat)
    ensures Xor(a, 0) == a
  {
    if a > 0 {
      XorNone(a / 2);
    }
  }

  lemma {:induction false} XorSelf(a: nat)
    ensures Xor(a, a) == 0
  {
    if a > 0 {
      XorSelf(a / 2);
    }
  }

  lemma {:induction false} XorAssoc(a: nat, b: nat, c: nat)
    ensures Xor(Xor(a, b), c) == Xor(a, Xor(b, c))
    decreases a + b + c
  {
    hide Xor;
    XorIs(Xor(a, b), c);
    XorIs(a, Xor(b, c));
    XorStep(a, b);
    XorStep(b, c);
    if a + b + c > 0 {
      XorAssoc(a / 2, b / 2, c / 2);
    } else {
      XorNone(0);
    }
    Parity3(a, b, c, Xor(a, b), Xor(b, c));
  }

  lemma Parity3(a: nat, b: nat, c: nat, x: nat, y: nat)
    requires x % 2 == (a + b) % 2 && y % 2 == (b + c) % 2
    ensures (x + c) % 2 == (a + y) % 2
  {}

  /** (a ^ b) ^ (c ^ d) == (a ^ c) ^ (b ^ d) */
  lemma XorSwapMiddle(a: nat, b: nat, c: nat, d: nat)
    ensures Xor(Xor(a, b), Xor(c, d)) == Xor(Xor(a, c), Xor(b, d))
  {
    hide Xor;
    XorAssoc(a, b, Xor(c, d));
    XorAssoc(b, c, d);
    XorSwap(b, c);
    XorAssoc(c, b, d);
    XorAssoc(a, c, Xor(b, d));
  }

  /** a ^ (a ^ b) == b */
  lemma XorTwice(a: nat, b: nat)
    ensures Xor(a, Xor(a, b)) == b
  {
    hide Xor;
    XorAssoc(a, a, b);
    XorSelf(a);
    XorSwap(0, b);
    XorNone(b);
  }

  lemma {:induction false} LowOfXor(a: nat, b: nat, n: nat)
    ensures Low(Xor(a, b), n) == Xor(Low(a, n), Low(b, n))
  {
    hide Xor, Low;
    if n > 0 {
      LowOfXor(a / 2, b / 2, n - 1);
      XorStep(a, b);
      LowStep(a, n);
      LowStep(b, n);
      LowStep(Xor(a, b), n);
      XorIs(Low(a, n), Low(b, n));
      Parity2(a, b, Low(a, n), Low(b, n));
    } else {
      LowNone(Xor(a, b));
      LowNone(a);
      LowNone(b);
      LowZero();
      XorSelf(0);
    }
  }

  lemma LowZero()
    ensures Low(0, 0) == 0
  {}

  lemma Parity2(a: nat, b: nat, x: nat, y: nat)
    requires x % 2 == a % 2 && y % 2 == b % 2
    ensures (x + y) % 2 == (a + b) % 2
  {}

  lemma {:induction false} ShrOfXor(a: nat, b: nat, n: nat)
    ensures Shr(Xor(a, b), n) == Xor(Shr(a, n), Shr(b, n))
  {
    hide Xor;
    if n > 0 {
      ShrOfXor(a / 2, b / 2, n - 1);
      XorStep(a, b);
    }
  }

  lemma XorBelow(a: nat, b: nat, n: nat)
    requires a < Pow2(n) && b < Pow2(n)
    ensures Xor(a, b) < Pow2(n)
  {
    hide Xor, Low;
    LowOfXor(a, b, n);
    LowSmall(a, n);
    LowSmall(b, n);
    LowBelow(Xor(a, b), n);
  }

  lemma Evens(x: nat, y: nat)
    ensures (2 * x + 2 * y) % 2 == 0 && 2 * x / 2 == x && 2 * y / 2 == y
  {}

  /** Xor-ing into bits that are zero is addition. */
  lemma {:induction false} XorDisjoint(lo: nat, hi: nat, n: nat)
    requires lo < Pow2(n)
    ensures Xor(lo, Shl(hi, n)) == lo + Shl(hi, n)
  {
    hide Xor;
    if n > 0 {
      XorDisjoint(lo / 2, hi, n - 1);
      XorIs(lo, Shl(hi, n));
      Evens(Shl(hi, n - 1), 0);
    } else {
      XorSwap(0, hi);
      XorNone(hi);
    }
  }

  /** A number is its low bits and the rest, xor-ed together. */
  lemma XorCut(v: nat, n: nat)
    ensures v == Xor(Low(v, n), Shl(Shr(v, n), n))
  {
    hide Xor, Low, Shr, Shl;
    LowShr(v, n);
    LowBelow(v, n);
    XorDisjoint(Low(v, n), Shr(v, n), n);
  }
}
