/**
  crc32.c: the CRC-32 of a byte sequence, byte by byte and four bytes at a time, and the CRC of a
  concatenation.

  The definition is bit-serial: a register that divides by the polynomial, one bit at a time,
  lowest bit first (section 8 of RFC 1952). Module CrcRemainder says in what sense it divides.
 */
module Crc {
  import opened Bits
  import opened Xors
  import opened Polynomial

  const ONES: nat := 0xffffffff

  /** A zero bit goes through the register. */
  function Zero(c: nat): nat {
    if c % 2 == 1 then Xor(POLY, c / 2) else c / 2
  }

  function Zeros(c: nat, n: nat): nat
    decreases n
  {
    if n == 0 then c else Zeros(Zero(c), n - 1)
  }

  /** The register after the bits. */
  function Feed(c: nat, bits: seq<bool>): nat
    decreases |bits|
  {
    if bits == [] then c else Feed(Zero(Xor(c, if bits[0] then 1 else 0)), bits[1..])
  }

  /** The CRC of the bytes, going on from the CRC of what came before them. */
  function Crc32(crc: nat, bytes: seq<byte>): nat {
    Xor(Feed(Xor(crc, ONES), BytesBits(bytes)), ONES)
  }

  // ----- the register is linear -----

  lemma ZeroXor(a: nat, b: nat)
    ensures Zero(Xor(a, b)) == Xor(Zero(a), Zero(b))
  {
    hide Xor;
    XorStep(a, b);
    var x, y := a / 2, b / 2;
    if a % 2 == 1 && b % 2 == 1 {
      XorSwapMiddle(POLY, x, POLY, y);
      XorSelf(POLY);
      XorSwap(0, Xor(x, y));
      XorNone(Xor(x, y));
    } else if a % 2 == 1 {
      XorAssoc(POLY, x, y);
    } else if b % 2 == 1 {
      XorAssoc(x, POLY, y);
      XorSwap(x, POLY);
      XorAssoc(POLY, x, y);
    }
  }

  lemma {:induction false} ZerosXor(a: nat, b: nat, n: nat)
    ensures Zeros(Xor(a, b), n) == Xor(Zeros(a, n), Zeros(b, n))
    decreases n
  {
    hide Xor, Zero;
    if n > 0 {
      ZeroXor(a, b);
      ZerosXor(Zero(a), Zero(b), n - 1);
    }
  }

  lemma {:induction false} ZerosSplit(c: nat, m: nat, n: nat)
    ensures Zeros(c, m + n) == Zeros(Zeros(c, m), n)
    decreases m
  {
    hide Zero;
    if m > 0 {
      ZerosSplit(Zero(c), m - 1, n);
      assert m + n - 1 == (m - 1) + n;
    }
  }

  /** Zeros below the value just move it down. */
  lemma {:induction false} ZerosShl(v: nat, n: nat)
    ensures Zeros(Shl(v, n), n) == v
  {
    if n > 0 {
      ZerosShl(v, n - 1);
      Evens(Shl(v, n - 1), 0);
    }
  }

  lemma {:induction false} ZerosBelow(c: nat, n: nat)
    requires c < 0x1_0000_0000
    ensures Zeros(c, n) < 0x1_0000_0000
    decreases n
  {
    hide Xor;
    if n > 0 {
      WordSize();
      XorBelow(POLY, c / 2, 32);
      ZerosBelow(Zero(c), n - 1);
    }
  }

  lemma {:induction false} FeedConcat(c: nat, a: seq<bool>, b: seq<bool>)
    ensures Feed(c, a + b) == Feed(Feed(c, a), b)
    decreases |a|
  {
    hide Xor, Zero;
    if a == [] {
      assert a + b == b;
    } else {
      assert (a + b)[1..] == a[1..] + b;
      FeedConcat(Zero(Xor(c, if a[0] then 1 else 0)), a[1..], b);
    }
  }

  /** Bits that go through the register one by one may as well be xor-ed in beforehand. */
  lemma {:induction false} FeedAtOnce(c: nat, v: nat, n: nat)
    requires v < Pow2(n)
    ensures Feed(c, BitsOf(v, n)) == Zeros(Xor(c, v), n)
    decreases n
  {
    hide Xor, Zero;
    if n == 0 {
      XorNone(c);
    } else {
      var bit := if v % 2 == 1 then 1 else 0;
      assert BitsOf(v, n)[1..] == BitsOf(v / 2, n - 1);
      FeedAtOnce(Zero(Xor(c, bit)), v / 2, n - 1);
      BitApart(v);
      XorAssoc(c, bit, 2 * (v / 2));
      ZeroXor(Xor(c, bit), 2 * (v / 2));
      ZeroEven(v / 2);
    }
  }

  lemma BitApart(v: nat)
    ensures Xor(if v % 2 == 1 then 1 else 0, 2 * (v / 2)) == v
  {
    hide Xor;
    XorDisjoint(v % 2, v / 2, 1);
  }

  lemma ZeroEven(v: nat)
    ensures Zero(2 * v) == v
  {}

  /** The effect of bits on a register is that of zeros on it and of the bits on an empty one. */
  lemma {:induction false} FeedSplit(c: nat, bits: seq<bool>)
    ensures Feed(c, bits) == Xor(Zeros(c, |bits|), Feed(0, bits))
    decreases |bits|
  {
    hide Xor, Zero;
    if bits == [] {
      XorNone(c);
    } else {
      var bit := if bits[0] then 1 else 0;
      var rest := bits[1..];
      FeedSplit(Zero(Xor(c, bit)), rest);
      FeedSplit(Zero(Xor(0, bit)), rest);
      XorSwap(0, bit);
      XorNone(bit);
      ZeroXor(c, bit);
      ZerosXor(Zero(c), Zero(bit), |rest|);
      XorAssoc(Zeros(Zero(c), |rest|), Zeros(Zero(bit), |rest|), Feed(0, rest));
    }
  }

  /** The CRC of a concatenation goes on from the CRC of its first part. */
  lemma CrcConcat(crc: nat, a: seq<byte>, b: seq<byte>)
    ensures Crc32(Crc32(crc, a), b) == Crc32(crc, a + b)
  {
    hide Xor, Zero;
    var c := Xor(crc, ONES);
    BytesBitsConcat(a, b);
    FeedConcat(c, BytesBits(a), BytesBits(b));
    XorAssoc(Feed(c, BytesBits(a)), ONES, ONES);
    XorSelf(ONES);
    XorNone(Feed(c, BytesBits(a)));
  }

  // ----- tables -----

  /** One byte by the table. */
  lemma ByteByTable(c: nat, b: byte)
    ensures Feed(c, BitsOf(b, 8)) == Xor(Zeros(Low(Xor(c, b), 8), 8), Shr(c, 8))
  {
    hide Xor, Zero, Low, Shr, Shl, BitsOf, Feed, Zeros;
    Pow2Values();
    FeedAtOnce(c, b, 8);
    var x := Xor(c, b);
    XorCut(x, 8);
    ZerosXor(Low(x, 8), Shl(Shr(x, 8), 8), 8);
    ZerosShl(Shr(x, 8), 8);
    ShrOfXor(c, b, 8);
    LowSmall(b, 8);
    XorNone(Shr(c, 8));
  }

  /** make_crc_table: the pattern from the exponents, the four tables, and the same with the bytes of the entries reversed. */
  method MakeCrcTable() returns (t: array2<nat>)
    ensures fresh(t) && Tables(t)
  {
    hide Zero, Xor, Zeros, Swap, Rev, Terms;
    var poly := MakePattern();
    PatternIs();
    t := new nat[8, 256];
    var n := 0;
    while n < 256
      invariant n <= 256 && forall i :: 0 <= i < n ==> t[0, i] == Zeros(i, 8)
    {
      var c := n;
      var k := 0;
      ZerosNone(n);
      while k < 8
        invariant k <= 8 && c == Zeros(n, k)
        invariant forall i :: 0 <= i < n ==> t[0, i] == Zeros(i, 8)
      {
        ZeroIs(c);
        ZerosNext(n, k);
        c := if c % 2 == 1 then Xor(poly, c / 2) else c / 2;
        k := k + 1;
      }
      t[0, n] := c;
      n := n + 1;
    }
    n := 0;
    while n < 256
      invariant n <= 256 && (forall i :: 0 <= i < 256 ==> t[0, i] == Zeros(i, 8)) && forall i :: 0 <= i < n ==> Column(t, i)
    {
      label before:
      FillColumn(t, n);
      forall i | 0 <= i < n ensures Column(t, i) {
        assert old@before(Column(t, i));
      }
      n := n + 1;
    }
    ColumnsAre(t);
  }

  /** Entry n of all eight tables. */
  ghost predicate Column(t: array2<nat>, n: nat)
    requires t.Length0 == 8 && n < t.Length1
    reads t
  {
    forall k :: 0 <= k < 4 ==> t[k, n] == Zeros(n, 8 * k + 8) && t[k + 4, n] == Swap(Zeros(n, 8 * k + 8))
  }

  lemma ColumnsAre(t: array2<nat>)
    requires t.Length0 == 8 && t.Length1 == 256 && forall i :: 0 <= i < 256 ==> Column(t, i)
    ensures Tables(t)
  {
    hide Zeros, Swap;
    forall k, i | 0 <= k < 4 && 0 <= i < 256 ensures t[k, i] == Zeros(i, 8 * k + 8) && t[k + 4, i] == Swap(Zeros(i, 8 * k + 8)) {
      assert Column(t, i);
    }
  }

  /** The CRC of byte n followed by one, two and three zero bytes, and the byte reversals. */
  method FillColumn(t: array2<nat>, n: nat)
    requires t.Length0 == 8 && t.Length1 == 256 && n < 256 && forall i :: 0 <= i < 256 ==> t[0, i] == Zeros(i, 8)
    modifies t
    ensures Column(t, n) && forall k, i :: 0 <= k < 8 && 0 <= i < 256 && (i != n || k == 0) ==> t[k, i] == old(t[k, i])
  {
    hide Zero, Xor, Zeros, Swap;
    var c := t[0, n];
    t[4, n] := Swap(c);
    var k := 1;
    while k < 4
      invariant 1 <= k <= 4 && c == Zeros(n, 8 * k)
      invariant forall j :: 0 <= j < k ==> t[j, n] == Zeros(n, 8 * j + 8) && t[j + 4, n] == Swap(Zeros(n, 8 * j + 8))
      invariant forall j, i :: 0 <= j < 8 && 0 <= i < 256 && (i != n || j == 0) ==> t[j, i] == old(t[j, i])
    {
      ZeroByte(c);
      ZerosSplit(n, 8 * k, 8);
      c := Xor(t[0, Low(c, 8)], Shr(c, 8));
      t[k, n] := c;
      t[k + 4, n] := Swap(c);
      k := k + 1;
    }
  }

  ghost predicate Tables(t: array2<nat>)
    reads t
  {
    && t.Length0 == 8 && t.Length1 == 256
    && forall k, i :: 0 <= k < 4 && 0 <= i < 256 ==> t[k, i] == Zeros(i, 8 * k + 8) && t[k + 4, i] == Swap(Zeros(i, 8 * k + 8))
  }

  lemma ZerosNone(c: nat)
    ensures Zeros(c, 0) == c
  {}

  lemma ZeroIs(c: nat)
    ensures Zero(c) == if c % 2 == 1 then Xor(POLY, c / 2) else c / 2
  {}

  lemma ZerosNext(c: nat, n: nat)
    ensures Zeros(c, n + 1) == Zero(Zeros(c, n))
  {
    hide Zero;
    ZerosSplit(c, n, 1);
    assert Zeros(Zeros(c, n), 1) == Zeros(Zero(Zeros(c, n)), 0);
  }

  lemma ZeroByte(c: nat)
    ensures Zeros(c, 8) == Xor(Zeros(Low(c, 8), 8), Shr(c, 8)) && Low(c, 8) < 256
  {
    hide Xor, Zero, Low, Shr, Shl, Zeros;
    Pow2Values();
    XorCut(c, 8);
    ZerosXor(Low(c, 8), Shl(Shr(c, 8), 8), 8);
    ZerosShl(Shr(c, 8), 8);
    LowBelow(c, 8);
  }

  /** ZSWAP32: the four bytes of a word in reverse. */
  function Swap(q: nat): nat {
    Join(Digit(q, 3), Digit(q, 2), Digit(q, 1), Digit(q, 0))
  }

  // ----- a byte at a time -----

  lemma FeedNext(c: nat, buf: seq<byte>, i: nat)
    requires i < |buf| && c < 0x1_0000_0000
    ensures Low(Xor(c, buf[i]), 8) < 256
    ensures Feed(c, BitsOf(buf[i], 8)) == Xor(Zeros(Low(Xor(c, buf[i]), 8), 8), Shr(c, 8)) < 0x1_0000_0000
    ensures forall c0 :: Feed(c0, BytesBits(buf[..i + 1])) == Feed(Feed(c0, BytesBits(buf[..i])), BitsOf(buf[i], 8))
  {
    hide Xor, Zero, Low, Shr, BitsOf, Feed, Zeros;
    Pow2Values();
    WordSize();
    LowBelow(Xor(c, buf[i]), 8);
    ByteByTable(c, buf[i]);
    XorBelow(c, buf[i], 32);
    FeedAtOnce(c, buf[i], 8);
    ZerosBelow(Xor(c, buf[i]), 8);
    assert buf[..i + 1] == buf[..i] + [buf[i]];
    BytesBitsPush(buf[..i], buf[i]);
    forall c0 ensures Feed(c0, BytesBits(buf[..i + 1])) == Feed(Feed(c0, BytesBits(buf[..i])), BitsOf(buf[i], 8)) {
      FeedConcat(c0, BytesBits(buf[..i]), BitsOf(buf[i], 8));
    }
  }

  /** One byte by the table: the bytes up to i have gone through the register. */
  method ByteStep(t: array2<nat>, c: nat, buf: array<byte>, i: nat, ghost c0: nat) returns (c': nat)
    requires Tables(t) && i < buf.Length && c == Feed(c0, BytesBits(buf[..i])) < 0x1_0000_0000
    ensures c' == Feed(c0, BytesBits(buf[..i + 1])) < 0x1_0000_0000
  {
    hide Xor, Zero, Low, Shr, BitsOf, Feed, Zeros, Swap;
    FeedNext(c, buf[..], i);
    assert buf[..][..i] == buf[..i] && buf[..][..i + 1] == buf[..i + 1];
    c' := Xor(t[0, Low(Xor(c, buf[i]), 8)], Shr(c, 8));
  }

  lemma Start(crc: nat, buf: seq<byte>)
    requires crc < 0x1_0000_0000
    ensures Xor(crc, ONES) == Feed(Xor(crc, ONES), BytesBits(buf[..0])) < 0x1_0000_0000
  {
    hide Xor;
    WordSize();
    XorBelow(crc, ONES, 32);
  }

  /** crc32_z without BYFOUR: eight bytes to a turn, then the rest. */
  method CrcBytes(t: array2<nat>, crc: nat, buf: array<byte>) returns (r: nat)
    requires Tables(t) && crc < 0x1_0000_0000
    ensures r == Crc32(crc, buf[..])
  {
    hide Xor, Feed, Tables;
    ghost var c0 := Xor(crc, ONES);
    Start(crc, buf[..]);
    var c, i := Xor(crc, ONES), 0;
    assert buf[..][..0] == buf[..0];
    while buf.Length - i >= 8
      invariant i <= buf.Length && c == Feed(c0, BytesBits(buf[..i])) < 0x1_0000_0000
    {
      var k, i0 := 0, i;
      while k < 8
        invariant k <= 8 && i == i0 + k && i0 + 8 <= buf.Length && c == Feed(c0, BytesBits(buf[..i])) < 0x1_0000_0000
      {
        c := ByteStep(t, c, buf, i, c0);
        i, k := i + 1, k + 1;
      }
    }
    while i < buf.Length
      invariant i <= buf.Length && c == Feed(c0, BytesBits(buf[..i])) < 0x1_0000_0000
    {
      c := ByteStep(t, c, buf, i, c0);
      i := i + 1;
    }
    r := Xor(c, ONES);
    assert buf[..i] == buf[..];
  }

  // ----- four bytes at a time -----

  lemma ZerosCut(x: nat, n: nat)
    requires n >= 8
    ensures Zeros(x, n) == Xor(Zeros(Low(x, 8), n), Zeros(Shr(x, 8), n - 8))
  {
    hide Xor, Zero, Low, Shr, Shl, Zeros;
    XorCut(x, 8);
    ZerosXor(Low(x, 8), Shl(Shr(x, 8), 8), n);
    ZerosSplit(Shl(Shr(x, 8), 8), 8, n - 8);
    ZerosShl(Shr(x, 8), 8);
  }

  /** Byte i of a word. */
  function Digit(x: nat, i: nat): (d: nat)
    ensures d < 256
  {
    Pow2Values();
    Low(Shr(x, 8 * i), 8)
  }

  function Join(a: nat, b: nat, c: nat, d: nat): nat {
    a + 256 * b + 65536 * c + 16777216 * d
  }

  /** Four bytes by the four tables. */
  lemma WordByTable(x: nat)
    requires x < 0x1_0000_0000
    ensures Zeros(x, 32) ==
            Xor(Xor(Xor(Zeros(Digit(x, 0), 32), Zeros(Digit(x, 1), 24)), Zeros(Digit(x, 2), 16)), Zeros(Digit(x, 3), 8))
  {
    hide Xor, Zero, Low, Shr, Zeros;
    ShrNone(x);
    ZerosCut(x, 32);
    ZerosCut(Shr(x, 8), 24);
    ShrShr(x, 8, 8);
    ZerosCut(Shr(x, 16), 16);
    ShrShr(x, 16, 8);
    WordSize();
    Pow2Values();
    LowSmall(x, 32);
    ShrLow(x, 24, 32);
    LowLow(Shr(x, 24), 8, 8);
    var a, b, c, d := Zeros(Digit(x, 0), 32), Zeros(Digit(x, 1), 24), Zeros(Digit(x, 2), 16), Zeros(Digit(x, 3), 8);
    XorAssoc(a, b, Xor(c, d));
    XorAssoc(Xor(a, b), c, d);
  }

  lemma ByteArithmetic(x: nat)
    ensures Low(x, 8) == x % 256 && Shr(x, 8) == x / 256
  {
    hide Low, Shr, Shl;
    LowShr(x, 8);
    ShlByte(Shr(x, 8));
    Pow2Values();
    LowBelow(x, 8);
    ByteAndRest(x, Low(x, 8), Shr(x, 8));
  }

  lemma ShlByte(x: nat)
    ensures Shl(x, 8) == 256 * x
  {
    hide Shl;
    ShlOnce(x, 7);
    ShlOnce(x, 6);
    ShlOnce(x, 5);
    ShlOnce(x, 4);
    ShlOnce(x, 3);
    ShlOnce(x, 2);
    ShlOnce(x, 1);
    ShlOnce(x, 0);
  }

  lemma ShlOnce(x: nat, k: nat)
    ensures Shl(x, k + 1) == 2 * Shl(x, k) && Shl(x, 0) == x
  {}

  lemma DigitsAre(x: nat)
    ensures Digit(x, 0) == x % 256 && Digit(x, 1) == x / 256 % 256 && Digit(x, 2) == x / 65536 % 256 && Digit(x, 3) == x / 16777216 % 256
  {
    hide Low, Shr;
    ShrNone(x);
    ByteArithmetic(x);
    ShrShr(x, 8, 8);
    ByteArithmetic(x / 256);
    ShrShr(x, 16, 8);
    ByteArithmetic(x / 256 / 256);
    ByteArithmetic(x / 256 / 256 / 256);
    Quotients(x);
  }

  lemma DigitsOf(x: nat)
    requires x < 0x1_0000_0000
    ensures x == Join(Digit(x, 0), Digit(x, 1), Digit(x, 2), Digit(x, 3))
  {
    hide Digit;
    DigitsAre(x);
    Quotients(x);
    ByteAndRest(x, x % 256, x / 256);
    ByteAndRest(x / 256, x / 256 % 256, x / 256 / 256);
    ByteAndRest(x / 256 / 256, x / 256 / 256 % 256, x / 256 / 256 / 256);
  }

  lemma JoinDigits(a: nat, b: nat, c: nat, d: nat)
    requires a < 256 && b < 256 && c < 256 && d < 256
    ensures var x := Join(a, b, c, d);
            x < 0x1_0000_0000 && Digit(x, 0) == a && Digit(x, 1) == b && Digit(x, 2) == c && Digit(x, 3) == d
  {
    hide Digit;
    var x := Join(a, b, c, d);
    DigitsAre(x);
    ByteAndRest(x, a, b + 256 * (c + 256 * d));
    ByteAndRest(b + 256 * (c + 256 * d), b, c + 256 * d);
    ByteAndRest(c + 256 * d, c, d);
    Quotients(x);
  }

  lemma ByteAndRest(x: nat, a: nat, rest: nat)
    requires a < 256 && x == a + 256 * rest
    ensures x % 256 == a && x / 256 == rest
  {}

  lemma Quotients(x: nat)
    ensures x / 65536 == x / 256 / 256 && x / 16777216 == x / 256 / 256 / 256
  {}

  lemma DigitXor(x: nat, y: nat, i: nat)
    ensures Digit(Xor(x, y), i) == Xor(Digit(x, i), Digit(y, i))
  {
    hide Xor, Low, Shr;
    ShrOfXor(x, y, 8 * i);
    LowOfXor(Shr(x, 8 * i), Shr(y, 8 * i), 8);
  }

  /** The bits of a word are those of its bytes, low byte first. */
  lemma WordBits(b0: byte, b1: byte, b2: byte, b3: byte)
    ensures Join(b0, b1, b2, b3) < 0x1_0000_0000
    ensures BitsOf(Join(b0, b1, b2, b3), 32) == BytesBits([b0, b1, b2, b3])
  {
    hide BitsOf;
    var r1, r2 := b1 + 256 * b2 + 65536 * b3, b2 + 256 * b3;
    TopByte(b0, r1, 24);
    TopByte(b1, r2, 16);
    TopByte(b2, b3, 8);
    BytesBitsHead([b0, b1, b2, b3]);
    assert [b0, b1, b2, b3][1..] == [b1, b2, b3];
    BytesBitsHead([b1, b2, b3]);
    assert [b1, b2, b3][1..] == [b2, b3];
    BytesBitsHead([b2, b3]);
    assert [b2, b3][1..] == [b3];
    BytesBitsHead([b3]);
    assert [b3][1..] == [];
  }

  lemma TopByte(b: byte, rest: nat, n: nat)
    ensures BitsOf(b + 256 * rest, 8 + n) == BitsOf(b, 8) + BitsOf(rest, n)
  {
    hide BitsOf;
    var v := b + 256 * rest;
    BitsOfSplit(v, 8, n);
    ByteArithmetic(v);
    BitsOfLow(v, 8, 8);
    assert v % 256 == b && v / 256 == rest;
  }

  lemma FeedWord(c: nat, buf: seq<byte>, i: nat)
    requires i + 4 <= |buf| && c < 0x1_0000_0000
    ensures var w := Join(buf[i], buf[i + 1], buf[i + 2], buf[i + 3]);
            Xor(c, w) < 0x1_0000_0000 && Zeros(Xor(c, w), 32) < 0x1_0000_0000 &&
            forall c0 :: Feed(c0, BytesBits(buf[..i])) == c ==> Feed(c0, BytesBits(buf[..i + 4])) == Zeros(Xor(c, w), 32)
  {
    hide Xor, Feed, Zeros, BitsOf;
    var w := Join(buf[i], buf[i + 1], buf[i + 2], buf[i + 3]);
    WordBits(buf[i], buf[i + 1], buf[i + 2], buf[i + 3]);
    WordSize();
    XorBelow(c, w, 32);
    ZerosBelow(Xor(c, w), 32);
    FeedAtOnce(c, w, 32);
    var four := buf[i..i + 4];
    assert four == [buf[i], buf[i + 1], buf[i + 2], buf[i + 3]];
    assert buf[..i + 4] == buf[..i] + four;
    BytesBitsConcat(buf[..i], four);
    forall c0 | Feed(c0, BytesBits(buf[..i])) == c ensures Feed(c0, BytesBits(buf[..i + 4])) == Zeros(Xor(c, w), 32) {
      FeedConcat(c0, BytesBits(buf[..i]), BytesBits(four));
    }
  }

  /** DOLIT4 */
  method LittleStep(t: array2<nat>, c: nat, buf: array<byte>, i: nat, ghost c0: nat) returns (c': nat)
    requires Tables(t) && i + 4 <= buf.Length && c == Feed(c0, BytesBits(buf[..i])) < 0x1_0000_0000
    ensures c' == Feed(c0, BytesBits(buf[..i + 4])) < 0x1_0000_0000
  {
    hide Xor, Zero, Low, Shr, BitsOf, Feed, Zeros, Swap, Digit, Join;
    FeedWord(c, buf[..], i);
    assert buf[..][..i] == buf[..i] && buf[..][..i + 4] == buf[..i + 4];
    var x := Xor(c, Join(buf[i], buf[i + 1], buf[i + 2], buf[i + 3]));
    WordByTable(x);
    c' := Xor(Xor(Xor(t[3, Digit(x, 0)], t[2, Digit(x, 1)]), t[1, Digit(x, 2)]), t[0, Digit(x, 3)]);
  }

  /** crc32_little: single bytes up to a word boundary, words, and the bytes that are left; addr is the address of buf. */
  method CrcLittle(t: array2<nat>, crc: nat, buf: array<byte>, addr: nat) returns (r: nat)
    requires Tables(t) && crc < 0x1_0000_0000
    ensures r == Crc32(crc, buf[..])
  {
    hide Xor, Feed, Tables;
    ghost var c0 := Xor(crc, ONES);
    Start(crc, buf[..]);
    var c, i := Xor(crc, ONES), 0;
    assert buf[..][..0] == buf[..0];
    while i < buf.Length && (addr + i) % 4 != 0
      invariant i <= buf.Length && c == Feed(c0, BytesBits(buf[..i])) < 0x1_0000_0000
    {
      c := ByteStep(t, c, buf, i, c0);
      i := i + 1;
    }
    while buf.Length - i >= 32
      invariant i <= buf.Length && c == Feed(c0, BytesBits(buf[..i])) < 0x1_0000_0000
    {
      var k, i0 := 0, i;
      while k < 8
        invariant k <= 8 && i == i0 + 4 * k && i0 + 32 <= buf.Length && c == Feed(c0, BytesBits(buf[..i])) < 0x1_0000_0000
      {
        c := LittleStep(t, c, buf, i, c0);
        i, k := i + 4, k + 1;
      }
    }
    while buf.Length - i >= 4
      invariant i <= buf.Length && c == Feed(c0, BytesBits(buf[..i])) < 0x1_0000_0000
    {
      c := LittleStep(t, c, buf, i, c0);
      i := i + 4;
    }
    while i < buf.Length
      invariant i <= buf.Length && c == Feed(c0, BytesBits(buf[..i])) < 0x1_0000_0000
    {
      c := ByteStep(t, c, buf, i, c0);
      i := i + 1;
    }
    r := Xor(c, ONES);
    assert buf[..i] == buf[..];
  }

  // ----- the same on a register with its bytes reversed -----

  lemma SwapDigits(q: nat)
    ensures var x := Swap(q);
            x < 0x1_0000_0000 && Digit(x, 0) == Digit(q, 3) && Digit(x, 1) == Digit(q, 2) && Digit(x, 2) == Digit(q, 1) && Digit(x, 3) == Digit(q, 0)
  {
    hide Digit, Join;
    JoinDigits(Digit(q, 3), Digit(q, 2), Digit(q, 1), Digit(q, 0));
  }

  lemma SwapSwap(q: nat)
    requires q < 0x1_0000_0000
    ensures Swap(Swap(q)) == q
  {
    hide Digit, Join;
    SwapDigits(q);
    DigitsOf(q);
  }

  lemma SwapXor(x: nat, y: nat)
    requires x < 0x1_0000_0000 && y < 0x1_0000_0000
    ensures Swap(Xor(x, y)) == Xor(Swap(x), Swap(y))
  {
    hide Digit, Join, Xor, Swap;
    WordSize();
    XorBelow(x, y, 32);
    var l, r := Swap(Xor(x, y)), Xor(Swap(x), Swap(y));
    SwapDigits(Xor(x, y));
    SwapDigits(x);
    SwapDigits(y);
    XorBelow(Swap(x), Swap(y), 32);
    DigitXors(x, y);
    DigitXors(Swap(x), Swap(y));
    DigitsOf(l);
    DigitsOf(r);
  }

  lemma DigitXors(x: nat, y: nat)
    ensures Digit(Xor(x, y), 0) == Xor(Digit(x, 0), Digit(y, 0)) && Digit(Xor(x, y), 1) == Xor(Digit(x, 1), Digit(y, 1))
    ensures Digit(Xor(x, y), 2) == Xor(Digit(x, 2), Digit(y, 2)) && Digit(Xor(x, y), 3) == Xor(Digit(x, 3), Digit(y, 3))
  {
    hide Digit, Xor;
    DigitXor(x, y, 0);
    DigitXor(x, y, 1);
    DigitXor(x, y, 2);
    DigitXor(x, y, 3);
  }

  lemma SwapOnes()
    ensures Swap(ONES) == ONES
  {
    hide Digit, Join;
    OnesJoined();
    JoinDigits(255, 255, 255, 255);
  }

  lemma OnesJoined()
    ensures Join(255, 255, 255, 255) == ONES
  {}

  /** Moving a reversed word up by a byte is moving the word down. */
  lemma SwapShift(f: nat)
    requires f < 0x1_0000_0000
    ensures Swap(Shr(f, 8)) == Low(Shl(Swap(f), 8), 32) && Shr(f, 8) < 0x1_0000_0000
  {
    hide Digit, Low, Shr, Shl, Join;
    var a, b, c, d := Digit(f, 0), Digit(f, 1), Digit(f, 2), Digit(f, 3);
    ByteArithmetic(f);
    DigitsOf(f);
    JoinTail(a, b, c, d);
    JoinDigits(b, c, d, 0);
    ShlByte(Swap(f));
    WordSize();
    ShlWord(a);
    JoinUp(d, c, b, a);
    JoinDigits(0, d, c, b);
    LowShrUnique(Join(0, d, c, b), a, 32);
  }

  lemma JoinTail(a: nat, b: nat, c: nat, d: nat)
    requires a < 256
    ensures Join(a, b, c, d) / 256 == Join(b, c, d, 0)
  {
    ByteAndRest(Join(a, b, c, d), a, Join(b, c, d, 0));
  }

  lemma JoinUp(d: nat, c: nat, b: nat, a: nat)
    ensures 256 * Join(d, c, b, a) == Join(0, d, c, b) + 0x1_0000_0000 * a
  {}

  lemma ShlWord(x: nat)
    ensures Shl(x, 32) == 0x1_0000_0000 * x
  {
    hide Shl;
    ShlByte(x);
    ShlShl(x, 8, 8);
    ShlByte(Shl(x, 8));
    ShlShl(x, 16, 8);
    ShlByte(Shl(x, 16));
    ShlShl(x, 24, 8);
    ShlByte(Shl(x, 24));
  }

  /** The table index that the reversed register gives. */
  lemma BigIndex(f: nat, b: byte)
    requires f < 0x1_0000_0000
    ensures Xor(Shr(Swap(f), 24), b) == Low(Xor(f, b), 8)
  {
    hide Low, Xor, Shr, Swap;
    SwapDigits(f);
    WordSize();
    Pow2Values();
    ShrNone(f);
    LowSmall(Swap(f), 32);
    ShrLow(Swap(f), 24, 32);
    LowLow(Shr(Swap(f), 24), 8, 8);
    LowOfXor(f, b, 8);
    LowSmall(b, 8);
  }

  lemma BigEntry(t: array2<nat>, n: nat)
    requires Tables(t) && n < 256
    ensures t[4, n] == Swap(Zeros(n, 8)) && t[5, n] == Swap(Zeros(n, 16)) && t[6, n] == Swap(Zeros(n, 24)) && t[7, n] == Swap(Zeros(n, 32))
  {
    hide Swap, Zeros;
    assert t[0, n] == Zeros(n, 8) && t[1, n] == Zeros(n, 16) && t[2, n] == Zeros(n, 24) && t[3, n] == Zeros(n, 32);
  }

  method BigByteStep(t: array2<nat>, c: nat, buf: array<byte>, i: nat, ghost f: nat, ghost c0: nat) returns (c': nat, ghost f': nat)
    requires Tables(t) && i < buf.Length && c == Swap(f) && f == Feed(c0, BytesBits(buf[..i])) < 0x1_0000_0000
    ensures c' == Swap(f') && f' == Feed(c0, BytesBits(buf[..i + 1])) < 0x1_0000_0000
  {
    hide Xor, Zero, Low, Shr, Shl, BitsOf, Feed, Zeros, Swap;
    FeedNext(f, buf[..], i);
    assert buf[..][..i] == buf[..i] && buf[..][..i + 1] == buf[..i + 1];
    BigIndex(f, buf[i]);
    var n := Xor(Shr(c, 24), buf[i]);
    SwapShift(f);
    ZerosBelow(n, 8);
    SwapXor(Zeros(n, 8), Shr(f, 8));
    f' := Xor(Zeros(n, 8), Shr(f, 8));
    BigEntry(t, n);
    c' := Xor(t[4, n], Low(Shl(c, 8), 32));
  }

  lemma Reverse4(a: nat, b: nat, c: nat, d: nat)
    ensures Xor(Xor(Xor(a, b), c), d) == Xor(Xor(Xor(d, c), b), a)
  {
    hide Xor;
    XorSwap(a, b);
    XorSwap(Xor(Xor(a, b), c), d);
    XorSwap(Xor(b, a), c);
    XorAssoc(c, b, a);
    XorAssoc(d, Xor(c, b), a);
    XorAssoc(d, c, b);
  }

  lemma BigWord(c: nat, b0: byte, b1: byte, b2: byte, b3: byte)
    requires c < 0x1_0000_0000
    ensures Xor(Swap(c), Join(b3, b2, b1, b0)) == Swap(Xor(c, Join(b0, b1, b2, b3))) && Join(b0, b1, b2, b3) < 0x1_0000_0000
  {
    hide Xor, Digit;
    JoinDigits(b0, b1, b2, b3);
    SwapXor(c, Join(b0, b1, b2, b3));
  }

  lemma BigFour(a: nat, b: nat, c: nat, d: nat)
    requires a < 0x1_0000_0000 && b < 0x1_0000_0000 && c < 0x1_0000_0000 && d < 0x1_0000_0000
    ensures Xor(Xor(Xor(Swap(d), Swap(c)), Swap(b)), Swap(a)) == Swap(Xor(Xor(Xor(a, b), c), d))
  {
    hide Xor, Swap;
    WordSize();
    XorBelow(d, c, 32);
    XorBelow(Xor(d, c), b, 32);
    SwapXor(d, c);
    SwapXor(Xor(d, c), b);
    SwapXor(Xor(Xor(d, c), b), a);
    Reverse4(a, b, c, d);
  }

  /** DOBIG4 */
  method BigStep(t: array2<nat>, c: nat, buf: array<byte>, i: nat, ghost f: nat, ghost c0: nat) returns (c': nat, ghost f': nat)
    requires Tables(t) && i + 4 <= buf.Length && c == Swap(f) && f == Feed(c0, BytesBits(buf[..i])) < 0x1_0000_0000
    ensures c' == Swap(f') && f' == Feed(c0, BytesBits(buf[..i + 4])) < 0x1_0000_0000
  {
    hide Xor, Zero, Low, Shr, BitsOf, Feed, Zeros, Swap, Digit, Join;
    FeedWord(f, buf[..], i);
    assert buf[..][..i] == buf[..i] && buf[..][..i + 4] == buf[..i + 4];
    BigWord(f, buf[i], buf[i + 1], buf[i + 2], buf[i + 3]);
    ghost var y := Xor(f, Join(buf[i], buf[i + 1], buf[i + 2], buf[i + 3]));
    var x := Xor(c, Join(buf[i + 3], buf[i + 2], buf[i + 1], buf[i]));
    SwapDigits(y);
    WordByTable(y);
    ZerosBelow(Digit(y, 0), 32);
    ZerosBelow(Digit(y, 1), 24);
    ZerosBelow(Digit(y, 2), 16);
    ZerosBelow(Digit(y, 3), 8);
    BigFour(Zeros(Digit(y, 0), 32), Zeros(Digit(y, 1), 24), Zeros(Digit(y, 2), 16), Zeros(Digit(y, 3), 8));
    f' := Zeros(y, 32);
    BigEntry(t, Digit(y, 3));
    BigEntry(t, Digit(y, 2));
    BigEntry(t, Digit(y, 1));
    BigEntry(t, Digit(y, 0));
    c' := Xor(Xor(Xor(t[4, Digit(x, 0)], t[5, Digit(x, 1)]), t[6, Digit(x, 2)]), t[7, Digit(x, 3)]);
  }

  /** crc32_big */
  method CrcBig(t: array2<nat>, crc: nat, buf: array<byte>, addr: nat) returns (r: nat)
    requires Tables(t) && crc < 0x1_0000_0000
    ensures r == Crc32(crc, buf[..])
  {
    hide Xor, Feed, Tables, Swap;
    ghost var c0 := Xor(crc, ONES);
    Start(crc, buf[..]);
    SwapXor(crc, ONES);
    SwapOnes();
    var c, i := Xor(Swap(crc), ONES), 0;
    ghost var f := c0;
    assert buf[..][..0] == buf[..0];
    while i < buf.Length && (addr + i) % 4 != 0
      invariant i <= buf.Length && c == Swap(f) && f == Feed(c0, BytesBits(buf[..i])) < 0x1_0000_0000
    {
      c, f := BigByteStep(t, c, buf, i, f, c0);
      i := i + 1;
    }
    while buf.Length - i >= 32
      invariant i <= buf.Length && c == Swap(f) && f == Feed(c0, BytesBits(buf[..i])) < 0x1_0000_0000
    {
      var k, i0 := 0, i;
      while k < 8
        invariant k <= 8 && i == i0 + 4 * k && i0 + 32 <= buf.Length
        invariant c == Swap(f) && f == Feed(c0, BytesBits(buf[..i])) < 0x1_0000_0000
      {
        c, f := BigStep(t, c, buf, i, f, c0);
        i, k := i + 4, k + 1;
      }
    }
    while buf.Length - i >= 4
      invariant i <= buf.Length && c == Swap(f) && f == Feed(c0, BytesBits(buf[..i])) < 0x1_0000_0000
    {
      c, f := BigStep(t, c, buf, i, f, c0);
      i := i + 4;
    }
    while i < buf.Length
      invariant i <= buf.Length && c == Swap(f) && f == Feed(c0, BytesBits(buf[..i])) < 0x1_0000_0000
    {
      c, f := BigByteStep(t, c, buf, i, f, c0);
      i := i + 1;
    }
    c := Xor(c, ONES);
    SwapXor(f, ONES);
    WordSize();
    XorBelow(f, ONES, 32);
    SwapSwap(Xor(f, ONES));
    r := Swap(c);
    assert buf[..i] == buf[..];
  }

  // ----- crc32_combine -----

  const GF2_DIM: nat := 32

  /** The matrix of the operator that puts k zero bits through the register: column i is its effect on bit i. */
  ghost predicate Operator(mat: seq<nat>, k: nat) {
    |mat| == GF2_DIM && forall i :: 0 <= i < GF2_DIM ==> mat[i] == Zeros(Pow2(i), k)
  }

  /** gf2_matrix_times: the matrix applied to a vector. */
  method MatrixTimes(mat: array<nat>, vec: nat, ghost k: nat) returns (sum: nat)
    requires Operator(mat[..], k) && vec < 0x1_0000_0000
    ensures sum == Zeros(vec, k) < 0x1_0000_0000
  {
    hide Xor, Zeros, Shr, Low, Pow2;
    var v, n := vec, 0;
    sum := 0;
    ZerosBelow(vec, k);
    ZerosOfZero(k);
    LowNone(vec);
    LowZero();
    ShrNone(vec);
    while v != 0
      invariant v == Shr(vec, n) && sum == Zeros(Low(vec, n), k)
    {
      VectorBit(vec, n);
      ZerosXor(Low(vec, n), Pow2(n), k);
      if v % 2 == 1 {
        sum := Xor(sum, mat[n]);
      }
      ShrOnce(vec, n);
      v := v / 2;
      n := n + 1;
    }
    LowShr(vec, n);
    ShlZero(n);
  }

  lemma {:induction false} ZerosOfZero(k: nat)
    ensures Zeros(0, k) == 0
    decreases k
  {
    if k > 0 {
      ZerosOfZero(k - 1);
    }
  }

  lemma ShrOnce(v: nat, n: nat)
    ensures Shr(v, n + 1) == Shr(v, n) / 2
  {
    ShrShr(v, n, 1);
    assert Shr(Shr(v, n), 1) == Shr(Shr(v, n) / 2, 0);
  }

  /** Bit n of a vector that has bits from n on. */
  lemma VectorBit(v: nat, n: nat)
    requires v < 0x1_0000_0000 && Shr(v, n) != 0
    ensures n < GF2_DIM
    ensures Low(v, n + 1) == if Shr(v, n) % 2 == 1 then Xor(Low(v, n), Pow2(n)) else Low(v, n)
  {
    hide Low, Shr, Xor, Shl;
    WordSize();
    if n >= GF2_DIM {
      Pow2Mono(32, n);
      LowSmall(v, n);
    }
    LowSplit(v, n, 1);
    OneBit(Shr(v, n));
    LowBelow(v, n);
    XorDisjoint(Low(v, n), 1, n);
    ShlZero(n);
  }

  lemma OneBit(v: nat)
    ensures Low(v, 1) == v % 2
  {}

  /** gf2_matrix_square: the operator for twice as many zeros. */
  method MatrixSquare(square: array<nat>, mat: array<nat>, ghost k: nat)
    requires square != mat && square.Length == GF2_DIM && Operator(mat[..], k)
    modifies square
    ensures Operator(square[..], 2 * k)
  {
    hide Zeros, Pow2;
    var n := 0;
    while n < GF2_DIM
      invariant n <= GF2_DIM && Operator(mat[..], k)
      invariant forall i :: 0 <= i < n ==> square[i] == Zeros(Pow2(i), 2 * k)
    {
      ColumnBelow(mat[..], k, n);
      var column := MatrixTimes(mat, mat[n], k);
      ZerosSplit(Pow2(n), k, k);
      assert k + k == 2 * k;
      square[n] := column;
      n := n + 1;
    }
  }

  lemma ColumnBelow(mat: seq<nat>, k: nat, n: nat)
    requires Operator(mat, k) && n < GF2_DIM
    ensures mat[n] < 0x1_0000_0000
  {
    hide Zeros;
    WordSize();
    BitBelow(n);
    ZerosBelow(Pow2(n), k);
  }

  lemma BitBelow(n: nat)
    requires n < GF2_DIM
    ensures Pow2(n) < 0x1_0000_0000
  {
    WordSize();
    Pow2Mono(n + 1, 32);
    assert Pow2(n + 1) == 2 * Pow2(n);
  }

  /** The operator for one zero bit. */
  method OneZero(odd: array<nat>)
    requires odd.Length == GF2_DIM
    modifies odd
    ensures Operator(odd[..], 1)
  {
    hide Xor;
    odd[0] := POLY;
    var row, n := 1, 1;
    OneZeroAt(0);
    assert Shl(1, 0) == 1;
    while n < GF2_DIM
      invariant 1 <= n <= GF2_DIM && row == Pow2(n - 1)
      invariant forall i :: 0 <= i < n ==> odd[i] == Zeros(Pow2(i), 1)
    {
      OneZeroAt(n);
      odd[n] := row;
      row := 2 * row;
      n := n + 1;
    }
  }

  lemma OneZeroAt(n: nat)
    ensures Zeros(Pow2(n), 1) == if n == 0 then POLY else Pow2(n - 1)
  {
    hide Xor;
    assert Zeros(Pow2(n), 1) == Zeros(Zero(Pow2(n)), 0);
    XorNone(POLY);
    if n > 0 {
      Evens(Pow2(n - 1), 0);
    }
  }

  /** crc32_combine_: len2 zero bytes go through the register by squaring, two squarings to a turn. */
  method CrcCombine(crc1: nat, crc2: nat, len2: int) returns (r: nat)
    requires crc1 < 0x1_0000_0000
    ensures r == if len2 <= 0 then crc1 else Xor(Zeros(crc1, 8 * len2), crc2)
  {
    hide Xor, Zeros, Operator;
    if len2 <= 0 { return crc1; }
    var even, odd := new nat[GF2_DIM], new nat[GF2_DIM];
    OneZero(odd);
    MatrixSquare(even, odd, 1);
    MatrixSquare(odd, even, 2);
    var c, len: nat := crc1, len2;
    ghost var k: nat := 4;
    while true
      invariant c < 0x1_0000_0000 && Operator(odd[..], k) && len > 0 && even.Length == odd.Length == GF2_DIM && even != odd
      invariant Zeros(c, 2 * k * len) == Zeros(crc1, 8 * len2)
      invariant fresh(even) && fresh(odd)
      decreases len
    {
      MatrixSquare(even, odd, k);
      c, len := ApplyBit(even, c, len, 2 * k);
      if len == 0 { break; }
      MatrixSquare(odd, even, 2 * k);
      c, len := ApplyBit(odd, c, len, 2 * (2 * k));
      k := 4 * k;
      if len == 0 { break; }
    }
    ZerosNone(c);
    r := Xor(c, crc2);
  }

  /** The operator for this bit of the length. */
  method ApplyBit(mat: array<nat>, c: nat, len: nat, ghost k: nat) returns (c': nat, len': nat)
    requires Operator(mat[..], k) && c < 0x1_0000_0000 && len > 0
    ensures c' < 0x1_0000_0000 && len' == len / 2 && Zeros(c', 2 * k * len') == Zeros(c, k * len)
  {
    hide Zeros, Operator;
    c', len' := c, len / 2;
    if len % 2 == 1 {
      c' := MatrixTimes(mat, c, k);
      ZerosSplit(c, k, 2 * k * len');
      Odd(k, len);
    } else {
      Even(k, len);
    }
  }

  lemma Odd(k: nat, len: nat)
    requires len % 2 == 1
    ensures k + 2 * k * (len / 2) == k * len
  {
    var h := len / 2;
    assert len == 2 * h + 1;
  }

  lemma Even(k: nat, len: nat)
    requires len % 2 == 0
    ensures 2 * k * (len / 2) == k * len
  {
    var h := len / 2;
    assert len == 2 * h;
  }

  /** The CRCs of two parts combine to the CRC of the whole. */
  lemma CombinedIsCrc(crc: nat, a: seq<byte>, b: seq<byte>)
    ensures Xor(Zeros(Crc32(crc, a), 8 * |b|), Crc32(0, b)) == Crc32(crc, a + b)
  {
    hide Xor, Zero, Feed, Zeros;
    var n := 8 * |b|;
    var x, y := BytesBits(a), BytesBits(b);
    var fa := Feed(Xor(crc, ONES), x);
    BytesBitsConcat(a, b);
    FeedConcat(Xor(crc, ONES), x, y);
    FeedSplit(fa, y);
    XorSwap(0, ONES);
    XorNone(ONES);
    FeedSplit(ONES, y);
    ZerosXor(fa, ONES, n);
    Cancel(Zeros(fa, n), Zeros(ONES, n), Feed(0, y), ONES);
  }

  /** (a ^ z) ^ ((z ^ f) ^ o) == (a ^ f) ^ o */
  lemma Cancel(a: nat, z: nat, f: nat, o: nat)
    ensures Xor(Xor(a, z), Xor(Xor(z, f), o)) == Xor(Xor(a, f), o)
  {
    hide Xor;
    XorAssoc(z, f, o);
    XorAssoc(a, z, Xor(z, Xor(f, o)));
    XorTwice(z, Xor(f, o));
    XorAssoc(a, f, o);
  }

  /** crc32_combine of the CRCs of two byte sequences is the CRC of their concatenation. */
  method Combine(crc: nat, ghost a: seq<byte>, ghost b: seq<byte>, crc2: nat, len2: int) returns (r: nat)
    requires crc == Crc32(0, a) && crc2 == Crc32(0, b) && len2 == |b|
    ensures r == Crc32(0, a + b)
  {
    hide Xor, Feed, Zeros;
    CrcBelow(0, a);
    CombinedIsCrc(0, a, b);
    NoBytes();
    r := CrcCombine(crc, crc2, len2);
    assert b == [] ==> a + b == a;
  }

  lemma NoBytes()
    ensures Crc32(0, []) == 0
  {
    hide Xor;
    XorAssoc(0, ONES, ONES);
    XorSelf(ONES);
    XorNone(0);
  }

  lemma CrcBelow(crc: nat, a: seq<byte>)
    requires crc < 0x1_0000_0000
    ensures Crc32(crc, a) < 0x1_0000_0000
  {
    hide Xor, Feed, Zeros;
    WordSize();
    XorBelow(crc, ONES, 32);
    FeedBelow(Xor(crc, ONES), BytesBits(a));
    XorBelow(Feed(Xor(crc, ONES), BytesBits(a)), ONES, 32);
  }

  lemma {:induction false} FeedBelow(c: nat, bits: seq<bool>)
    requires c < 0x1_0000_0000
    ensures Feed(c, bits) < 0x1_0000_0000
    decreases |bits|
  {
    hide Xor;
    if bits != [] {
      var bit := if bits[0] then 1 else 0;
      WordSize();
      XorBelow(c, bit, 32);
      XorBelow(POLY, Xor(c, bit) / 2, 32);
      FeedBelow(Zero(Xor(c, bit)), bits[1..]);
    }
  }
}
