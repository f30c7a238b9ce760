/**
  Bit streams, least significant bit first, and the shift and mask arithmetic on them.

  A DEFLATE stream is a sequence of bits packed into bytes starting at the low end of each
  byte (section 3.1.1 of RFC 1951). The stream itself is a `seq<bool>`; registers and table
  indices are numbers, read and cut with `Shl`, `Shr` and `Low`.
 */
module Bits {

  type byte = b: int | 0 <= b < 256

  /** n copies of x. */
  function Rep<T>(x: T, n: nat): (r: seq<T>)
    ensures |r| == n && forall i :: 0 <= i < n ==> r[i] == x
  {
    if n == 0 then [] else Rep(x, n - 1) + [x]
  }

  /** v << k */
  function Shl(v: nat, k: nat): (r: nat)
    ensures r >= v
  {
    if k == 0 then v else 2 * Shl(v, k - 1)
  }

  /** 1 << k */
  function Pow2(k: nat): (r: nat)
    ensures r >= 1
  {
    Shl(1, k)
  }

  /** v >> k */
  function Shr(v: nat, k: nat): (r: nat)
    ensures r <= v
  {
    if k == 0 then v else Shr(v / 2, k - 1)
  }

  /** v & ((1 << k) - 1) */
  function Low(v: nat, k: nat): (r: nat)
    ensures r < Pow2(k) && r <= v
  {
    if k == 0 then 0 else v % 2 + 2 * Low(v / 2, k - 1)
  }

  lemma Pow2Values()
    ensures Pow2(0) == 1 && Pow2(1) == 2 && Pow2(2) == 4 && Pow2(3) == 8 && Pow2(4) == 16
    ensures Pow2(5) == 32 && Pow2(6) == 64 && Pow2(7) == 128 && Pow2(8) == 256 && Pow2(9) == 512
    ensures Pow2(10) == 1024 && Pow2(11) == 2048 && Pow2(12) == 4096 && Pow2(13) == 8192
    ensures Pow2(14) == 16384 && Pow2(15) == 32768 && Pow2(16) == 65536
  {
    assert Pow2(4) == 16;
    assert Pow2(8) == 256;
    assert Pow2(12) == 4096;
  }

  lemma WordSize()
    ensures Pow2(24) == 0x100_0000 && Pow2(32) == 0x1_0000_0000
  {
    Pow2Values();
    assert Pow2(20) == 0x10_0000;
    assert Pow2(24) == 0x100_0000;
    assert Pow2(28) == 0x1000_0000;
  }

  lemma {:induction false} ShlAdd(a: nat, b: nat, k: nat)
    ensures Shl(a + b, k) == Shl(a, k) + Shl(b, k)
  {
    if k > 0 {
      ShlAdd(a, b, k - 1);
    }
  }

  lemma {:induction false} ShlMono(a: nat, b: nat, k: nat)
    requires a <= b
    ensures Shl(a, k) <= Shl(b, k)
    ensures a < b ==> Shl(a, k) + Pow2(k) <= Shl(b, k)
  {
    if k > 0 {
      ShlMono(a, b, k - 1);
    }
  }

  lemma {:induction false} ShlShl(v: nat, m: nat, n: nat)
    ensures Shl(Shl(v, m), n) == Shl(v, m + n)
  {
    if n > 0 {
      ShlShl(v, m, n - 1);
      assert m + n - 1 == m + (n - 1);
    }
  }

  lemma {:induction false} Pow2Mono(m: nat, n: nat)
    requires m <= n
    ensures Pow2(m) <= Pow2(n)
    ensures m < n ==> 2 * Pow2(m) <= Pow2(n)
    decreases n
  {
    if m < n {
      Pow2Mono(m, n - 1);
    }
  }

  lemma {:induction false} ShlZero(k: nat)
    ensures Shl(0, k) == 0
  {
    if k > 0 {
      ShlZero(k - 1);
    }
  }

  lemma ShrNone(v: nat)
    ensures Shr(v, 0) == v
  {}

  lemma {:induction false} ShrShr(v: nat, m: nat, n: nat)
    ensures Shr(Shr(v, m), n) == Shr(v, m + n)
  {
    if m > 0 {
      ShrShr(v / 2, m - 1, n);
      assert m + n - 1 == (m - 1) + n;
    }
  }

  /** Every number is its low k bits plus the rest shifted back up. */
  lemma {:induction false} LowShr(v: nat, k: nat)
    ensures v == Low(v, k) + Shl(Shr(v, k), k)
  {
    if k > 0 {
      LowShr(v / 2, k - 1);
    }
  }

  /** The cut into low bits and the rest is unique. */
  lemma {:induction false} LowShrUnique(lo: nat, hi: nat, k: nat)
    requires lo < Pow2(k)
    ensures Low(lo + Shl(hi, k), k) == lo
    ensures Shr(lo + Shl(hi, k), k) == hi
  {
    if k > 0 {
      LowShrUnique(lo / 2, hi, k - 1);
      var v := lo + Shl(hi, k);
      assert v == lo + 2 * Shl(hi, k - 1);
      assert v / 2 == lo / 2 + Shl(hi, k - 1);
      assert v % 2 == lo % 2;
    }
  }

  lemma LowSmall(v: nat, k: nat)
    requires v < Pow2(k)
    ensures Low(v, k) == v && Shr(v, k) == 0
  {
    ShlZero(k);
    LowShrUnique(v, 0, k);
  }

  lemma LowBelow(v: nat, k: nat)
    ensures Low(v, k) < Pow2(k)
  {}

  /** v >> k is the number of whole blocks of 2^k below v. */
  lemma ShrIff(v: nat, c: nat, k: nat)
    ensures Shr(v, k) == c <==> Shl(c, k) <= v < Shl(c, k) + Pow2(k)
  {
    LowShr(v, k);
    var q := Shr(v, k);
    if q < c {
      ShlMono(q, c, k);
    } else {
      ShlMono(c, q, k);
    }
  }

  lemma ShrMono(a: nat, b: nat, k: nat)
    requires a <= b
    ensures Shr(a, k) <= Shr(b, k)
  {
    ShrIff(a, Shr(a, k), k);
    ShrIff(b, Shr(b, k), k);
    if Shr(a, k) > Shr(b, k) {
      ShlMono(Shr(b, k), Shr(a, k), k);
    }
  }

  lemma {:induction false} LowLow(v: nat, m: nat, n: nat)
    requires m <= n
    ensures Low(Low(v, n), m) == Low(v, m)
  {
    if m > 0 {
      LowLow(v / 2, m - 1, n - 1);
    }
  }

  lemma {:induction false} ShrLow(v: nat, m: nat, n: nat)
    requires m <= n
    ensures Shr(Low(v, n), m) == Low(Shr(v, m), n - m)
  {
    if m > 0 {
      ShrLow(v / 2, m - 1, n - 1);
    }
  }

  lemma {:induction false} LowSplit(v: nat, m: nat, n: nat)
    ensures Low(v, m + n) == Low(v, m) + Shl(Low(Shr(v, m), n), m)
  {
    if m > 0 {
      LowSplit(v / 2, m - 1, n);
      assert m + n - 1 == (m - 1) + n;
    }
  }

  /** Adding a multiple of 2^k leaves the low k bits alone. */
  lemma {:induction false} LowAddShl(v: nat, c: nat, k: nat)
    ensures Low(v + Shl(c, k), k) == Low(v, k)
    ensures Shr(v + Shl(c, k), k) == Shr(v, k) + c
  {
    LowShr(v, k);
    ShlAdd(Shr(v, k), c, k);
    LowShrUnique(Low(v, k), Shr(v, k) + c, k);
  }

  // ----- numbers as bit sequences -----

  /** The low n bits of v, least significant first. */
  function BitsOf(v: nat, n: nat): (s: seq<bool>)
    ensures |s| == n
  {
    if n == 0 then [] else [v % 2 == 1] + BitsOf(v / 2, n - 1)
  }

  function ValueOf(s: seq<bool>): (v: nat)
    ensures v < Pow2(|s|)
  {
    if s == [] then 0 else (if s[0] then 1 else 0) + 2 * ValueOf(s[1..])
  }

  lemma {:induction false} ValueOfBitsOf(v: nat, n: nat)
    ensures ValueOf(BitsOf(v, n)) == Low(v, n)
  {
    if n > 0 {
      ValueOfBitsOf(v / 2, n - 1);
      assert BitsOf(v, n)[1..] == BitsOf(v / 2, n - 1);
    }
  }

  lemma {:induction false} BitsOfValueOf(s: seq<bool>)
    ensures BitsOf(ValueOf(s), |s|) == s
  {
    if s != [] {
      BitsOfValueOf(s[1..]);
      assert ValueOf(s) / 2 == ValueOf(s[1..]);
      assert s == [s[0]] + s[1..];
    }
  }

  lemma {:induction false} BitsOfLow(v: nat, n: nat, k: nat)
    requires n <= k
    ensures BitsOf(Low(v, k), n) == BitsOf(v, n)
  {
    if n > 0 {
      BitsOfLow(v / 2, n - 1, k - 1);
    }
  }

  lemma {:induction false} BitsOfSplit(v: nat, m: nat, n: nat)
    ensures BitsOf(v, m + n) == BitsOf(v, m) + BitsOf(Shr(v, m), n)
  {
    if m > 0 {
      BitsOfSplit(v / 2, m - 1, n);
      assert m + n - 1 == (m - 1) + n;
      assert BitsOf(v, m + n) == [v % 2 == 1] + (BitsOf(v / 2, m - 1) + BitsOf(Shr(v, m), n));
    }
  }

  /** A value put in above the valid bits of a register. */
  lemma PushBits(buf: nat, valid: nat, value: nat, length: nat)
    requires buf < Pow2(valid) && value < Pow2(length)
    ensures buf + Shl(value, valid) < Pow2(valid + length)
    ensures BitsOf(buf + Shl(value, valid), valid + length) == BitsOf(buf, valid) + BitsOf(value, length)
  {
    var x := buf + Shl(value, valid);
    ShlMono(value, Pow2(length), valid);
    ShlShl(1, length, valid);
    assert length + valid == valid + length;
    BitsOfSplit(x, valid, length);
    LowShrUnique(buf, value, valid);
    BitsOfLow(x, valid, valid);
    BitsOfLow(buf, valid, valid);
    LowSmall(buf, valid);
  }

  lemma {:induction false} ValueOfConcat(a: seq<bool>, b: seq<bool>)
    ensures ValueOf(a + b) == ValueOf(a) + Shl(ValueOf(b), |a|)
  {
    if a == [] {
      assert a + b == b;
    } else {
      ValueOfConcat(a[1..], b);
      assert (a + b)[1..] == a[1..] + b;
    }
  }

  lemma {:induction false} ValueOfCut(s: seq<bool>, n: nat)
    requires n <= |s|
    ensures ValueOf(s[..n]) == Low(ValueOf(s), n)
    ensures ValueOf(s[n..]) == Shr(ValueOf(s), n)
  {
    assert s[..n] + s[n..] == s;
    ValueOfConcat(s[..n], s[n..]);
    LowShrUnique(ValueOf(s[..n]), ValueOf(s[n..]), n);
  }

  // ----- bit reversal -----

  /** The low n bits of v in the opposite order: bit 0 becomes the most significant. */
  function Rev(v: nat, n: nat): (r: nat)
    ensures r < Pow2(n)
  {
    if n == 0 then 0 else 2 * Rev(v, n - 1) + Shr(v, n - 1) % 2
  }

  lemma {:induction false} RevTop(v: nat, k: nat, n: nat)
    requires k <= n
    ensures Shr(Rev(v, n), n - k) == Rev(v, k)
    decreases n
  {
    if k < n {
      RevTop(v, k, n - 1);
      assert Rev(v, n) / 2 == Rev(v, n - 1);
    }
  }

  lemma LowParity(v: nat, k: nat)
    requires k > 0
    ensures Low(v, k) % 2 == v % 2
  {}

  lemma {:induction false} RevLowBits(v: nat, n: nat, k: nat)
    requires n <= k
    ensures Rev(Low(v, k), n) == Rev(v, n)
  {
    hide Low, Shr;
    if n > 0 {
      RevLowBits(v, n - 1, k);
      ShrLow(v, n - 1, k);
      LowParity(Shr(v, n - 1), k - (n - 1));
    }
  }

  /** Reversal seen from the low end. */
  lemma {:induction false} RevLow(v: nat, n: nat)
    requires n > 0
    ensures Rev(v, n) == Shl(v % 2, n - 1) + Rev(v / 2, n - 1)
  {
    if n == 1 {
      assert Rev(v, 0) == 0;
    } else {
      RevLow(v, n - 1);
      assert Shr(v, n - 1) == Shr(v / 2, n - 2);
    }
  }

  lemma {:induction false} RevRev(v: nat, n: nat)
    ensures Rev(Rev(v, n), n) == Low(v, n)
  {
    if n > 0 {
      var x := Rev(v, n);
      RevLow(x, n);
      RevRev(v, n - 1);
      assert x / 2 == Rev(v, n - 1) && x % 2 == Shr(v, n - 1) % 2;
      LowSplit(v, n - 1, 1);
      assert Low(Shr(v, n - 1), 1) == Shr(v, n - 1) % 2;
      assert n - 1 + 1 == n;
    }
  }

  lemma {:induction false} RevZero(n: nat)
    ensures Rev(0, n) == 0
  {
    if n > 0 {
      RevZero(n - 1);
      assert Shr(0, n - 1) == 0;
    }
  }

  /** A value with only l low bits reverses, in a wider field, to its reversal shifted up. */
  lemma {:induction false} RevWiden(v: nat, l: nat, n: nat)
    requires l <= n && v < Pow2(l)
    ensures Rev(v, n) == Shl(Rev(v, l), n - l)
    decreases n
  {
    if l < n {
      RevWiden(v, l, n - 1);
      Pow2Mono(l, n - 1);
      LowSmall(v, n - 1);
    }
  }

  // ----- bitwise or -----

  function Or(a: nat, b: nat): (r: nat)
    decreases a + b
  {
    if a == 0 then b else if b == 0 then a
    else 2 * Or(a / 2, b / 2) + (if a % 2 == 1 || b % 2 == 1 then 1 else 0)
  }

  /** Or-ing into bits that are still zero is addition. */
  lemma {:induction false} OrDisjoint(a: nat, b: nat, k: nat)
    requires a < Pow2(k)
    ensures Or(a, Shl(b, k)) == a + Shl(b, k)
    ensures Or(Shl(b, k), a) == a + Shl(b, k)
  {
    if k > 0 && a != 0 && b != 0 {
      OrDisjoint(a / 2, b, k - 1);
      assert Shl(b, k) / 2 == Shl(b, k - 1) && Shl(b, k) % 2 == 0;
    }
    if b == 0 {
      ShlZero(k);
    }
  }

  // ----- bytes as bit sequences -----

  function BytesBits(bytes: seq<byte>): (s: seq<bool>)
    ensures |s| == 8 * |bytes|
  {
    if bytes == [] then [] else BytesBits(bytes[..|bytes| - 1]) + BitsOf(bytes[|bytes| - 1], 8)
  }

  lemma BytesBitsNone()
    ensures BytesBits([]) == []
  {}

  lemma BytesBitsPush(bytes: seq<byte>, b: byte)
    ensures BytesBits(bytes + [b]) == BytesBits(bytes) + BitsOf(b, 8)
  {
    assert (bytes + [b])[..|bytes|] == bytes;
  }

  lemma {:induction false} BytesBitsConcat(a: seq<byte>, b: seq<byte>)
    ensures BytesBits(a + b) == BytesBits(a) + BytesBits(b)
  {
    hide BitsOf;
    if b == [] {
      assert a + b == a;
    } else {
      var k := |b| - 1;
      BytesBitsConcat(a, b[..k]);
      assert (a + b)[..|a + b| - 1] == a + b[..k];
      assert BytesBits(a) + (BytesBits(b[..k]) + BitsOf(b[k], 8)) == BytesBits(a + b);
    }
  }

  lemma BytesBitsHead(bytes: seq<byte>)
    requires bytes != []
    ensures BytesBits(bytes) == BitsOf(bytes[0], 8) + BytesBits(bytes[1..])
  {
    assert bytes == [bytes[0]] + bytes[1..];
    BytesBitsConcat([bytes[0]], bytes[1..]);
    BytesBitsPush([], bytes[0]);
    assert [] + [bytes[0]] == [bytes[0]];
  }

  /** Zero bits needed to reach a byte boundary from bit position pos. */
  function Padding(pos: nat): (p: nat)
    ensures p < 8 && (pos + p) % 8 == 0
  {
    (8 - pos % 8) % 8
  }
}
