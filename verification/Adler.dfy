/**
  adler32.c: the Adler-32 checksum with its sums reduced only once per NMAX bytes, the reductions
  without division, and the checksum of a concatenation (section 8.2 of RFC 1950).
 */
module Adler {
  import opened Bits

  const BASE: nat := 65521
  const NMAX: nat := 5552

  datatype Sums = Sums(s1: nat, s2: nat)

  /** The definition: both sums are reduced after every byte. */
  function Checksum(s: Sums, bytes: seq<byte>): (r: Sums)
    decreases |bytes|
  {
    if bytes == [] then s
    else
      var t := Checksum(s, bytes[..|bytes| - 1]);
      var a := (t.s1 + bytes[|bytes| - 1]) % BASE;
      Sums(a, (t.s2 + a) % BASE)
  }

  predicate Reduced(s: Sums) {
    s.s1 < BASE && s.s2 < BASE
  }

  /** The two sums in one word. */
  function Packed(s: Sums): nat {
    s.s1 + 65536 * s.s2
  }

  function Unpacked(adler: nat): Sums {
    Sums(adler % 65536, adler / 65536 % 65536)
  }

  lemma PackedUnpacks(s: Sums)
    requires Reduced(s)
    ensures Unpacked(Packed(s)) == s && Packed(s) < 0x1_0000_0000
  {}

  lemma {:induction false} ChecksumReduced(s: Sums, bytes: seq<byte>)
    requires Reduced(s)
    ensures Reduced(Checksum(s, bytes))
    decreases |bytes|
  {
    if bytes != [] {
      ChecksumReduced(s, bytes[..|bytes| - 1]);
    }
  }

  lemma {:induction false} ChecksumConcat(s: Sums, a: seq<byte>, b: seq<byte>)
    ensures Checksum(Checksum(s, a), b) == Checksum(s, a + b)
    decreases |b|
  {
    if b == [] {
      assert a + b == a;
    } else {
      var k := |b| - 1;
      ChecksumConcat(s, a, b[..k]);
      assert (a + b)[..|a + b| - 1] == a + b[..k];
    }
  }

  // ----- sums that are not reduced -----

  /** Two numbers that differ by a multiple of BASE. */
  predicate Same(x: int, y: int) {
    x % BASE == y % BASE
  }

  lemma SameSum(a: int, b: int, c: int, d: int)
    requires Same(a, b) && Same(c, d)
    ensures Same(a + c, b + d)
  {
    var p, q, r, s := a / BASE, b / BASE, c / BASE, d / BASE;
    assert a + c == (a % BASE + c % BASE) + (p + r) * BASE;
    assert b + d == (b % BASE + d % BASE) + (q + s) * BASE;
    Multiple(a % BASE + c % BASE, p + r);
    Multiple(b % BASE + d % BASE, q + s);
  }

  lemma Multiple(x: int, k: int)
    ensures (x + k * BASE) % BASE == x % BASE
  {
    var q, r := x / BASE, x % BASE;
    assert x + k * BASE == (q + k) * BASE + r;
    Remainder(x + k * BASE, q + k, r);
  }

  lemma Remainder(x: int, q: int, r: int)
    requires x == q * BASE + r && 0 <= r < BASE
    ensures x % BASE == r
  {
    var q', r' := x / BASE, x % BASE;
    assert (q - q') * BASE == r' - r;
  }

  /** Unreduced sums that stand for reduced ones. */
  predicate StandFor(x: Sums, s: Sums) {
    Same(x.s1, s.s1) && Same(x.s2, s.s2)
  }

  /** Adding a byte to sums that are not reduced. */
  lemma AddByte(x: Sums, s: Sums, bytes: seq<byte>, i: nat)
    requires i < |bytes| && StandFor(x, Checksum(s, bytes[..i]))
    ensures StandFor(Sums(x.s1 + bytes[i], x.s2 + (x.s1 + bytes[i])), Checksum(s, bytes[..i + 1]))
  {
    var t := Checksum(s, bytes[..i]);
    assert bytes[..i + 1][..i] == bytes[..i];
    SameSum(x.s1, t.s1, bytes[i], bytes[i]);
    var a := (t.s1 + bytes[i]) % BASE;
    SameMod(t.s1 + bytes[i]);
    SameSum(x.s2, t.s2, x.s1 + bytes[i], a);
    SameMod(t.s2 + a);
  }

  lemma SameMod(x: int)
    ensures Same(x % BASE, x) && 0 <= x % BASE < BASE
  {}

  /** The most that the second sum can be after n bytes without reduction. */
  function Most(n: nat): nat {
    if n == 0 then BASE - 1 else Most(n - 1) + (BASE - 1) + 255 * n
  }

  lemma {:induction false} MostIs(n: nat)
    ensures 2 * Most(n) == 2 * (n + 1) * (BASE - 1) + 255 * n * (n + 1)
  {
    if n > 0 {
      MostIs(n - 1);
      assert 255 * n * (n + 1) == 255 * (n - 1) * n + 2 * (255 * n);
    }
  }

  lemma {:induction false} MostMono(m: nat, n: nat)
    requires m <= n
    ensures Most(m) <= Most(n)
  {
    if m < n {
      MostMono(m, n - 1);
    }
  }

  /** NMAX is the largest number of bytes for which the sums cannot exceed 32 bits. */
  lemma NmaxIsLargest(n: nat)
    ensures Most(n) <= 0xffff_ffff <==> n <= NMAX
  {
    hide Most;
    MostIs(NMAX);
    MostIs(NMAX + 1);
    if n <= NMAX {
      MostMono(n, NMAX);
    } else {
      MostMono(NMAX + 1, n);
    }
  }

  /** The sums n bytes after a reduction. */
  predicate Bounded(x: Sums, n: nat) {
    x.s1 <= BASE - 1 + 255 * n && x.s2 <= Most(n)
  }

  // ----- adler32_z -----

  /** DO1: the sums stay within 32 bits. */
  method AddOne(x: Sums, buf: array<byte>, i: nat, ghost n: nat, ghost s: Sums) returns (y: Sums)
    requires i < buf.Length && n < NMAX && Bounded(x, n) && StandFor(x, Checksum(s, buf[..i]))
    ensures Bounded(y, n + 1) && StandFor(y, Checksum(s, buf[..i + 1]))
    ensures y.s1 <= 0xffff_ffff && y.s2 <= 0xffff_ffff
  {
    hide Checksum;
    AddByte(x, s, buf[..], i);
    assert buf[..][..i] == buf[..i] && buf[..][..i + 1] == buf[..i + 1];
    NmaxIsLargest(n + 1);
    y := Sums(x.s1 + buf[i], x.s2);
    y := Sums(y.s1, y.s2 + y.s1);
  }

  method AddMany(x: Sums, buf: array<byte>, i: nat, m: nat, ghost n: nat, ghost s: Sums) returns (y: Sums)
    requires i + m <= buf.Length && n + m <= NMAX && Bounded(x, n) && StandFor(x, Checksum(s, buf[..i]))
    ensures Bounded(y, n + m) && StandFor(y, Checksum(s, buf[..i + m]))
  {
    hide Checksum, Bounded, StandFor;
    y := x;
    var k := 0;
    while k < m
      invariant k <= m && Bounded(y, n + k) && StandFor(y, Checksum(s, buf[..i + k]))
    {
      y := AddOne(y, buf, i + k, n + k, s);
      k := k + 1;
    }
  }

  /** MOD of both sums */
  lemma Reduces(x: Sums, s: Sums)
    requires StandFor(x, s)
    ensures StandFor(Sums(x.s1 % BASE, x.s2 % BASE), s) && Bounded(Sums(x.s1 % BASE, x.s2 % BASE), 0)
    ensures Reduced(s) ==> Sums(x.s1 % BASE, x.s2 % BASE) == s
  {}

  /** adler32_z */
  method Adler32(adler: nat, buf: array?<byte>) returns (r: nat)
    requires Reduced(Unpacked(adler)) && adler < 0x1_0000_0000
    ensures buf == null ==> r == 1
    ensures buf != null ==> r == Packed(Checksum(Unpacked(adler), buf[..])) && Reduced(Unpacked(r))
    ensures buf != null ==> var x := Checksum(Sums(adler % 65536, adler / 65536), buf[..]); r % 65536 == x.s1 && r / 65536 == x.s2
  {
    hide Checksum;
    if buf == null { return 1; }
    var s := Unpacked(adler);
    ChecksumReduced(s, buf[..]);
    PackedUnpacks(Checksum(s, buf[..]));
    if buf.Length == 1 {
      r := One(s, buf);
    } else if buf.Length < 16 {
      r := Short(s, buf);
    } else {
      r := Long(s, buf);
    }
  }

  /** A single byte: a subtraction reduces each sum. */
  method One(s: Sums, buf: array<byte>) returns (r: nat)
    requires Reduced(s) && buf.Length == 1
    ensures r == Packed(Checksum(s, buf[..]))
  {
    hide Checksum;
    ChecksumLast(s, buf[..]);
    ChecksumNone(s);
    assert buf[..][..0] == [];
    var a := s.s1 + buf[0];
    if a >= BASE { a := a - BASE; }
    var b := s.s2 + a;
    if b >= BASE { b := b - BASE; }
    r := Packed(Sums(a, b));
  }

  lemma ChecksumLast(s: Sums, bytes: seq<byte>)
    requires bytes != []
    ensures var t, k := Checksum(s, bytes[..|bytes| - 1]), |bytes| - 1;
            Checksum(s, bytes) == Sums((t.s1 + bytes[k]) % BASE, (t.s2 + (t.s1 + bytes[k]) % BASE) % BASE)
  {}

  lemma ChecksumNone(s: Sums)
    ensures Checksum(s, []) == s
  {}

  /** Fewer than 16 bytes: one subtraction reduces the first sum. */
  method Short(s: Sums, buf: array<byte>) returns (r: nat)
    requires Reduced(s) && buf.Length < 16
    ensures r == Packed(Checksum(s, buf[..]))
  {
    hide Checksum, Mod, Mod28, Bounded, StandFor, Reduced, Packed;
    ChecksumNone(s);
    ChecksumReduced(s, buf[..]);
    StartBounded(s);
    assert buf[..0] == [] && buf[..buf.Length] == buf[..];
    var x := AddMany(s, buf, 0, buf.Length, 0, s);
    Reduces(x, Checksum(s, buf[..]));
    FewBytes(x, buf.Length);
    EitherWay(x, buf.Length);
    assert Mod28(x.s2) == x.s2 % BASE;
    var a := x.s1;
    if a >= BASE { a := a - BASE; }
    r := Packed(Sums(a, x.s2 % BASE));
  }

  lemma FewBytes(x: Sums, n: nat)
    requires Bounded(x, n) && n < 16
    ensures (if x.s1 >= BASE then x.s1 - BASE else x.s1) == x.s1 % BASE
  {
    hide Most;
    Once(x.s1);
  }

  /** NMAX bytes to a turn with one reduction, sixteen sums to a turn of the inner loop; then the rest. */
  method Long(s: Sums, buf: array<byte>) returns (r: nat)
    requires Reduced(s)
    ensures r == Packed(Checksum(s, buf[..]))
  {
    hide Checksum, Bounded, StandFor, Mod;
    ChecksumNone(s);
    ChecksumReduced(s, buf[..]);
    assert buf[..0] == [];
    var x, i := s, 0;
    StartBounded(s);
    while buf.Length - i >= NMAX
      invariant i <= buf.Length && Bounded(x, 0) && StandFor(x, Checksum(s, buf[..i])) && Reduced(x)
      decreases buf.Length - i
    {
      var n: nat := NMAX / 16;
      ghost var i0 := i;
      while n != 0
        invariant n <= NMAX / 16 && i == i0 + NMAX - 16 * n && i0 + NMAX <= buf.Length
        invariant Bounded(x, i - i0) && StandFor(x, Checksum(s, buf[..i]))
      {
        x := AddMany(x, buf, i, 16, i - i0, s);
        i, n := i + 16, n - 1;
      }
      EitherWay(x, i - i0);
      assert Mod(x.s1) == x.s1 % BASE && Mod(x.s2) == x.s2 % BASE;
      Reduces(x, Checksum(s, buf[..i]));
      x := Sums(x.s1 % BASE, x.s2 % BASE);
    }
    if i < buf.Length {
      ghost var i0 := i;
      while buf.Length - i >= 16
        invariant i0 <= i <= buf.Length && buf.Length - i0 < NMAX && Bounded(x, i - i0) && StandFor(x, Checksum(s, buf[..i]))
      {
        x := AddMany(x, buf, i, 16, i - i0, s);
        i := i + 16;
      }
      x := AddMany(x, buf, i, buf.Length - i, i - i0, s);
      i := buf.Length;
      EitherWay(x, i - i0);
      assert Mod(x.s1) == x.s1 % BASE && Mod(x.s2) == x.s2 % BASE;
      Reduces(x, Checksum(s, buf[..i]));
      x := Sums(x.s1 % BASE, x.s2 % BASE);
    }
    assert buf[..i] == buf[..];
    SameReduced(x, Checksum(s, buf[..]));
    r := Packed(x);
  }

  lemma StartBounded(s: Sums)
    requires Reduced(s)
    ensures Bounded(s, 0) && StandFor(s, s)
  {}

  lemma SameReduced(x: Sums, s: Sums)
    requires StandFor(x, s) && Reduced(x) && Reduced(s)
    ensures x == s
  {}

  // ----- reduction without division -----

  /** CHOP: 65536 is 15 more than BASE. */
  function Chop(a: nat): (r: nat)
    ensures Same(r, a)
  {
    var tmp := a / 65536;
    Multiple(a % 65536 + 15 * tmp, tmp);
    assert a == a % 65536 + 15 * tmp + tmp * BASE;
    a % 65536 + (16 * tmp - tmp)
  }

  function Mod28(a: nat): nat {
    var c := Chop(a);
    if c >= BASE then c - BASE else c
  }

  function Mod(a: nat): nat {
    Mod28(Chop(a))
  }

  function Mod63(a: nat): nat {
    var tmp := a / 0x1_0000_0000;
    var b := a % 0x1_0000_0000 + (256 * tmp - 32 * tmp + tmp);
    Mod28(Chop(b))
  }

  /** MOD28 is the remainder for all 28-bit numbers. */
  lemma Mod28Is(a: nat)
    requires a < 0x1000_0000
    ensures Mod28(a) == a % BASE
  {
    assert a / 65536 < 4096;
    Once(Chop(a));
  }

  lemma Once(c: nat)
    requires c < 2 * BASE
    ensures (if c >= BASE then c - BASE else c) == c % BASE
  {}

  /** MOD is the remainder for all 32-bit numbers. */
  lemma ModIs(a: nat)
    requires a < 0x1_0000_0000
    ensures Mod(a) == a % BASE
  {
    assert a / 65536 < 65536;
    Mod28Is(Chop(a));
  }

  /** MOD63 is the remainder for all numbers below 2^63. */
  lemma Mod63Is(a: nat)
    requires a < 0x8000_0000_0000_0000
    ensures Mod63(a) == a % BASE
  {
    var tmp := a / 0x1_0000_0000;
    assert tmp < 0x8000_0000;
    var b := a % 0x1_0000_0000 + 225 * tmp;
    assert 0x1_0000_0000 == 225 + 65551 * BASE;
    assert a == b + (65551 * tmp) * BASE;
    Multiple(b, 65551 * tmp);
    var c := Chop(b);
    assert b / 65536 < 0x100_0000;
    assert c < 65536 + 15 * 0x100_0000;
    Mod28Is(c);
  }

  /** Wherever adler32_z reduces its sums, n bytes after the last time, the variants agree with the remainder. */
  lemma EitherWay(x: Sums, n: nat)
    requires Bounded(x, n) && n <= NMAX
    ensures Mod(x.s1) == x.s1 % BASE && Mod(x.s2) == x.s2 % BASE
    ensures n < 16 ==> Mod28(x.s2) == x.s2 % BASE
  {
    hide Most, Mod, Mod28;
    NmaxIsLargest(n);
    ModIs(x.s1);
    ModIs(x.s2);
    if n < 16 {
      MostMono(n, 15);
      MostIs(15);
      Mod28Is(x.s2);
    }
  }

  // ----- adler32_combine -----

  /** What k bytes did to the sums, from two starts, is the same, as far as BASE goes. */
  ghost predicate Shifted(x: Sums, s: Sums, y: Sums, t: Sums, k: nat) {
    Same(x.s1 - s.s1, y.s1 - t.s1) && Same(x.s2 - s.s2 - k * s.s1, y.s2 - t.s2 - k * t.s1)
  }

  lemma {:induction false} ChecksumShift(s: Sums, t: Sums, bytes: seq<byte>)
    ensures Shifted(Checksum(s, bytes), s, Checksum(t, bytes), t, |bytes|)
    decreases |bytes|
  {
    hide Checksum, Shifted;
    if bytes == [] {
      ChecksumNone(s);
      ChecksumNone(t);
      ShiftNone(s, t);
    } else {
      var k := |bytes| - 1;
      ChecksumLast(s, bytes);
      ChecksumLast(t, bytes);
      ChecksumShift(s, t, bytes[..k]);
      ShiftStep(Checksum(s, bytes[..k]), s, Checksum(t, bytes[..k]), t, k, bytes[k]);
    }
  }

  lemma ShiftNone(s: Sums, t: Sums)
    ensures Shifted(s, s, t, t, 0)
  {}

  lemma ShiftStep(x: Sums, s: Sums, y: Sums, t: Sums, k: nat, b: nat)
    requires Shifted(x, s, y, t, k)
    ensures var a, c := (x.s1 + b) % BASE, (y.s1 + b) % BASE;
            Shifted(Sums(a, (x.s2 + a) % BASE), s, Sums(c, (y.s2 + c) % BASE), t, k + 1)
  {
    hide Same;
    var a: int, c: int := (x.s1 + b) % BASE, (y.s1 + b) % BASE;
    var p: int, q: int := s.s1, t.s1;
    var kp, kq := k * p, k * q;
    SameRefl(x.s1 + b);
    SameRefl(b);
    SameMod(x.s1 + b);
    SameMod(y.s1 + b);
    SameSum(x.s1 - p, y.s1 - q, b, b);
    SameRefl(-p);
    SameRefl(-q);
    SameSum(a, x.s1 + b, -p, -p);
    SameSum(c, y.s1 + b, -q, -q);
    SameTrans(a - p, x.s1 + b - p, y.s1 + b - q, c - q);
    SameSum(x.s2 - s.s2 - kp, y.s2 - t.s2 - kq, a - p, c - q);
    SameMod(x.s2 + a);
    SameMod(y.s2 + c);
    var u, v := -(s.s2 as int) - kp - p, -(t.s2 as int) - kq - q;
    SameRefl(u);
    SameRefl(v);
    SameSum((x.s2 + a) % BASE, x.s2 + a, u, u);
    SameSum((y.s2 + c) % BASE, y.s2 + c, v, v);
    SameTrans((x.s2 + a) % BASE + u, x.s2 + a + u, y.s2 + c + v, (y.s2 + c) % BASE + v);
    NextMultiple(k, p);
    NextMultiple(k, q);
  }

  lemma NextMultiple(k: int, p: int)
    ensures (k + 1) * p == k * p + p
  {}

  lemma SameRefl(x: int)
    ensures Same(x, x)
  {}

  lemma SameTrans(a: int, b: int, c: int, d: int)
    requires Same(a, b) && Same(b, c) && Same(d, c)
    ensures Same(a, d)
  {}

  /** adler32_combine_ */
  method Adler32Combine(adler1: nat, adler2: nat, len2: int) returns (r: nat)
    requires adler1 < 0x1_0000_0000 && adler2 < 0x1_0000_0000 && Reduced(Unpacked(adler1)) && Reduced(Unpacked(adler2))
    ensures len2 < 0 ==> r == 0xffff_ffff
    ensures len2 >= 0 ==> r == Packed(Combined(Unpacked(adler1), Unpacked(adler2), len2))
    ensures len2 >= 0 ==> var x := Combined(Sums(adler1 % 65536, adler1 / 65536), Sums(adler2 % 65536, adler2 / 65536), len2);
                          r % 65536 == x.s1 && r / 65536 == x.s2
  {
    hide Combined, Mod, Mod63, Packed;
    if len2 < 0 { return 0xffff_ffff; }
    CombinedHalves(adler1, adler2, len2);
    var rem := len2 % BASE;
    var sum1 := adler1 % 65536;
    var sum2 := rem * sum1;
    ProductFits(rem, sum1);
    ModIs(sum2);
    assert len2 < 0x8000_0000_0000_0000 ==> rem == Mod63(len2) by {
      if len2 < 0x8000_0000_0000_0000 { Mod63Is(len2); }
    }
    assert Mod(sum2) == sum2 % BASE;
    sum2 := sum2 % BASE;
    sum1 := sum1 + (adler2 % 65536 + BASE - 1);
    sum2 := sum2 + (adler1 / 65536 % 65536 + adler2 / 65536 % 65536 + BASE - rem);
    ghost var x1, x2 := sum1, sum2;
    if sum1 >= BASE { sum1 := sum1 - BASE; }
    if sum1 >= BASE { sum1 := sum1 - BASE; }
    if sum2 >= 2 * BASE { sum2 := sum2 - 2 * BASE; }
    if sum2 >= BASE { sum2 := sum2 - BASE; }
    Subtracted(x1);
    Subtracted(x2);
    CombinedIs(Unpacked(adler1), Unpacked(adler2), len2, x1, x2);
    r := Packed(Sums(sum1, sum2));
  }

  lemma CombinedHalves(adler1: nat, adler2: nat, len2: nat)
    requires adler1 < 0x1_0000_0000 && adler2 < 0x1_0000_0000
    ensures Unpacked(adler1) == Sums(adler1 % 65536, adler1 / 65536) && Unpacked(adler2) == Sums(adler2 % 65536, adler2 / 65536)
    ensures var x := Combined(Unpacked(adler1), Unpacked(adler2), len2); var r := Packed(x); r % 65536 == x.s1 && r / 65536 == x.s2
  {
    hide Combined;
    CombinedReduced(Unpacked(adler1), Unpacked(adler2), len2);
    PackedUnpacks(Combined(Unpacked(adler1), Unpacked(adler2), len2));
  }

  lemma CombinedReduced(x: Sums, y: Sums, len2: nat)
    ensures Reduced(Combined(x, y, len2))
  {
    SameMod(x.s1 + y.s1 - 1);
    SameMod(x.s2 + y.s2 + len2 * (x.s1 - 1));
  }

  lemma Subtracted(x: nat)
    requires x < 4 * BASE
    ensures x % BASE == if x >= 3 * BASE then x - 3 * BASE else if x >= 2 * BASE then x - 2 * BASE else if x >= BASE then x - BASE else x
  {}

  lemma ProductFits(x: nat, y: nat)
    requires x < BASE && y < BASE
    ensures x * y <= 0xffff_ffff
  {
    var d := BASE - 1 - x;
    assert d * y >= 0;
    assert (x + d) * y == x * y + d * y;
  }

  /** Checksums of two parts: the second was computed from 1. */
  function Combined(x: Sums, y: Sums, len2: nat): Sums {
    Sums((x.s1 + y.s1 - 1) % BASE, (x.s2 + y.s2 + len2 * (x.s1 - 1)) % BASE)
  }

  lemma CombinedIs(x: Sums, y: Sums, len2: nat, x1: nat, x2: nat)
    requires x1 == x.s1 + (y.s1 + BASE - 1)
    requires x2 == (len2 % BASE * x.s1) % BASE + (x.s2 + y.s2 + BASE - len2 % BASE)
    ensures Sums(x1 % BASE, x2 % BASE) == Combined(x, y, len2)
  {
    Multiple(x.s1 + y.s1 - 1, 1);
    var rem, q := len2 % BASE, len2 / BASE;
    SameMod(rem * x.s1);
    SameSum((rem * x.s1) % BASE, rem * x.s1, x.s2 + y.s2 + BASE - rem, x.s2 + y.s2 + BASE - rem);
    var z := x.s2 + y.s2 + len2 * (x.s1 - 1);
    Spread(q, rem, x.s1);
    assert rem * x.s1 + (x.s2 + y.s2 + BASE - rem) == z + (1 - q * (x.s1 - 1)) * BASE;
    Multiple(z, 1 - q * (x.s1 - 1));
  }

  lemma Spread(q: int, rem: int, a: int)
    ensures (q * BASE + rem) * (a - 1) == q * (a - 1) * BASE + rem * a - rem
  {
    assert (q * BASE + rem) * (a - 1) == (q * BASE) * (a - 1) + rem * (a - 1);
    assert (q * BASE) * (a - 1) == q * (a - 1) * BASE;
    assert rem * (a - 1) == rem * a - rem;
  }

  /** The checksums of two byte sequences combine to the checksum of their concatenation. */
  lemma CombinedIsChecksum(s: Sums, a: seq<byte>, b: seq<byte>)
    requires Reduced(s)
    ensures Combined(Checksum(s, a), Checksum(Sums(1, 0), b), |b|) == Checksum(s, a + b)
  {
    hide Checksum;
    var x, y, z := Checksum(s, a), Checksum(Sums(1, 0), b), Checksum(s, a + b);
    ChecksumConcat(s, a, b);
    ChecksumReduced(s, a + b);
    ChecksumShift(x, Sums(1, 0), b);
    Unshift(z, x, y, |b|);
  }

  lemma Unshift(z: Sums, x: Sums, y: Sums, n: nat)
    requires Shifted(z, x, y, Sums(1, 0), n) && Reduced(z)
    ensures Combined(x, y, n) == z
  {
    hide Same;
    var u := n * x.s1;
    OneLess(n, x.s1);
    SameRefl(x.s1);
    SameSum(z.s1 - x.s1, y.s1 - 1, x.s1, x.s1);
    SameRefl(x.s2 + u);
    SameSum(z.s2 - x.s2 - u, y.s2 - n, x.s2 + u, x.s2 + u);
    SameValue(z.s1, x.s1 + y.s1 - 1);
    SameValue(z.s2, x.s2 + y.s2 + n * (x.s1 - 1));
  }

  lemma OneLess(n: int, a: int)
    ensures n * (a - 1) == n * a - n && n * 1 == n
  {}

  lemma SameValue(z: nat, w: int)
    requires Same(z, w) && z < BASE
    ensures w % BASE == z
  {}
}
