/**
  The comment of inffast.c says that inflate_fast() is entered with fewer than 8 bits in the
  accumulator (zlib/inffast.c:29). Inflater.Inflate says when it is not: in a call that begins in state
  LEN with 8 bits or more, has 6 bytes of input and room for 258, and in no other.

  Here that is shown to happen: of a fixed block with literals of nine bits, the first call is given
  all but the last bit of the sixth. Inflater.FastLoop asks for less than the comment does, and that
  is kept by every state.
 */
module FastEntry {
  import opened Bits
  import opened Canonical
  import opened DecodeTable
  import opened Reference
  import opened Runs
  import opened TokenCoding
  import opened BlockDecoding
  import opened BitReader
  import opened BitAccumulator
  import opened Inflate
  import opened SplitIndependence

  const BYTE: byte := 200

  function Copies(c: seq<bool>, n: nat): (r: seq<bool>)
    ensures |r| == n * |c|
  {
    if n == 0 then [] else c + Copies(c, n - 1)
  }

  /** Eight bits of a literal of nine. */
  function Tail(): seq<bool> {
    NineBits();
    Code(FixedLens(), BYTE)[..8]
  }

  /** A fixed block with five literals of nine bits each, and eight bits of the sixth. */
  function Stream(): seq<bool> {
    HeaderBits(1, true) + (Copies(Code(FixedLens(), BYTE), 5) + Tail())
  }

  lemma NineBits()
    ensures HasCode(FixedLens(), BYTE) && |Code(FixedLens(), BYTE)| == 9
  {
    hide Huff;
    assert FixedLens()[BYTE] == 9;
  }

  lemma {:induction false} LiteralsRun(s: State, n: nat, rest: seq<bool>)
    requires AtLen(s) && HasCode(s.llens, BYTE)
    ensures var bits := Copies(Code(s.llens, BYTE), n);
            Reaches(s, bits + rest, s.(pos := s.pos + |bits|, out := s.out + Rep(BYTE, n)), rest)
    decreases n
  {
    hide Reaches, Code, Ok;
    var c := Code(s.llens, BYTE);
    if n == 0 {
      assert [] + rest == rest && s.out + Rep(BYTE, 0) == s.out;
      ReachesSelf(s, rest);
    } else {
      var more := Copies(c, n - 1);
      assert c + more + rest == c + (more + rest);
      LiteralRun(s, BYTE, more + rest);
      var u := s.(pos := s.pos + |c|, out := s.out + [BYTE]);
      SameCodesOk(s, u);
      LiteralsRun(u, n - 1, rest);
      OneFirst(n - 1);
      assert u.out + Rep(BYTE, n - 1) == s.out + ([BYTE] + Rep(BYTE, n - 1));
      ReachesTrans(s, c + (more + rest), u, more + rest, s.(pos := s.pos + |c + more|, out := s.out + Rep(BYTE, n)), rest);
    }
  }

  lemma OneFirst(n: nat)
    ensures [BYTE] + Rep(BYTE, n) == Rep(BYTE, n + 1)
  {}

  function ToBytes(bits: seq<bool>): seq<byte>
    decreases |bits|
  {
    if |bits| < 8 then [] else [ByteOf(bits[..8])] + ToBytes(bits[8..])
  }

  function ByteOf(bits: seq<bool>): byte
    requires |bits| == 8
  {
    Pow2Values();
    ValueOf(bits)
  }

  lemma {:induction false} ToBytesBits(bits: seq<bool>)
    requires |bits| % 8 == 0
    ensures BytesBits(ToBytes(bits)) == bits
    decreases |bits|
  {
    hide BytesBits, BitsOf, ValueOf;
    if bits == [] {
      BytesBitsNone();
    } else {
      ToBytesBits(bits[8..]);
      BitsOfValueOf(bits[..8]);
      BytesBitsHead(ToBytes(bits));
      assert bits == bits[..8] + bits[8..];
    }
  }

  function WaitingBytes(): seq<byte> {
    ToBytes(Stream())
  }

  lemma StreamSize()
    ensures |Stream()| == 56
  {
    hide Code, FixedLens, Copies;
    NineBits();
  }

  /** The first bits of a code are not enough to decode anything. */
  lemma PartOfCode(lens: seq<nat>, n: nat, k: nat)
    requires Usable(lens) && HasCode(lens, n) && 0 < k < lens[n]
    ensures Decode(lens, Code(lens, n)[..k]).More?
  {
    hide Usable, Matches, Huff, ValueOf, Low;
    var c := Code(lens, n);
    var a, b := c[..k], c[k..];
    assert a + b == c == c + [];
    CodeBegins(lens, n, []);
    PrefixValue(a, b);
    assert !Unmatched(lens, ValueOf(c)) && Low(ValueOf(c), |a|) == ValueOf(a);
    var d := Decode(lens, a);
    if d.Symbol? {
      BeginsExtend(lens, d.n, a, b);
      DecodeFound(lens, d.n, c);
    }
  }

  lemma LenWaits(s: State, bits: seq<bool>)
    requires s.mode == Len && Decode(s.llens, bits).More?
    ensures Step(s, bits).Stuck?
  {
    hide Decode;
  }

  /** Given these bytes and room for six, a new inflater decodes five and waits in state LEN with 8 bits. */
  method EightBitsLeft() returns (b: Inflater)
    ensures fresh(b) && fresh(b.win) && fresh(b.win.window) && fresh(b.lens) && fresh(b.codes) && fresh(b.dcodes)
    ensures b.Idle() && b.mode == LEN && b.bits == 8 && b.fed == WaitingBytes()
  {
    hide *;
    b := new Inflater();
    var out := new byte[6];
    ghost var s := WaitingState();
    var bytes := WaitingBytes();
    var ret;
    ghost var wide;
    ret, wide := b.Inflate(bytes, out);
    NothingYet(out[..b.put]);
    OneEnd(b, ret, bytes, out, s);
  }

  lemma NothingYet(out: seq<byte>)
    ensures INIT.out + out == out
  {}

  /** Where a call on these bytes with room for more than what they decode to ends. */
  lemma OneEnd(b: Inflater, ret: int, bytes: seq<byte>, out: array<byte>, s: State)
    requires b.Idle() && b.Outcome(ret, bytes, out) && b.next <= |bytes| && b.fed == bytes[..b.next]
    requires b.put <= out.Length && b.ref.out == out[..b.put]
    requires At(bytes, s) && s.mode == Len && Waits(bytes, s) && |bytes| == 7 && s.pos == 48 && |s.out| < out.Length
    ensures b.fed == bytes && b.mode == LEN && b.bits == 8
  {
    hide *;
    b.KnowIdle();
    OnePath(bytes, bytes, s, b.fed, b.ref);
    ConsistentIs(bytes, s, b.ref);
    OutcomeIs(b, ret, bytes, out);
    if b.ref.mode.Done? || b.ref.mode.Bad? {
      FinishedWaits(b.fed, b.ref, bytes);
      assert false;
    }
    assert b.fed == bytes;
    UnreadSize(bytes, b.ref.pos, b.hold, b.bits);
    ModeOf(b);
  }

  lemma OutcomeIs(b: Inflater, ret: int, inp: seq<byte>, out: array<byte>)
    requires b.Outcome(ret, inp, out)
    ensures b.ref.mode.Done? || b.ref.mode.Bad? || b.put == out.Length || (b.next == |inp| && Waits(b.fed, b.ref))
  {
    hide Waits;
  }

  /** The next call enters the fast loop with the 8 bits, whatever the next bytes are, if there are 6 of them. */
  method EntersWithEight(more: seq<byte>, out: array<byte>) returns (ghost wide: bool)
    requires |more| >= 6 && out.Length >= 258
    modifies out
    ensures wide
  {
    hide *;
    var b := EightBitsLeft();
    var ret;
    ret, wide := b.Inflate(more, out);
  }

  lemma ModeOf(b: Inflater)
    requires b.Idle() && b.ref.mode == Len
    ensures b.mode == LEN
  {
    hide At, Unread, TableFor, Peek, Order;
  }

  lemma StreamTail()
    ensures Stream()[48..] == Tail()
  {
    hide Code, HeaderBits, FixedLens, Copies;
    NineBits();
    var body := Copies(Code(FixedLens(), BYTE), 5);
    assert Stream() == (HeaderBits(1, true) + body) + Tail();
  }

  /** Five literals decoded, and part of the sixth. */
  lemma StreamRun() returns (s: State)
    ensures Reaches(INIT, Stream(), s, Tail()) && Ok(s)
    ensures s == State(Len, true, FixedLens(), FixedDists(), 48, Rep(BYTE, 5))
  {
    hide Reaches, Code, HeaderBits, FixedLens, FixedDists, Copies, Ok, Tail;
    NineBits();
    FirstState();
    var body := Copies(Code(FixedLens(), BYTE), 5);
    TypeRun(INIT, 1, true, body + Tail());
    var t := State(Len, true, FixedLens(), FixedDists(), 3, []);
    FixedOk(t);
    LiteralsRun(t, 5, Tail());
    s := t.(pos := 48, out := Rep(BYTE, 5));
    assert t.out + Rep(BYTE, 5) == Rep(BYTE, 5);
    ReachesTrans(INIT, Stream(), t, body + Tail(), s, Tail());
    SameCodesOk(t, s);
  }

  lemma WaitingState() returns (s: State)
    ensures |WaitingBytes()| == 7 && At(WaitingBytes(), s) && s.mode == Len && s.pos == 48 && |s.out| == 5 && Waits(WaitingBytes(), s)
  {
    hide Reaches, Code, FixedLens, FixedDists, Ok, BytesBits, Step, Stream, ToBytes;
    NineBits();
    StreamSize();
    StreamTail();
    ToBytesBits(Stream());
    s := StreamRun();
    FixedComplete();
    FixedNine();
    PartOfCode(FixedLens(), BYTE, 8);
    LenWaits(s, Tail());
  }

  lemma FixedNine()
    ensures BYTE < |FixedLens()| && FixedLens()[BYTE] == 9
  {}

  lemma FirstState()
    ensures Between(INIT)
  {
    AllZeroBase([], MAX_BITS + 1);
  }

  lemma FixedOk(t: State)
    requires t == State(Len, true, FixedLens(), FixedDists(), 3, [])
    ensures AtLen(t)
  {
    hide FixedLens, FixedDists, Usable;
    FixedComplete();
    FixedSizes();
  }
}
