/**
  The bit reading of inflate_fast() in inffast.c.

  The fast loop pulls bytes before it knows that it needs them, so the reference is kept reachable
  on the bytes that its position needs rather than on all those read; giving back the unused bytes
  restores what the slow states rely on.
 */
module InflateFast {
  import opened Bits
  import opened Canonical
  import opened DecodeTable
  import opened Reference
  import opened Runs
  import opened BitReader
  import opened InflateSteps
  import opened BitAccumulator
  import opened ReadLengths

  /** The bytes that hold the first pos bits, and at least the first `floor`. */
  function Needed(pos: nat, floor: nat): (n: nat)
    ensures n >= floor && 8 * n >= pos && (n > floor ==> 8 * n < pos + 8)
  {
    if pos <= 8 * floor then floor else (pos + 7) / 8
  }

  /** Bytes up to r.next are read, but the reference needs only those before its position. */
  ghost predicate Ahead(fed: seq<byte>, input: seq<byte>, r: Registers, s: State, floor: nat) {
    && r.next <= |input| && |fed| <= floor
    && Unread(ReadSoFar(fed, input, r.next), s.pos, r.hold, r.bits)
    && Needed(s.pos, floor) <= |fed| + r.next
    && At((fed + input)[..Needed(s.pos, floor)], s)
  }

  lemma AheadFacts(fed: seq<byte>, input: seq<byte>, r: Registers, s: State, floor: nat)
    requires Ahead(fed, input, r, s, floor)
    ensures r.next <= |input| && Ok(s) && s.pos + r.bits == 8 * (|fed| + r.next) && r.hold < Pow2(r.bits)
    ensures s.pos >= 8 * floor ==> r.bits / 8 <= r.next
    ensures 8 * floor <= s.pos + r.bits
  {}

  /** Nothing is ahead yet. */
  lemma AheadStart(fed: seq<byte>, input: seq<byte>, r: Registers, s: State)
    requires Reads(fed, input, r, s)
    ensures Ahead(fed, input, r, s, |fed| + r.next)
  {
    hide At, Unread;
    UnreadSize(ReadSoFar(fed, input, r.next), s.pos, r.hold, r.bits);
    assert (fed + input)[..|fed| + r.next] == ReadSoFar(fed, input, r.next);
  }

  /** PUP */
  method Pull(ghost fed: seq<byte>, input: seq<byte>, r: Registers, ghost s: State, ghost floor: nat) returns (r': Registers)
    requires Ahead(fed, input, r, s, floor) && r.next < |input| && r.bits + 8 <= 32
    ensures Ahead(fed, input, r', s, floor) && r'.next == r.next + 1 && r'.bits == r.bits + 8
    ensures r'.hold < 0x1_0000_0000 && Low(r'.hold, r.bits) == r.hold
  {
    hide At, Unread, Shl, Low, Pow2;
    AheadFacts(fed, input, r, s, floor);
    var b := input[r.next];
    r' := Registers(r.next + 1, r.hold + Shl(b, r.bits), r.bits + 8);
    ghost var before := fed + input[..r.next];
    assert fed + input[..r.next + 1] == before + [b];
    UnreadPull(before, s.pos, r.hold, r.bits, b);
    AheadFacts(fed, input, r', s, floor);
    Pow2Mono(r'.bits, 32);
    WordSize();
    LowAddShl(r.hold, b, r.bits);
    LowSmall(r.hold, r.bits);
  }

  /** A step decided by the n low bits of the accumulator. */
  lemma FastStep(fed: seq<byte>, input: seq<byte>, r: Registers, s: State, floor: nat, n: nat, to: State)
    requires Ahead(fed, input, r, s, floor) && n <= r.bits && Step(s, BitsOf(r.hold, n)) == Go(to, n)
    ensures Ahead(fed, input, Dropped(r, n), to, floor) && to.pos == s.pos + n && Ok(to)
  {
    hide At, Step, BitsOf, Unread, Shr, BytesBits;
    var have, need, got, all := Needed(s.pos, floor), Needed(s.pos + n, floor), |fed| + r.next, fed + input;
    assert ReadSoFar(fed, input, r.next) == all[..got];
    UnreadSize(all[..got], s.pos, r.hold, r.bits);
    StepPos(s, BitsOf(r.hold, n));
    AtUpTo(all, have, need, s);
    FrontBits(all, need, got, s.pos, r.hold, r.bits, n);
    AtStepBy(all[..need], s, n);
    AtOk(all[..need], to);
    UnreadDrop(all[..got], s.pos, r.hold, r.bits, n);
  }

  lemma AtUpTo(all: seq<byte>, m: nat, n: nat, s: State)
    requires m <= n <= |all| && At(all[..m], s)
    ensures At(all[..n], s)
  {
    hide At;
    AtMore(all[..m], all[m..n], s);
    assert all[..m] + all[m..n] == all[..n];
  }

  /** The bits of the accumulator are there in the shorter input too. */
  lemma FrontBits(all: seq<byte>, need: nat, got: nat, pos: nat, hold: nat, bits: nat, n: nat)
    requires need <= got <= |all| && Unread(all[..got], pos, hold, bits) && n <= bits && pos + n <= 8 * need
    ensures BytesBits(all[..need])[pos..pos + n] == BitsOf(hold, n)
  {
    hide Unread, BitsOf, BytesBits;
    UnreadFront(all[..got], pos, hold, bits, n);
    PrefixBits(all[..need], all[need..got], pos, n);
    assert all[..need] + all[need..got] == all[..got];
  }

  lemma PrefixBits(a: seq<byte>, b: seq<byte>, pos: nat, n: nat)
    requires pos + n <= 8 * |a|
    ensures pos + n <= 8 * |a + b| && BytesBits(a + b)[pos..pos + n] == BytesBits(a)[pos..pos + n]
  {
    hide BytesBits;
    BytesBitsConcat(a, b);
    PrefixSlice(BytesBits(a), BytesBits(b), pos, n);
  }

  lemma PrefixSlice(x: seq<bool>, y: seq<bool>, pos: nat, n: nat)
    requires pos + n <= |x|
    ensures (x + y)[pos..pos + n] == x[pos..pos + n]
  {}

  /** Give back the whole bytes that are left in the accumulator. */
  method GiveBack(ghost fed: seq<byte>, input: seq<byte>, r: Registers, ghost s: State, ghost floor: nat) returns (r': Registers)
    requires Ahead(fed, input, r, s, floor) && s.pos + 8 > 8 * floor
    ensures Reads(fed, input, r', s) && r'.bits < 8 && UnseenOf(input, r') == UnseenOf(input, r)
  {
    hide At, Unread, BitsOf, Low, ReadSoFar;
    AheadFacts(fed, input, r, s, floor);
    var len := r.bits / 8;
    var bits := r.bits - 8 * len;
    r' := Registers(r.next - len, Low(r.hold, bits), bits);
    GivenBack(fed, input, r, s, floor, len);
  }

  lemma GivenBack(fed: seq<byte>, input: seq<byte>, r: Registers, s: State, floor: nat, len: nat)
    requires Ahead(fed, input, r, s, floor) && len == r.bits / 8 && s.pos + 8 > 8 * floor
    ensures len <= r.next && Reads(fed, input, Registers(r.next - len, Low(r.hold, r.bits - 8 * len), r.bits - 8 * len), s)
  {
    hide At, Unread, BitsOf, Low;
    var read, all := ReadSoFar(fed, input, r.next), fed + input;
    UnreadSize(read, s.pos, r.hold, r.bits);
    assert |fed| + r.next - len == Needed(s.pos, floor);
    var kept := all[..|fed| + r.next - len];
    assert kept == ReadSoFar(fed, input, r.next - len);
    assert read == kept + all[|fed| + r.next - len..|fed| + r.next];
    UnreadLess(kept, all[|fed| + r.next - len..|fed| + r.next], s.pos, r.hold, r.bits, r.bits - 8 * len);
  }

  /** Without the last bytes, only the lower bits of the accumulator are unread. */
  lemma UnreadLess(kept: seq<byte>, more: seq<byte>, pos: nat, hold: nat, bits: nat, n: nat)
    requires Unread(kept + more, pos, hold, bits) && n <= bits && pos + n == 8 * |kept|
    ensures Unread(kept, pos, Low(hold, n), n)
  {
    hide BitsOf, Low, Pow2;
    UnreadFront(kept + more, pos, hold, bits, n);
    PrefixBits(kept, more, pos, n);
    assert BytesBits(kept)[pos..] == BytesBits(kept)[pos..pos + n];
    BitsOfLow(hold, n, n);
    LowBelow(hold, n);
  }

  // ----- one literal, or one length and distance -----

  /** Two bytes, unless the accumulator already holds any code. */
  method PullTwo(ghost fed: seq<byte>, input: seq<byte>, r: Registers, ghost s: State, ghost floor: nat) returns (r': Registers)
    requires Ahead(fed, input, r, s, floor) && (r.bits < 15 ==> r.next + 2 <= |input|) && r.bits <= 30
    ensures Ahead(fed, input, r', s, floor) && 15 <= r'.bits <= 30 && Low(r'.hold, r.bits) == r.hold
    ensures if r.bits < 15 then r'.next == r.next + 2 else r' == r
  {
    hide Ahead, Low;
    AheadFacts(fed, input, r, s, floor);
    r' := r;
    if r.bits < 15 {
      r' := Pull(fed, input, r', s, floor);
      ghost var q := r';
      r' := Pull(fed, input, r', s, floor);
      LowLow(r'.hold, r.bits, q.bits);
    } else {
      LowSmall(r.hold, r.bits);
    }
  }

  /** The entry for the code in the accumulator, its bits dropped, going to a second-level table if need be. */
  method FastCode(r: Registers, table: array<Entry>, root: nat, ghost lens: seq<nat>, ghost kind: CodeType)
    returns (here: Entry, r': Registers)
    requires TableFor(table[..], root, lens, kind) && r.bits >= 15
    ensures here == Peek(table[..], root, r.hold) && 1 <= here.bits <= 15 && r' == Dropped(r, here.bits)
  {
    hide TableFor, Low, Shr, Lookup, Pow2;
    ghost var t: seq<Entry> := table[..];
    TableShape(t, root, lens, kind);
    PeekIs(t, root, lens, kind, r.hold);
    TableEntryBits(t, root, lens, kind, r.hold);
    LowBelow(r.hold, root);
    LookupFirst(t, root, r.hold);
    here := table[Low(r.hold, root)];
    r' := Dropped(r, here.bits);
    if IsLink(here) {
      LookupSecond(t, root, r.hold);
      var last := table[here.val + Low(r'.hold, here.op)];
      DropDrop(r, here.bits, last.bits);
      r' := Dropped(r', last.bits);
      here := last.(bits := here.bits + last.bits);
    }
  }

  /** The extra bits of a length. */
  method FastLenExt(ghost fed: seq<byte>, input: seq<byte>, r: Registers, ghost s: State, ghost floor: nat, len: nat, op: nat)
    returns (len': nat, r': Registers, ghost s': State)
    requires Ahead(fed, input, r, s, floor) && s.mode == LenExt(len, op) && op <= 5 && r.bits <= 30
    requires r.bits < op ==> r.next < |input|
    ensures Ahead(fed, input, r', s', floor) && s' == s.(mode := Dist(len'), pos := s.pos + op) && r'.bits <= 30
    ensures r'.next == r.next + if r.bits < op then 1 else 0
  {
    hide Ahead, Step, BitsOf, Low, Shr;
    r', len' := r, len;
    if op != 0 {
      if r'.bits < op {
        r' := Pull(fed, input, r', s, floor);
      }
    }
    LenExtStep(s, len, op, r'.hold, op);
    LowNothing(r'.hold);
    s' := s.(mode := Dist(len + Low(r'.hold, op)), pos := s.pos + op);
    FastStep(fed, input, r', s, floor, op, s');
    DropNothing(r');
    if op != 0 {
      len' := len' + Low(r'.hold, op);
      r' := Dropped(r', op);
    }
  }

  /** The extra bits of a distance: at most two more bytes. */
  method FastDistExt(ghost fed: seq<byte>, input: seq<byte>, r: Registers, ghost s: State, ghost floor: nat,
                     ghost len: nat, dist: nat, op: nat)
    returns (dist': nat, r': Registers, ghost s': State)
    requires Ahead(fed, input, r, s, floor) && s.mode == DistExt(len, dist, op) && op <= 13 && r.bits <= 30
    requires r.bits < op ==> r.next < |input|
    requires r.bits + 8 < op ==> r.next + 1 < |input|
    ensures Ahead(fed, input, r', s', floor) && s' == s.(mode := Mode.Copying(len, dist'), pos := s.pos + op) && r'.bits <= 30
    ensures r'.next == r.next + if r.bits < op then (if r.bits + 8 < op then 2 else 1) else 0
  {
    hide Ahead, Step, BitsOf, Low, Shr;
    r' := r;
    if r'.bits < op {
      r' := Pull(fed, input, r', s, floor);
      if r'.bits < op {
        r' := Pull(fed, input, r', s, floor);
      }
    }
    DistExtStep(s, len, dist, op, r'.hold, op);
    dist' := dist + Low(r'.hold, op);
    s' := s.(mode := Mode.Copying(len, dist'), pos := s.pos + op);
    FastStep(fed, input, r', s, floor, op, s');
    r' := Dropped(r', op);
  }

  /** The code of a distance and its extra bits; the code of the length began in byte `next0` or before. */
  method FastDistance(ghost fed: seq<byte>, input: seq<byte>, r0: Registers, ghost s0: State, ghost floor: nat, ghost next0: nat,
                      ghost len: nat, dcode: array<Entry>, droot: nat)
    returns (bad: bool, dist: nat, r: Registers, ghost s: State)
    requires Ahead(fed, input, r0, s0, floor) && s0.mode == Dist(len) && r0.bits <= 30
    requires next0 + 6 <= |input| && s0.pos <= 8 * (|fed| + next0) + 20 && r0.next <= next0 + 6
    requires TableFor(dcode[..], droot, s0.dlens, Dists)
    ensures Ahead(fed, input, r, s, floor) && r.bits <= 30 && r.next <= next0 + 6 && s.pos >= s0.pos
    ensures s == s0.(pos := s.pos, mode := if bad then Bad else Mode.Copying(len, dist))
  {
    hide Ahead, Step, BitsOf, Low, Shr, TableFor, Lookup, HasBit, Peek;
    AheadFacts(fed, input, r0, s0, floor);
    ghost var dt: seq<Entry> := dcode[..];
    var q := PullTwo(fed, input, r0, s0, floor);
    var here;
    here, r := FastCode(q, dcode, droot, s0.dlens, Dists);
    PeekIs(dt, droot, s0.dlens, Dists, q.hold);
    AheadFacts(fed, input, q, s0, floor);
    DistByTable(s0, len, dt, droot, q.hold, here.bits);
    s := DistNext(s0, len, here);
    FastStep(fed, input, q, s0, floor, here.bits, s);
    bad, dist := !HasBit(here.op, 4), 0;
    if !bad {
      AheadFacts(fed, input, r, s, floor);
      dist, r, s := FastDistExt(fed, input, r, s, floor, len, here.val, here.op % 16);
    }
  }

  /** The first code needs more bits than were left over. */
  lemma FirstCodeBits(h: nat, q: nat, h': nat, t: seq<Entry>, root: nat, lens: seq<nat>)
    requires TableFor(t, root, lens, Lens) && h < Pow2(q) && Low(h', q) == h
    ensures q < Peek(t, root, h).bits ==> q < Peek(t, root, h').bits
  {
    hide TableFor, Lookup, Low;
    PeekIs(t, root, lens, Lens, h);
    PeekIs(t, root, lens, Lens, h');
    if q < Peek(t, root, h).bits {
      StillNeeded(t, root, lens, Lens, h, q, h');
    }
  }

  /** The operations of literal/length entries that the fast loop tells apart. */
  lemma LengthOp(t: seq<Entry>, root: nat, lens: seq<nat>, h: nat)
    requires TableFor(t, root, lens, Lens)
    ensures Pow2(root) <= |t| && (forall i :: 0 <= i < Pow2(root) && IsLink(t[i]) ==> t[i].val + Pow2(t[i].op) <= |t|)
    ensures var e := Lookup(t, root, h);
            e.op != 0 ==> (HasBit(e.op, 4) ==> !HasBit(e.op, 5) && !HasBit(e.op, 6)) && (!HasBit(e.op, 4) && !HasBit(e.op, 5) ==> HasBit(e.op, 6))
  {
    hide Matches, Acceptable, Pow2, Lookup, SymEntry, HasBit;
    InvalidOp();
    if n :| 0 <= n < |lens| && Matches(lens, n, h) {
      LengthOps(n);
      EntryBits(Lens, n, lens[n]);
      if n == 256 { EndOp(n); }
    } else {
      assert Unmatched(lens, h);
    }
  }

  lemma EndOp(n: nat)
    requires n == 256
    ensures SymEntry(Lens, n, 0).op == 96
  {}

  /** What one turn of the fast loop decodes. */
  datatype Piece = Byte(b: byte) | Pair(len: nat, dist: nat) | End | Wrong

  /** The reference after the piece's bits. */
  predicate Read(s: State, piece: Piece, s': State) {
    s' == s.(pos := s'.pos, mode := match piece
                                    case Byte(b) => Literal(b)
                                    case Pair(len, dist) => Mode.Copying(len, dist)
                                    case End => Type
                                    case Wrong => Bad)
  }

  /** From the length code on. */
  method FastPiece(ghost fed: seq<byte>, input: seq<byte>, r0: Registers, ghost s0: State, ghost floor: nat,
                   lcode: array<Entry>, lroot: nat, dcode: array<Entry>, droot: nat)
    returns (piece: Piece, r: Registers, ghost s: State)
    requires Ahead(fed, input, r0, s0, floor) && s0.mode == Len && r0.bits <= 30 && r0.next + 6 <= |input|
    requires TableFor(lcode[..], lroot, s0.llens, Lens) && TableFor(dcode[..], droot, s0.dlens, Dists)
    ensures Ahead(fed, input, r, s, floor) && r.bits <= 30 && r.next <= r0.next + 6
    ensures Read(s0, piece, s) && s.pos > s0.pos && (piece.Pair? ==> 3 <= piece.len)
    ensures r0.bits < Peek(lcode[..], lroot, r0.hold).bits ==> s.pos > s0.pos + r0.bits
  {
    hide Ahead, Step, BitsOf, Low, Shr, TableFor, HasBit, Peek;
    AheadFacts(fed, input, r0, s0, floor);
    var here;
    here, r, s := FastLength(fed, input, r0, s0, floor, lcode, lroot);
    if here.op == 0 {
      piece := Byte(here.val);
    } else if HasBit(here.op, 4) {
      AheadFacts(fed, input, r, s, floor);
      var len, dist, bad;
      len, r, s := FastLenExt(fed, input, r, s, floor, here.val, here.op % 16);
      AheadFacts(fed, input, r, s, floor);
      bad, dist, r, s := FastDistance(fed, input, r, s, floor, r0.next, len, dcode, droot);
      piece := if bad then Wrong else Pair(len, dist);
    } else if HasBit(here.op, 5) {
      piece := End;
    } else {
      piece := Wrong;
    }
  }

  /** The length code, its bits dropped, and what its entry can say. */
  method FastLength(ghost fed: seq<byte>, input: seq<byte>, r0: Registers, ghost s0: State, ghost floor: nat, lcode: array<Entry>, lroot: nat)
    returns (here: Entry, r: Registers, ghost s: State)
    requires Ahead(fed, input, r0, s0, floor) && s0.mode == Len && r0.bits <= 30 && r0.next + 6 <= |input|
    requires TableFor(lcode[..], lroot, s0.llens, Lens)
    ensures Ahead(fed, input, r, s, floor) && r.bits <= 30 && r.next <= r0.next + 2
    ensures s == LenNext(s0, here) && s0.pos < s.pos <= s0.pos + 15 && (here.op == 0 ==> here.val < 256)
    ensures here.op != 0 && HasBit(here.op, 4) ==> !HasBit(here.op, 5) && !HasBit(here.op, 6)
    ensures here.op != 0 && !HasBit(here.op, 4) && !HasBit(here.op, 5) ==> HasBit(here.op, 6)
    ensures r0.bits < Peek(lcode[..], lroot, r0.hold).bits ==> s.pos > s0.pos + r0.bits
  {
    hide Ahead, Step, BitsOf, Low, Shr, TableFor, Lookup, HasBit, Peek;
    ghost var lt: seq<Entry> := lcode[..];
    AheadFacts(fed, input, r0, s0, floor);
    var q := PullTwo(fed, input, r0, s0, floor);
    here, r := FastCode(q, lcode, lroot, s0.llens, Lens);
    FirstCodeBits(r0.hold, r0.bits, q.hold, lt, lroot, s0.llens);
    PeekIs(lt, lroot, s0.llens, Lens, q.hold);
    AheadFacts(fed, input, q, s0, floor);
    LenByTable(s0, lt, lroot, q.hold, here.bits);
    LengthOp(lt, lroot, s0.llens, q.hold);
    s := LenNext(s0, here);
    FastStep(fed, input, q, s0, floor, here.bits, s);
  }
}
