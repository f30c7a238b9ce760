/**
  Where the decoder stands in its input: the bit accumulator of inflate.c against the bit stream.
 */
module BitReader {
  import opened Bits
  import opened Canonical
  import opened DecodeTable
  import opened Symbols
  import opened Reference
  import opened Runs

  /** Having read this input, the reference decoder can be at s, the bits past s.pos still unread. */
  ghost predicate At(input: seq<byte>, s: State) {
    Ok(s) && s.pos <= 8 * |input| && Reaches(INIT, BytesBits(input), s, BytesBits(input)[s.pos..])
  }

  /** hold and bits: exactly the unread bits of the input, lowest first, and zeros above. */
  ghost predicate Unread(input: seq<byte>, pos: nat, hold: nat, bits: nat) {
    hold < Pow2(bits) && pos + bits == 8 * |input| && BitsOf(hold, bits) == BytesBits(input)[pos..]
  }

  lemma AtStart()
    ensures At([], INIT) && Unread([], 0, 0, 0)
  {
    hide Run;
    ReachesSelf(INIT, []);
    AllZeroBase([], MAX_BITS + 1);
    assert BytesBits([])[0..] == [];
  }

  /** Reading on changes nothing that was done. */
  lemma AtMore(input: seq<byte>, more: seq<byte>, s: State)
    requires At(input, s)
    ensures At(input + more, s)
  {
    hide Ok, Run, Reaches;
    var x, y := BytesBits(input), BytesBits(more);
    BytesBitsConcat(input, more);
    ReachesExtend(INIT_Ok(), x, s, x[s.pos..], y);
    assert (x + y)[s.pos..] == x[s.pos..] + y;
  }

  /** The initial state, known to be in order. */
  function INIT_Ok(): (s: State)
    ensures s == INIT && Ok(s)
  {
    AllZeroBase([], MAX_BITS + 1);
    INIT
  }

  /** A step advances the position by the bits it uses. */
  lemma StepPos(s: State, bits: seq<bool>)
    requires Step(s, bits).Go?
    ensures Step(s, bits).to.pos == s.pos + Step(s, bits).used && Step(s, bits).used <= |bits|
  {
    hide Field, Decode, FixedLens, FixedDists, LBase, LExt, DBase, DExt, Acceptable, Unpermute, Padding;
  }

  /** One more step. */
  lemma AtStep(input: seq<byte>, s: State)
    requires At(input, s) && Step(s, BytesBits(input)[s.pos..]).Go?
    ensures At(input, Step(s, BytesBits(input)[s.pos..]).to)
  {
    hide *;
    AtOk(input, s);
    AtReaches(input, s);
    var x := BytesBits(input);
    var rest := x[s.pos..];
    var r := Step(s, rest);
    StepPos(s, rest);
    StepOk(s, rest);
    ReachesStep(s, rest);
    assert rest[r.used..] == x[r.to.pos..];
    ReachesTrans(INIT, x, s, rest, r.to, rest[r.used..]);
    AtIs(input, r.to);
  }

  lemma AtReaches(input: seq<byte>, s: State)
    requires At(input, s)
    ensures s.pos <= 8 * |input| && Reaches(INIT, BytesBits(input), s, BytesBits(input)[s.pos..])
  {}

  lemma AtIs(input: seq<byte>, s: State)
    requires Ok(s) && s.pos <= 8 * |input| && Reaches(INIT, BytesBits(input), s, BytesBits(input)[s.pos..])
    ensures At(input, s)
  {}

  /** A step that the first n unread bits decide. */
  lemma AtStepBy(input: seq<byte>, s: State, n: nat)
    requires At(input, s) && s.pos + n <= 8 * |input|
    requires Step(s, BytesBits(input)[s.pos..s.pos + n]).Go?
    ensures At(input, Step(s, BytesBits(input)[s.pos..s.pos + n]).to)
  {
    hide *;
    AtOk(input, s);
    var x := BytesBits(input);
    var a, b := x[s.pos..s.pos + n], x[s.pos + n..];
    assert x[s.pos..] == a + b;
    StepExtend(s, a, b);
    AtStep(input, s);
  }

  lemma AtOk(input: seq<byte>, s: State)
    requires At(input, s)
    ensures Ok(s) && s.pos <= 8 * |input|
  {}

  /** PULLBYTE */
  lemma UnreadPull(input: seq<byte>, pos: nat, hold: nat, bits: nat, b: byte)
    requires Unread(input, pos, hold, bits)
    ensures Unread(input + [b], pos, hold + Shl(b, bits), bits + 8)
  {
    hide BitsOf, Shl;
    BytesBitsPush(input, b);
    Pow2Values();
    PushBits(hold, bits, b, 8);
    assert (BytesBits(input) + BitsOf(b, 8))[pos..] == BytesBits(input)[pos..] + BitsOf(b, 8);
  }

  /** DROPBITS */
  lemma UnreadDrop(input: seq<byte>, pos: nat, hold: nat, bits: nat, n: nat)
    requires Unread(input, pos, hold, bits) && n <= bits
    ensures Unread(input, pos + n, Shr(hold, n), bits - n)
  {
    hide BitsOf;
    assert n + (bits - n) == bits;
    BitsOfSplit(hold, n, bits - n);
    LowSmall(hold, bits);
    ShrLow(hold, n, bits);
    assert BytesBits(input)[pos..][n..] == BytesBits(input)[pos + n..];
    assert BitsOf(Shr(hold, n), bits - n) == BitsOf(hold, bits)[n..];
  }

  /** The first n unread bits are the low ones of the accumulator. */
  lemma UnreadFront(input: seq<byte>, pos: nat, hold: nat, bits: nat, n: nat)
    requires Unread(input, pos, hold, bits) && n <= bits
    ensures BytesBits(input)[pos..pos + n] == BitsOf(hold, n)
  {
    hide BitsOf;
    assert n + (bits - n) == bits;
    BitsOfSplit(hold, n, bits - n);
    assert BytesBits(input)[pos..][..n] == BytesBits(input)[pos..pos + n];
  }

  /** A field of the front of the accumulator. */
  lemma FieldIs(hold: nat, q: nat, from: nat, n: nat)
    requires from + n <= q
    ensures Field(BitsOf(hold, q), from, n) == Low(Shr(hold, from), n)
  {
    hide BitsOf, Low, Shr;
    assert from + (q - from) == q;
    BitsOfSplit(hold, from, q - from);
    var rest := Shr(hold, from);
    assert n + (q - from - n) == q - from;
    BitsOfSplit(rest, n, q - from - n);
    assert BitsOf(hold, q)[from..from + n] == BitsOf(rest, n);
    ValueOfBitsOf(rest, n);
  }

  // ----- what a table lookup means -----

  lemma TableShape(t: seq<Entry>, root: nat, lens: seq<nat>, kind: CodeType)
    requires TableFor(t, root, lens, kind)
    ensures 1 <= root && Pow2(root) <= |t|
    ensures forall i :: 0 <= i < Pow2(root) && IsLink(t[i]) ==>
              t[i].val + Pow2(t[i].op) <= |t| && t[i].bits == root && kind != Codes
  {}

  lemma TableEntryBits(t: seq<Entry>, root: nat, lens: seq<nat>, kind: CodeType, h: nat)
    requires TableFor(t, root, lens, kind)
    ensures 1 <= Lookup(t, root, h).bits <= MAX_BITS
  {
    hide Lookup, SymEntry, Matches, Acceptable, Pow2;
    if n :| 0 <= n < |lens| && Matches(lens, n, h) {
      MatchLen(lens, n, h);
      SymEntryIsNoLink(kind, n, lens[n]);
    } else {
      assert Unmatched(lens, h);
    }
  }

  lemma MatchLen(lens: seq<nat>, n: nat, h: nat)
    requires n < |lens| && Matches(lens, n, h)
    ensures lens[n] != 0
  {}

  /** If the entry's bits are among the first q, the symbol decoded from them is the entry's. */
  lemma DecodeByTable(t: seq<Entry>, root: nat, lens: seq<nat>, kind: CodeType, h: nat, q: nat)
    requires TableFor(t, root, lens, kind) && Usable(lens) && Lookup(t, root, h).bits <= q
    ensures var e := Lookup(t, root, h);
            match Decode(lens, BitsOf(h, q))
            case Symbol(n) => n < MaxSymbols(kind) && e == SymEntry(kind, n, lens[n])
            case NoCode => e == INVALID
            case More => false
  {
    hide Lookup, SymEntry, Matches, Acceptable, Pow2, BitsOf, Low;
    var e, x := Lookup(t, root, h), BitsOf(h, q);
    TableEntryBits(t, root, lens, kind, h);
    ValueOfBitsOf(h, q);
    LowLow(h, q, q);
    if n :| 0 <= n < |lens| && Matches(lens, n, h) {
      SymEntryIsNoLink(kind, n, lens[n]);
      StillMatches(lens, n, h, q, Low(h, q));
      DecodeFound(lens, n, x);
    } else {
      assert Unmatched(lens, h);
      forall v: nat | Low(v, q) == ValueOf(x) ensures Unmatched(lens, v) {
        StillUnmatched(lens, kind, h, q, v);
      }
      assert Hopeless(lens, x);
      StillUnmatched(lens, kind, h, q, Low(h, q));
    }
  }

  /** Bit k of an operation field. */
  predicate HasBit(op: nat, k: nat) {
    Shr(op, k) % 2 == 1
  }

  lemma {:induction false} LengthOps(n: nat)
    requires n < 288
    ensures var e := SymEntry(Lens, n, 0);
      (e.op == 0 <==> n < 256) && (n < 256 ==> e.val == n) &&
      (e.op != 0 ==> (HasBit(e.op, 5) <==> n == 256)) &&
      (n > 256 ==> (HasBit(e.op, 6) <==> n > 285)) &&
      (n > 256 ==> (HasBit(e.op, 4) <==> n <= 285)) && (256 < n <= 285 ==> e.op % 16 == LExt()[n - 257] % 16 && e.val == LBase()[n - 257])
  {
    if n > 256 {
      LengthOpBits(n - 257);
    }
  }

  lemma LengthOpBits(i: nat)
    requires i < 31
    ensures var op := LExt()[i]; op != 0 && !HasBit(op, 5) && (HasBit(op, 6) <==> i > 28) && (HasBit(op, 4) <==> i <= 28)
  {
    hide LExt;
    if i <= 28 {
      LengthEntry(i);
      SmallOp(LExt()[i] - 16);
    } else {
      LastOps(i);
    }
  }

  lemma SmallOp(k: nat)
    requires k <= 13
    ensures HasBit(16 + k, 4) && !HasBit(16 + k, 5) && !HasBit(16 + k, 6)
  {
    var v := 16 + k;
    LowShrUnique(k, 1, 4);
    assert Shl(1, 4) == 16;
    ShrShr(v, 4, 1);
    ShrShr(v, 4, 2);
  }

  lemma LastOps(i: nat)
    requires i == 29 || i == 30
    ensures var op := LExt()[i]; op != 0 && !HasBit(op, 4) && !HasBit(op, 5) && HasBit(op, 6)
  {
    assert LExt()[29] == 77 && LExt()[30] == 202;
    assert Shr(77, 4) == 4 && Shr(202, 4) == 12 && Shr(77, 5) == 2 && Shr(77, 6) == 1 && Shr(202, 5) == 6 && Shr(202, 6) == 3 by {
      ShrShr(77, 4, 1);
      ShrShr(77, 4, 2);
      ShrShr(202, 4, 1);
      ShrShr(202, 4, 2);
    }
  }

  lemma DistanceOps(n: nat)
    requires n < 32
    ensures var e := SymEntry(Dists, n, 0);
      (HasBit(e.op, 6) <==> n >= D_CODES) && (n >= D_CODES ==> !HasBit(e.op, 4)) &&
      (n < D_CODES ==> HasBit(e.op, 4) && e.op % 16 == DExt()[n] % 16 && e.val == DBase()[n])
  {
    if n < D_CODES {
      hide DExt, DBase;
      DistEntry(n);
      SmallOp(DExt()[n] - 16);
    } else {
      assert DExt()[n] == 64;
      InvalidOp();
    }
  }

  lemma InvalidOp()
    ensures HasBit(64, 6) && !HasBit(64, 5) && !HasBit(64, 4) && HasBit(96, 5) && HasBit(96, 6) && !HasBit(96, 4)
  {
    ShrShr(64, 4, 1);
    ShrShr(64, 4, 2);
    ShrShr(96, 4, 1);
    ShrShr(96, 4, 2);
  }

  /** What the LEN state makes of an entry. */
  function LenNext(s: State, e: Entry): State {
    var u := s.(pos := s.pos + e.bits);
    if e.op == 0 then (if e.val < 256 then u.(mode := Literal(e.val)) else u)
    else if HasBit(e.op, 5) then u.(mode := Type)
    else if HasBit(e.op, 6) then u.(mode := Bad)
    else u.(mode := LenExt(e.val, e.op % 16))
  }

  /** What the DIST state makes of an entry. */
  function DistNext(s: State, len: nat, e: Entry): State {
    var u := s.(pos := s.pos + e.bits);
    if HasBit(e.op, 6) then u.(mode := Bad)
    else u.(mode := DistExt(len, e.val, e.op % 16))
  }

  /** The LEN state read through the table takes the reference's step. */
  lemma LenByTable(s: State, t: seq<Entry>, root: nat, h: nat, q: nat)
    requires Ok(s) && s.mode == Len && TableFor(t, root, s.llens, Lens) && Lookup(t, root, h).bits <= q
    ensures var e := Lookup(t, root, h);
            Step(s, BitsOf(h, q)) == Go(LenNext(s, e), e.bits) && (e.op == 0 ==> e.val < 256)
  {
    hide Lookup, TableFor, SymEntry, BitsOf, Decode, LBase, LExt, HasBit, Usable, StepType, StepStored, StepCopy, StepTable,
         StepLenLens, StepCodeLens, StepLenExt, StepDist, StepDistExt, StepCopying;
    TableShape(t, root, s.llens, Lens);
    var e := Lookup(t, root, h);
    LensUsable(s);
    DecodeByTable(t, root, s.llens, Lens, h, q);
    var d := Decode(s.llens, BitsOf(h, q));
    if d.Symbol? {
      LengthOps(d.n);
      EntryBits(Lens, d.n, s.llens[d.n]);
    } else {
      InvalidOp();
    }
  }

  lemma LensUsable(s: State)
    requires Ok(s)
    ensures Usable(s.llens) && Usable(s.dlens)
  {}

  lemma EntryBits(kind: CodeType, n: nat, l: nat)
    requires n < MaxSymbols(kind)
    ensures SymEntry(kind, n, l) == SymEntry(kind, n, 0).(bits := l)
  {}

  /** The DIST state read through the table takes the reference's step. */
  lemma DistByTable(s: State, len: nat, t: seq<Entry>, root: nat, h: nat, q: nat)
    requires Ok(s) && s.mode == Dist(len) && TableFor(t, root, s.dlens, Dists) && Lookup(t, root, h).bits <= q
    ensures var e := Lookup(t, root, h); Step(s, BitsOf(h, q)) == Go(DistNext(s, len, e), e.bits)
    ensures var e := Lookup(t, root, h); HasBit(e.op, 4) <==> !HasBit(e.op, 6)
  {
    hide Lookup, TableFor, SymEntry, BitsOf, Decode, DBase, DExt, HasBit, Usable, StepType, StepStored, StepCopy, StepTable,
         StepLenLens, StepCodeLens, StepLenExt, StepLen, StepDistExt, StepCopying;
    TableShape(t, root, s.dlens, Dists);
    var e := Lookup(t, root, h);
    LensUsable(s);
    DecodeByTable(t, root, s.dlens, Dists, h, q);
    var d := Decode(s.dlens, BitsOf(h, q));
    if d.Symbol? {
      DistanceOps(d.n);
      EntryBits(Dists, d.n, s.dlens[d.n]);
    } else {
      InvalidOp();
    }
  }
}
