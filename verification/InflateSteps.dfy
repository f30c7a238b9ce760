/**
  The steps of the reference decoder as inflate() takes them: in terms of an accumulator h of which
  q bits have been read.
 */
module InflateSteps {
  import opened Bits
  import opened Canonical
  import opened DecodeTable
  import opened Symbols
  import opened Reference
  import opened Runs
  import opened BitReader

  // ----- TYPE -----

  lemma TypeEnd(s: State, h: nat, q: nat)
    requires s.mode == Type && s.last && Padding(s.pos) <= q
    ensures Step(s, BitsOf(h, q)) == Go(s.(mode := Done, pos := s.pos + Padding(s.pos)), Padding(s.pos))
  {
    hide StepStored, StepCopy, StepTable, StepLenLens, StepCodeLens, StepLen, StepLenExt, StepDist, StepDistExt, StepCopying, BitsOf, Padding,
         FixedLens, FixedDists, Field;
  }

  /** The last-block flag and the kind of block in the three bits of h. */
  function TypeNext(s: State, h: nat): State {
    var t := s.(last := Low(h, 1) == 1, pos := s.pos + 3);
    var kind := Low(Shr(h, 1), 2);
    if kind == 0 then t.(mode := Stored)
    else if kind == 1 then t.(mode := Len, llens := FixedLens(), dlens := FixedDists())
    else if kind == 2 then t.(mode := Table)
    else t.(mode := Bad)
  }

  lemma TypeHeader(s: State, h: nat, q: nat)
    requires s.mode == Type && !s.last
    ensures q < 3 ==> Step(s, BitsOf(h, q)).Stuck?
    ensures q >= 3 ==> Step(s, BitsOf(h, q)) == Go(TypeNext(s, h), 3)
  {
    hide StepStored, StepCopy, StepTable, StepLenLens, StepCodeLens, StepLen, StepLenExt, StepDist, StepDistExt, StepCopying, Padding,
         FixedLens, FixedDists, Field;
    if q >= 3 {
      FieldIs(h, q, 1, 2);
      assert BitsOf(h, q)[0] == (h % 2 == 1);
      assert Low(h, 1) == h % 2;
    }
  }

  // ----- STORED and COPY -----

  lemma StoredAlign(s: State, h: nat, q: nat)
    requires s.mode == Stored && 0 < Padding(s.pos) <= q
    ensures Step(s, BitsOf(h, q)) == Go(s.(pos := s.pos + Padding(s.pos)), Padding(s.pos))
  {
    hide StepType, StepCopy, StepTable, StepLenLens, StepCodeLens, StepLen, StepLenExt, StepDist, StepDistExt, StepCopying, Padding, Field, BitsOf;
  }

  /** The length and its complement in the 32 bits of h. */
  lemma StoredLengths(s: State, h: nat, q: nat)
    requires s.mode == Stored && Padding(s.pos) == 0 && h < Pow2(q)
    ensures q < 32 ==> Step(s, BitsOf(h, q)).Stuck?
    ensures q == 32 ==> Shr(h, 16) <= 0xffff
    ensures q == 32 && Low(h, 16) != 0xffff - Shr(h, 16) ==> Step(s, BitsOf(h, q)) == Go(s.(mode := Bad), 0)
    ensures q == 32 && Low(h, 16) == 0xffff - Shr(h, 16) ==>
              Step(s, BitsOf(h, q)) == Go(s.(mode := Copy(Low(h, 16)), pos := s.pos + 32), 32)
  {
    hide StepType, StepCopy, StepTable, StepLenLens, StepCodeLens, StepLen, StepLenExt, StepDist, StepDistExt, StepCopying, Padding, Field,
         BitsOf, Low, Shr, Shl;
    if q == 32 {
      Pow2Values();
      FieldIs(h, q, 0, 16);
      FieldIs(h, q, 16, 16);
      ShrNone(h);
      LowSmall(h, 32);
      ShrLow(h, 16, 32);
      LowSmall(Shr(h, 16), 16);
    }
  }

  lemma StepZero(s: State, bits: seq<bool>)
    requires s.mode == Copy(0)
    ensures Step(s, bits) == Go(s.(mode := Type), 0)
  {
    hide StepType, StepStored, StepTable, StepLenLens, StepCodeLens, StepLen, StepLenExt, StepDist, StepDistExt, StepCopying, Field, Pow2;
  }

  lemma CopyStuck(s: State, h: nat)
    requires s.mode.Copy? && s.mode.left > 0
    ensures Step(s, BitsOf(h, 0)).Stuck?
  {
    hide StepType, StepStored, StepTable, StepLenLens, StepCodeLens, StepLen, StepLenExt, StepDist, StepDistExt, StepCopying, Field, Pow2;
  }

  lemma CopyStep(s: State, n: nat, b: byte, rest: seq<bool>)
    requires s.mode == Copy(n + 1)
    ensures Step(s, BitsOf(b, 8) + rest) == Go(s.(mode := Copy(n), pos := s.pos + 8, out := s.out + [b]), 8)
  {
    hide StepType, StepStored, StepTable, StepLenLens, StepCodeLens, StepLen, StepLenExt, StepDist, StepDistExt, StepCopying, BitsOf, Low;
    Pow2Values();
    ValueOfBitsOf(b, 8);
    LowSmall(b, 8);
    assert (BitsOf(b, 8) + rest)[0..0 + 8] == BitsOf(b, 8);
  }

  /** A whole piece of a stored block. */
  lemma {:induction false} AtStored(input: seq<byte>, s: State, n: nat, data: seq<byte>)
    requires At(input, s) && s.pos == 8 * |input| && s.mode == Copy(n) && |data| <= n
    ensures At(input + data, s.(mode := Copy(n - |data|), pos := s.pos + 8 * |data|, out := s.out + data))
    decreases |data|
  {
    hide At, Step, Ok, BitsOf, BytesBits;
    if data == [] {
      assert input + data == input && s.out + data == s.out;
    } else {
      var k := |data| - 1;
      AtStored(input, s, n, data[..k]);
      var t := s.(mode := Copy(n - k), pos := s.pos + 8 * k, out := s.out + data[..k]);
      assert data[..k] + [data[k]] == data;
      assert input + data[..k] + [data[k]] == input + data && s.out + data[..k] + [data[k]] == s.out + data;
      StoredByte(input + data[..k], t, n - k - 1, data[k]);
    }
  }

  lemma StoredByte(input: seq<byte>, t: State, n: nat, b: byte)
    requires At(input, t) && t.pos == 8 * |input| && t.mode == Copy(n + 1)
    ensures At(input + [b], t.(mode := Copy(n), pos := t.pos + 8, out := t.out + [b]))
  {
    hide At, Step, Ok, BitsOf, BytesBits;
    AtMore(input, [b], t);
    BytesBitsPush(input, b);
    assert BytesBits(input + [b])[t.pos..] == BitsOf(b, 8) + [];
    CopyStep(t, n, b, []);
    AtStep(input + [b], t);
  }

  // ----- TABLE and LENLENS -----

  function TableNext(s: State, h: nat): State {
    var nlen, ndist, ncode := Low(h, 5) + 257, Low(Shr(h, 5), 5) + 1, Low(Shr(h, 10), 4) + 4;
    var t := s.(pos := s.pos + 14);
    if nlen > L_CODES || ndist > D_CODES then t.(mode := Bad)
    else t.(mode := LenLens(nlen, ndist, ncode, []))
  }

  lemma TableStep(s: State, h: nat, q: nat)
    requires s.mode == Table
    ensures q < 14 ==> Step(s, BitsOf(h, q)).Stuck?
    ensures q >= 14 ==> Step(s, BitsOf(h, q)) == Go(TableNext(s, h), 14)
  {
    hide StepType, StepStored, StepCopy, StepLenLens, StepCodeLens, StepLen, StepLenExt, StepDist, StepDistExt, StepCopying, Field, BitsOf,
         Low, Shr;
    if q >= 14 {
      FieldIs(h, q, 0, 5);
      FieldIs(h, q, 5, 5);
      FieldIs(h, q, 10, 4);
      ShrNone(h);
    }
  }

  lemma LenLensStep(s: State, nlen: nat, ndist: nat, ncode: nat, got: seq<nat>, h: nat, q: nat)
    requires s.mode == LenLens(nlen, ndist, ncode, got) && |got| < ncode
    ensures q < 3 ==> Step(s, BitsOf(h, q)).Stuck?
    ensures q >= 3 ==>
              Step(s, BitsOf(h, q)) == Go(s.(mode := LenLens(nlen, ndist, ncode, got + [Low(h, 3)]), pos := s.pos + 3), 3)
  {
    hide StepType, StepStored, StepCopy, StepTable, StepCodeLens, StepLen, StepLenExt, StepDist, StepDistExt, StepCopying, Field, BitsOf,
         Low, Shr, Acceptable, Unpermute;
    if q >= 3 {
      FieldIs(h, q, 0, 3);
      ShrNone(h);
    }
  }

  lemma LenLensEnd(s: State, nlen: nat, ndist: nat, ncode: nat, got: seq<nat>, bits: seq<bool>)
    requires s.mode == LenLens(nlen, ndist, ncode, got) && |got| >= ncode
    ensures Step(s, bits) == if Acceptable(Codes, Unpermute(got)) then Go(s.(mode := CodeLens(nlen, ndist, Unpermute(got), [])), 0)
                             else Go(s.(mode := Bad), 0)
  {
    hide StepType, StepStored, StepCopy, StepTable, StepCodeLens, StepLen, StepLenExt, StepDist, StepDistExt, StepCopying, Field, Acceptable,
         Unpermute;
  }

  // ----- codes -----

  /** If the entry needs bits that have not been read, neither has the code. */
  lemma DecodeMore(t: seq<Entry>, root: nat, lens: seq<nat>, kind: CodeType, h: nat, q: nat)
    requires TableFor(t, root, lens, kind) && Usable(lens) && h < Pow2(q) && Lookup(t, root, h).bits > q
    ensures Decode(lens, BitsOf(h, q)).More?
  {
    hide Lookup, SymEntry, Matches, Acceptable, Pow2, BitsOf, Low;
    var x := BitsOf(h, q);
    ValueOfBitsOf(h, q);
    LowSmall(h, q);
    var d := Decode(lens, x);
    assert Hopeless(lens, x) ==> Unmatched(lens, h);
    if d.Symbol? {
      SymEntryIsNoLink(kind, d.n, lens[d.n]);
    }
  }

  /** Reading one more byte gives an entry that needed it, if the entry before did. */
  lemma StillNeeded(t: seq<Entry>, root: nat, lens: seq<nat>, kind: CodeType, h: nat, q: nat, h': nat)
    requires TableFor(t, root, lens, kind) && h < Pow2(q) && Low(h', q) == h && Lookup(t, root, h).bits > q
    ensures Lookup(t, root, h').bits > q
  {
    hide Lookup, Pow2, Low, TableFor;
    LowSmall(h, q);
    TableShape(t, root, lens, kind);
    if Lookup(t, root, h').bits <= q {
      PartialLookup(t, root, lens, kind, h', q, h);
    }
  }

  lemma LenMore(s: State, t: seq<Entry>, root: nat, h: nat, q: nat)
    requires Ok(s) && s.mode == Len && TableFor(t, root, s.llens, Lens) && h < Pow2(q) && Lookup(t, root, h).bits > q
    ensures Step(s, BitsOf(h, q)).Stuck?
  {
    hide StepType, StepStored, StepCopy, StepTable, StepLenLens, StepCodeLens, StepLenExt, StepDist, StepDistExt, StepCopying, Decode,
         TableFor, Lookup, BitsOf, Usable, LBase, LExt;
    LensUsable(s);
    DecodeMore(t, root, s.llens, Lens, h, q);
  }

  lemma DistMore(s: State, t: seq<Entry>, root: nat, h: nat, q: nat)
    requires Ok(s) && s.mode.Dist? && TableFor(t, root, s.dlens, Dists) && h < Pow2(q) && Lookup(t, root, h).bits > q
    ensures Step(s, BitsOf(h, q)).Stuck?
  {
    hide StepType, StepStored, StepCopy, StepTable, StepLenLens, StepCodeLens, StepLenExt, StepLen, StepDistExt, StepCopying, Decode,
         TableFor, Lookup, BitsOf, Usable, DBase, DExt;
    LensUsable(s);
    DecodeMore(t, root, s.dlens, Dists, h, q);
  }

  lemma LenExtStep(s: State, len: nat, e: nat, h: nat, q: nat)
    requires s.mode == LenExt(len, e)
    ensures q < e ==> Step(s, BitsOf(h, q)).Stuck?
    ensures q >= e ==> Step(s, BitsOf(h, q)) == Go(s.(mode := Dist(len + Low(h, e)), pos := s.pos + e), e)
  {
    hide StepType, StepStored, StepCopy, StepTable, StepLenLens, StepCodeLens, StepLen, StepDist, StepDistExt, StepCopying, Field, BitsOf,
         Low, Shr;
    if q >= e {
      FieldIs(h, q, 0, e);
      ShrNone(h);
    }
  }

  lemma DistExtStep(s: State, len: nat, off: nat, e: nat, h: nat, q: nat)
    requires s.mode == DistExt(len, off, e)
    ensures q < e ==> Step(s, BitsOf(h, q)).Stuck?
    ensures q >= e ==> Step(s, BitsOf(h, q)) == Go(s.(mode := Mode.Copying(len, off + Low(h, e)), pos := s.pos + e), e)
  {
    hide StepType, StepStored, StepCopy, StepTable, StepLenLens, StepCodeLens, StepLen, StepLenExt, StepDist, StepCopying, Field, BitsOf,
         Low, Shr;
    if q >= e {
      FieldIs(h, q, 0, e);
      ShrNone(h);
    }
  }

  lemma LiteralStep(s: State, b: byte, bits: seq<bool>)
    requires s.mode == Literal(b)
    ensures Step(s, bits) == Go(s.(mode := Len, out := s.out + [b]), 0)
  {
    hide StepType, StepStored, StepCopy, StepTable, StepLenLens, StepCodeLens, StepLen, StepLenExt, StepDist, StepDistExt, StepCopying;
  }

  // ----- CODELENS -----

  /** The bits of the count that follows a code length symbol. */
  function CountBits(val: nat): nat {
    if val == 16 then 2 else if val == 17 then 3 else if val == 18 then 7 else 0
  }

  /** What the CODELENS state makes of symbol e.val, the bits of its count coming next. */
  function CodeLensNext(s: State, e: Entry, h: nat): Next
    requires s.mode.CodeLens?
  {
    var m := s.mode;
    var v := Low(Shr(h, e.bits), CountBits(e.val));
    var used := e.bits + CountBits(e.val);
    if e.val < 16 then Go(s.(mode := CodeLens(m.nlen, m.ndist, m.bl, m.got + [e.val]), pos := s.pos + e.bits), e.bits)
    else if e.val == 16 then
      if m.got == [] then Go(s.(mode := Bad, pos := s.pos + e.bits), e.bits)
      else StepRepeat(s, m.got[|m.got| - 1], 3 + v, used)
    else StepRepeat(s, 0, if e.val == 17 then 3 + v else 11 + v, used)
  }

  lemma CodeLensStep(s: State, t: seq<Entry>, root: nat, h: nat, q: nat)
    requires Ok(s) && s.mode.CodeLens? && |s.mode.got| < s.mode.nlen + s.mode.ndist
    requires TableFor(t, root, s.mode.bl, Codes) && h < Pow2(q)
    ensures var e := Lookup(t, root, h);
            (e.bits + CountBits(e.val) > q ==> Step(s, BitsOf(h, q)).Stuck?) &&
            (e.bits + CountBits(e.val) <= q ==> Step(s, BitsOf(h, q)) == CodeLensNext(s, e, h))
    ensures Lookup(t, root, h).val <= 18
  {
    hide StepType, StepStored, StepCopy, StepTable, StepLenLens, StepLen, StepLenExt, StepDist, StepDistExt, StepCopying, Decode, TableFor,
         Lookup, BitsOf, Field, Usable, Low, Shr, StepRepeat, Acceptable;
    TableShape(t, root, s.mode.bl, Codes);
    var e := Lookup(t, root, h);
    BlUsable(s);
    CodeEntry(t, root, s.mode.bl, h);
    if e.bits > q {
      DecodeMore(t, root, s.mode.bl, Codes, h, q);
    } else {
      DecodeByTable(t, root, s.mode.bl, Codes, h, q);
      var d := Decode(s.mode.bl, BitsOf(h, q));
      if e.bits + CountBits(e.val) <= q {
        FieldIs(h, q, e.bits, CountBits(e.val));
      }
    }
  }

  lemma BlUsable(s: State)
    requires Ok(s) && s.mode.CodeLens?
    ensures Usable(s.mode.bl) && |s.mode.bl| == 19 && ValidLens(s.mode.got) && |s.mode.got| <= s.mode.nlen + s.mode.ndist
    ensures 257 <= s.mode.nlen <= L_CODES && 1 <= s.mode.ndist <= D_CODES
  {}

  lemma CodeEntry(t: seq<Entry>, root: nat, lens: seq<nat>, h: nat)
    requires TableFor(t, root, lens, Codes)
    ensures Lookup(t, root, h).val <= 18
    ensures Lookup(t, root, h) == t[Low(h, root)]
  {
    hide Matches, Acceptable, Pow2;
    if n :| 0 <= n < |lens| && Matches(lens, n, h) {
    } else {
      assert Unmatched(lens, h);
    }
  }

  lemma CodeLensEnd(s: State, nlen: nat, ndist: nat, bl: seq<nat>, got: seq<nat>, bits: seq<bool>)
    requires Ok(s) && s.mode == CodeLens(nlen, ndist, bl, got) && |got| == nlen + ndist
    ensures nlen > 256 && |got| > 256
    ensures Step(s, bits) ==
            if got[256] != 0 && Acceptable(Lens, got[..nlen]) && Acceptable(Dists, got[nlen..]) then
              Go(s.(mode := Len, llens := got[..nlen], dlens := got[nlen..]), 0)
            else Go(s.(mode := Bad), 0)
  {
    hide StepType, StepStored, StepCopy, StepTable, StepLenLens, StepLen, StepLenExt, StepDist, StepDistExt, StepCopying, Decode, Field,
         Usable, Acceptable, StepRepeat;
  }
}
