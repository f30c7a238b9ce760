/**
  The decoder over the three kinds of block: stored, fixed and dynamic (sections 3.2.4 to 3.2.7
  of RFC 1951). Each lemma runs the block states from one block header to the next.
 */
module BlockDecoding {
  import opened Bits
  import opened Canonical
  import opened DecodeTable
  import opened Symbols
  import opened Reference
  import opened Runs
  import opened TokenCoding
  import opened RunCoding
  import opened TreeSending
  import opened Blocks

  /** Between two blocks, the final one not yet seen. */
  ghost predicate Between(s: State) {
    Ok(s) && s.mode == Type && !s.last
  }

  /** After a block of n bits: still between blocks, unless it was the last one. */
  function After(s: State, last: bool, ll: seq<nat>, dl: seq<nat>, n: nat, out: seq<byte>): State {
    State(Type, last, ll, dl, s.pos + n, out)
  }

  function HeaderBits(kind: nat, last: bool): (r: seq<bool>)
    ensures |r| == 3
  {
    BitsOf(2 * kind + Flag(last), 3)
  }

  lemma HeaderIs(kind: nat, last: bool, rest: seq<bool>)
    requires kind <= 2
    ensures var bits := HeaderBits(kind, last) + rest;
            |bits| >= 3 && bits[0] == last && Field(bits, 1, 2) == kind && bits[3..] == rest
  {
    hide Pow2;
    var v := 2 * kind + Flag(last);
    assert v / 2 == kind && v % 2 == Flag(last);
    assert BitsOf(v, 3) == [last] + BitsOf(kind, 2);
    assert HeaderBits(kind, last) + rest == [last] + (BitsOf(kind, 2) + rest);
    Pow2Values();
    FieldAfter([last], kind, 2, rest);
  }

  lemma TypeRun(s: State, kind: nat, last: bool, rest: seq<bool>)
    requires Between(s) && kind <= 2
    ensures var t := s.(last := last, pos := s.pos + 3);
            Reaches(s, HeaderBits(kind, last) + rest,
                    if kind == 0 then t.(mode := Stored)
                    else if kind == 1 then t.(mode := Len, llens := FixedLens(), dlens := FixedDists())
                    else t.(mode := Table), rest)
  {
    hide Ok, Field, HeaderBits, Reaches, FixedLens, FixedDists, Padding;
    HeaderIs(kind, last, rest);
    ReachesStep(s, HeaderBits(kind, last) + rest);
  }

  // ----- stored blocks -----

  /** Header, padding, the length and its complement, the bytes. */
  function StoredBits(pos: nat, last: bool, data: seq<byte>): seq<bool>
    requires |data| <= 0xffff
  {
    HeaderBits(STORED_BLOCK, last) + (BitsOf(0, Padding(pos + 3)) + (LengthsBits(|data|) + BytesBits(data)))
  }

  function LengthsBits(n: nat): (r: seq<bool>)
    requires n <= 0xffff
    ensures |r| == 32
  {
    BitsOf(n, 16) + BitsOf(0xffff - n, 16)
  }

  lemma AlignRun(s: State, rest: seq<bool>)
    requires s.mode == Stored
    ensures var p := Padding(s.pos); Reaches(s, BitsOf(0, p) + rest, s.(pos := s.pos + p), rest)
    ensures Padding(s.pos + Padding(s.pos)) == 0
  {
    hide Reaches, BitsOf;
    var p := Padding(s.pos);
    assert (BitsOf(0, p) + rest)[p..] == rest;
    if p == 0 {
      assert BitsOf(0, p) + rest == rest;
      ReachesSelf(s, rest);
    } else {
      ReachesStep(s, BitsOf(0, p) + rest);
    }
  }

  lemma LengthsRun(s: State, n: nat, rest: seq<bool>)
    requires s.mode == Stored && Padding(s.pos) == 0 && n <= 0xffff
    ensures Reaches(s, LengthsBits(n) + rest, s.(mode := Copy(n), pos := s.pos + 32), rest)
  {
    hide Reaches, BitsOf, Field, Padding, StepType, StepCopy, StepTable, StepLenLens, StepCodeLens, StepLen, StepDist, StepLenExt, StepDistExt, StepCopying;
    var bits := LengthsBits(n) + rest;
    Pow2Values();
    assert bits == BitsOf(n, 16) + (BitsOf(0xffff - n, 16) + rest);
    FieldAtFront(n, 16, BitsOf(0xffff - n, 16) + rest);
    FieldAfter(BitsOf(n, 16), 0xffff - n, 16, rest);
    assert bits[32..] == rest;
    ReachesStep(s, bits);
  }

  lemma CopyByte(s: State, b: byte, n: nat, rest: seq<bool>)
    requires s.mode == Copy(n + 1)
    ensures Step(s, BitsOf(b, 8) + rest) == Go(s.(mode := Copy(n), pos := s.pos + 8, out := s.out + [b]), 8)
    ensures (BitsOf(b, 8) + rest)[8..] == rest
  {
    hide BitsOf, Field, StepType, StepStored, StepTable, StepLenLens, StepCodeLens, StepLen, StepDist, StepLenExt, StepDistExt, StepCopying;
    Pow2Values();
    FieldAtFront(b, 8, rest);
  }

  lemma {:induction false} CopyBytesRun(s: State, data: seq<byte>, rest: seq<bool>)
    requires s.mode == Copy(|data|)
    ensures Reaches(s, BytesBits(data) + rest,
                    s.(mode := Type, pos := s.pos + 8 * |data|, out := s.out + data), rest)
    decreases |data|
  {
    hide Reaches, BitsOf, BytesBits, Field, StepType, StepStored, StepTable, StepLenLens, StepCodeLens, StepLen, StepDist;
    if data == [] {
      BytesBitsNone();
      assert BytesBits(data) + rest == rest && s.out + data == s.out && rest[0..] == rest;
      ReachesStep(s, rest);
    } else {
      BytesBitsHead(data);
      var tail := BytesBits(data[1..]) + rest;
      assert BytesBits(data) + rest == BitsOf(data[0], 8) + tail;
      CopyByte(s, data[0], |data| - 1, tail);
      ReachesStep(s, BitsOf(data[0], 8) + tail);
      var t := s.(mode := Copy(|data| - 1), pos := s.pos + 8, out := s.out + [data[0]]);
      CopyBytesRun(t, data[1..], rest);
      assert s.out + [data[0]] + data[1..] == s.out + data;
      ReachesTrans(s, BitsOf(data[0], 8) + tail, t, tail,
                   s.(mode := Type, pos := s.pos + 8 * |data|, out := s.out + data), rest);
    }
  }

  /** A stored block decodes to its bytes. */
  lemma StoredRun(s: State, last: bool, data: seq<byte>, rest: seq<bool>)
    requires Between(s) && |data| <= 0xffff
    ensures var bits := StoredBits(s.pos, last, data);
            Reaches(s, bits + rest, After(s, last, s.llens, s.dlens, |bits|, s.out + data), rest)
  {
    hide Reaches, BitsOf, BytesBits, LengthsBits, Padding, HeaderBits, Ok;
    var p := Padding(s.pos + 3);
    var header, pad, lengths, bytes := HeaderBits(STORED_BLOCK, last), BitsOf(0, p), LengthsBits(|data|), BytesBits(data);
    var bits := StoredBits(s.pos, last, data);
    var x3 := bytes + rest;
    var x2 := lengths + x3;
    var x1 := pad + x2;
    assert bits + rest == header + x1;
    TypeRun(s, STORED_BLOCK, last, x1);
    var s1 := s.(mode := Stored, last := last, pos := s.pos + 3);
    AlignRun(s1, x2);
    var s2 := s1.(pos := s1.pos + p);
    LengthsRun(s2, |data|, x3);
    var s3 := s2.(mode := Copy(|data|), pos := s2.pos + 32);
    CopyBytesRun(s3, data, rest);
    var s4 := After(s, last, s.llens, s.dlens, |bits|, s.out + data);
    ReachesTrans(s2, x2, s3, x3, s4, rest);
    ReachesTrans(s1, x1, s2, x2, s4, rest);
    ReachesTrans(s, header + x1, s1, x1, s4, rest);
  }

  // ----- fixed blocks -----

  function FixedBits(last: bool, tokens: seq<Token>): seq<bool>
    requires ValidTokens(tokens)
  {
    HeaderBits(STATIC_TREES, last) + BodyBits(FixedLens(), FixedDists(), tokens)
  }

  lemma FixedHas(n: nat)
    ensures n < 288 ==> HasCode(FixedLens(), n)
    ensures n < 30 ==> HasCode(FixedDists(), n)
  {}

  lemma FixedCodable(tokens: seq<Token>)
    requires ValidTokens(tokens)
    ensures AllCodable(FixedLens(), FixedDists(), tokens)
  {
    hide FixedLens, FixedDists, LengthCode, DistCode;
    FixedHas(END_BLOCK);
    forall i | 0 <= i < |tokens| ensures Codable(FixedLens(), FixedDists(), tokens[i]) {
      var t := tokens[i];
      FixedHas(LitSymbol(t));
      if t.Match? {
        FixedHas(DistCode(t.dist - 1));
      }
    }
  }

  /** A fixed block decodes to what its tokens mean. */
  lemma FixedRun(s: State, last: bool, tokens: seq<Token>, rest: seq<bool>)
    requires Between(s) && ValidTokens(tokens) && AllFitting(s.out, tokens)
    ensures var bits := FixedBits(last, tokens);
            Reaches(s, bits + rest, After(s, last, FixedLens(), FixedDists(), |bits|, Expand(s.out, tokens)), rest)
  {
    hide Reaches, HeaderBits, BodyBits, FixedLens, FixedDists, Usable;
    var header, body := HeaderBits(STATIC_TREES, last), BodyBits(FixedLens(), FixedDists(), tokens);
    assert header + body + rest == header + (body + rest);
    TypeRun(s, STATIC_TREES, last, body + rest);
    var t := s.(mode := Len, last := last, pos := s.pos + 3, llens := FixedLens(), dlens := FixedDists());
    FixedComplete();
    FixedSizes();
    FixedCodable(tokens);
    BodyRun(t, tokens, rest);
    ReachesTrans(s, header + (body + rest), t, body + rest,
                 After(s, last, FixedLens(), FixedDists(), |header + body|, Expand(s.out, tokens)), rest);
  }

  // ----- dynamic blocks -----

  /** What the decoder asks of the three codes of a dynamic block. */
  ghost predicate Decodable(ll: seq<nat>, dl: seq<nat>, bl: seq<nat>, blcodes: nat) {
    && Sendable3(ll, dl, bl, blcodes)
    && Acceptable(Codes, bl) && Acceptable(Lens, ll) && Acceptable(Dists, dl)
    && HasCode(ll, END_BLOCK)
  }

  function DynBits(last: bool, ll: seq<nat>, dl: seq<nat>, bl: seq<nat>, blcodes: nat, tokens: seq<Token>): seq<bool>
    requires 257 <= |ll| && 1 <= |dl| && 4 <= blcodes <= BL_CODES && |bl| == BL_CODES
    requires ValidOps(Ops(ll)) && ValidOps(Ops(dl)) && ValidTokens(tokens)
  {
    HeaderBits(DYN_TREES, last) + (TreesBits(ll, dl, bl, blcodes) + BodyBits(ll, dl, tokens))
  }

  lemma CountsRun(s: State, nlen: nat, ndist: nat, ncode: nat, rest: seq<bool>)
    requires s.mode == Table && 257 <= nlen <= L_CODES && 1 <= ndist <= D_CODES && 4 <= ncode <= 19
    ensures Reaches(s, CountsBits(nlen, ndist, ncode) + rest,
                    s.(mode := LenLens(nlen, ndist, ncode, []), pos := s.pos + 14), rest)
  {
    hide Reaches, BitsOf, Field, StepType, StepStored, StepCopy, StepLenLens, StepCodeLens, StepLen, StepDist, StepLenExt, StepDistExt, StepCopying;
    var a, b, c := BitsOf(nlen - 257, 5), BitsOf(ndist - 1, 5), BitsOf(ncode - 4, 4);
    var bits := CountsBits(nlen, ndist, ncode) + rest;
    Pow2Values();
    assert bits == a + (b + (c + rest)) && bits == (a + b) + (c + rest);
    FieldAtFront(nlen - 257, 5, b + (c + rest));
    FieldAfter(a, ndist - 1, 5, c + rest);
    FieldAfter(a + b, ncode - 4, 4, rest);
    assert bits[14..] == rest;
    ReachesStep(s, bits);
  }

  /** The encoder's table and the decoder's are the same. */
  lemma OrdersAgree()
    ensures BlOrder() == Order()
  {}

  /** The first n lengths of the code length code in the order they are sent. */
  function InOrder(bl: seq<nat>, n: nat): (r: seq<nat>)
    requires |bl| == BL_CODES && n <= 19
    ensures |r| == n && forall i :: 0 <= i < n ==> r[i] == bl[Order()[i]]
  {
    if n == 0 then [] else InOrder(bl, n - 1) + [bl[Order()[n - 1]]]
  }

  lemma BlLensLast(bl: seq<nat>, n: nat, rest: seq<bool>)
    requires |bl| == BL_CODES && n <= 19
    ensures BlLensBits(bl, n) + rest == if n == 0 then rest else BlLensBits(bl, n - 1) + (BitsOf(bl[Order()[n - 1]], 3) + rest)
  {
    hide BitsOf, Order, BlOrder;
    OrdersAgree();
  }

  lemma {:induction false} LenLensRun(s: State, nlen: nat, ndist: nat, ncode: nat, bl: seq<nat>, n: nat, rest: seq<bool>)
    requires s.mode == LenLens(nlen, ndist, ncode, []) && n <= ncode <= 19
    requires |bl| == BL_CODES && forall i :: 0 <= i < BL_CODES ==> bl[i] <= 7
    ensures Reaches(s, BlLensBits(bl, n) + rest,
                    s.(mode := LenLens(nlen, ndist, ncode, InOrder(bl, n)), pos := s.pos + 3 * n), rest)
    decreases n
  {
    hide Reaches, BitsOf, Field, StepType, StepStored, StepCopy, StepTable, StepCodeLens, StepLen, StepDist, Unpermute, Acceptable, Order, BlLensBits;
    BlLensLast(bl, n, rest);
    if n == 0 {
      ReachesSelf(s, rest);
    } else {
      var v := bl[Order()[n - 1]];
      var tail := BitsOf(v, 3) + rest;
      LenLensRun(s, nlen, ndist, ncode, bl, n - 1, tail);
      var t := s.(mode := LenLens(nlen, ndist, ncode, InOrder(bl, n - 1)), pos := s.pos + 3 * (n - 1));
      Pow2Values();
      FieldAtFront(v, 3, rest);
      ReachesStep(t, tail);
      ReachesTrans(s, BlLensBits(bl, n) + rest, t, tail,
                   s.(mode := LenLens(nlen, ndist, ncode, InOrder(bl, n)), pos := s.pos + 3 * n), rest);
    }
  }

  /** The permutation is undone, lengths not sent being zero. */
  lemma UnpermuteInOrder(bl: seq<nat>, n: nat)
    requires |bl| == BL_CODES && n <= 19 && forall r :: n <= r < 19 ==> bl[Order()[r]] == 0
    ensures Unpermute(InOrder(bl, n)) == bl
  {
    hide Order, Place;
    forall k: nat | k < 19 ensures Unpermute(InOrder(bl, n))[k] == bl[k] {
      OrderPlace();
    }
  }

  lemma LengthsToCodes(s: State, bl: seq<nat>, nlen: nat, ndist: nat, ncode: nat, rest: seq<bool>)
    requires |bl| == BL_CODES && ncode <= 19 && s.mode == LenLens(nlen, ndist, ncode, InOrder(bl, ncode))
    requires (forall r :: ncode <= r < 19 ==> bl[Order()[r]] == 0) && Acceptable(Codes, bl)
    ensures Reaches(s, rest, s.(mode := CodeLens(nlen, ndist, bl, [])), rest)
  {
    hide Reaches, Acceptable, Unpermute, InOrder, StepType, StepStored, StepCopy, StepTable, StepCodeLens, StepLen, StepDist, StepLenExt, StepDistExt, StepCopying;
    UnpermuteInOrder(bl, ncode);
    assert rest[0..] == rest;
    ReachesStep(s, rest);
  }

  lemma CodesToBody(s: State, ll: seq<nat>, dl: seq<nat>, bl: seq<nat>, rest: seq<bool>)
    requires s.mode == CodeLens(|ll|, |dl|, bl, ll + dl) && 257 <= |ll| && HasCode(ll, END_BLOCK)
    requires Acceptable(Lens, ll) && Acceptable(Dists, dl)
    ensures Reaches(s, rest, s.(mode := Len, llens := ll, dlens := dl), rest)
  {
    hide Reaches, Acceptable, Decode, Field, StepType, StepStored, StepCopy, StepTable, StepLenLens, StepLen, StepDist, StepLenExt, StepDistExt, StepCopying;
    assert (ll + dl)[..|ll|] == ll && (ll + dl)[|ll|..] == dl;
    assert rest[0..] == rest;
    ReachesStep(s, rest);
  }

  /** The two length arrays, sent as runs, are read back. */
  lemma ArraysRun(s: State, ll: seq<nat>, dl: seq<nat>, bl: seq<nat>, rest: seq<bool>)
    requires Ok(s) && s.mode == CodeLens(|ll|, |dl|, bl, []) && ValidLens(ll) && ValidLens(dl)
    requires Sendable(bl, Ops(ll)) && Sendable(bl, Ops(dl))
    ensures var bits := OpsBits(bl, Ops(ll)) + OpsBits(bl, Ops(dl));
            Reaches(s, bits + rest, s.(mode := CodeLens(|ll|, |dl|, bl, ll + dl), pos := s.pos + |bits|), rest)
  {
    hide Reaches, OpsBits, Ops, SymbolOf, ValidOp, Performable, PerformAll, Usable;
    var a, b := OpsBits(bl, Ops(ll)), OpsBits(bl, Ops(dl));
    assert a + b + rest == a + (b + rest);
    OpsRoundTrip([], ll);
    OpsRoundTrip(ll, dl);
    assert [] + ll == ll;
    OpsRun(s, Ops(ll), b + rest);
    var t := With(s, ll, |a|);
    OpsRun(t, Ops(dl), rest);
    ReachesTrans(s, a + (b + rest), t, b + rest, With(t, ll + dl, |b|), rest);
  }

  /** The description of the trees is read back. */
  lemma TreesRun(s: State, ll: seq<nat>, dl: seq<nat>, bl: seq<nat>, blcodes: nat, rest: seq<bool>)
    requires Ok(s) && s.mode == Table && Decodable(ll, dl, bl, blcodes)
    ensures var bits := TreesBits(ll, dl, bl, blcodes);
            Reaches(s, bits + rest, s.(mode := Len, llens := ll, dlens := dl, pos := s.pos + |bits|), rest)
  {
    hide Reaches, CountsBits, BlLensBits, OpsBits, Ops, SymbolOf, Acceptable, Usable, ValidOp, Order;
    var bits := TreesBits(ll, dl, bl, blcodes);
    var counts, lens, ops := CountsBits(|ll|, |dl|, blcodes), BlLensBits(bl, blcodes), OpsBits(bl, Ops(ll)) + OpsBits(bl, Ops(dl));
    var x2 := ops + rest;
    var x1 := lens + x2;
    OrdersAgree();
    TreesBitsSplit(ll, dl, bl, blcodes, rest);
    CountsRun(s, |ll|, |dl|, blcodes, x1);
    var s1 := s.(mode := LenLens(|ll|, |dl|, blcodes, []), pos := s.pos + 14);
    LenLensRun(s1, |ll|, |dl|, blcodes, bl, blcodes, x2);
    var s2 := s1.(mode := LenLens(|ll|, |dl|, blcodes, InOrder(bl, blcodes)), pos := s1.pos + 3 * blcodes);
    LengthsToCodes(s2, bl, |ll|, |dl|, blcodes, x2);
    var s3 := s2.(mode := CodeLens(|ll|, |dl|, bl, []));
    CodesOk(s, s3, ll, dl, bl);
    ArraysRun(s3, ll, dl, bl, rest);
    var s4 := s3.(mode := CodeLens(|ll|, |dl|, bl, ll + dl), pos := s3.pos + |ops|);
    CodesToBody(s4, ll, dl, bl, rest);
    var s5 := s.(mode := Len, llens := ll, dlens := dl, pos := s.pos + |bits|);
    ReachesTrans(s3, x2, s4, rest, s5, rest);
    ReachesTrans(s2, x2, s3, x2, s5, rest);
    ReachesTrans(s1, x1, s2, x2, s5, rest);
    ReachesTrans(s, counts + x1, s1, x1, s5, rest);
  }

  lemma TreesBitsSplit(ll: seq<nat>, dl: seq<nat>, bl: seq<nat>, blcodes: nat, rest: seq<bool>)
    requires 257 <= |ll| && 1 <= |dl| && 4 <= blcodes <= BL_CODES && |bl| == BL_CODES
    requires ValidOps(Ops(ll)) && ValidOps(Ops(dl))
    ensures var ops := OpsBits(bl, Ops(ll)) + OpsBits(bl, Ops(dl));
            TreesBits(ll, dl, bl, blcodes) + rest ==
              CountsBits(|ll|, |dl|, blcodes) + (BlLensBits(bl, blcodes) + (ops + rest)) &&
            |TreesBits(ll, dl, bl, blcodes)| == 14 + 3 * blcodes + |ops|
  {
    hide OpsBits, Ops, BitsOf, ValidOp;
    BlLensSize(bl, blcodes);
  }

  lemma {:induction false} BlLensSize(bl: seq<nat>, n: nat)
    requires |bl| == BL_CODES && n <= BL_CODES
    ensures |BlLensBits(bl, n)| == 3 * n
  {
    if n > 0 {
      BlLensSize(bl, n - 1);
    }
  }

  lemma CodesOk(s: State, t: State, ll: seq<nat>, dl: seq<nat>, bl: seq<nat>)
    requires Ok(s) && t == s.(mode := CodeLens(|ll|, |dl|, bl, []), pos := t.pos)
    requires 257 <= |ll| <= L_CODES && 1 <= |dl| <= D_CODES && |bl| == BL_CODES
    requires (forall i :: 0 <= i < BL_CODES ==> bl[i] <= 7) && Acceptable(Codes, bl)
    ensures Ok(t)
  {
    hide Acceptable, Usable;
    assert ValidLens(bl);
    AcceptableUsable(Codes, bl);
  }

  /** A dynamic block decodes to what its tokens mean. */
  lemma DynRun(s: State, last: bool, ll: seq<nat>, dl: seq<nat>, bl: seq<nat>, blcodes: nat,
               tokens: seq<Token>, rest: seq<bool>)
    requires Between(s) && Decodable(ll, dl, bl, blcodes)
    requires ValidTokens(tokens) && AllFitting(s.out, tokens) && AllCodable(ll, dl, tokens)
    ensures var bits := DynBits(last, ll, dl, bl, blcodes, tokens);
            Reaches(s, bits + rest, After(s, last, ll, dl, |bits|, Expand(s.out, tokens)), rest)
  {
    hide Reaches, HeaderBits, TreesBits, BodyBits, Ops, SymbolOf, ValidOp, Acceptable, Usable, Order;
    var header, trees, body := HeaderBits(DYN_TREES, last), TreesBits(ll, dl, bl, blcodes), BodyBits(ll, dl, tokens);
    var bits := DynBits(last, ll, dl, bl, blcodes, tokens);
    assert bits + rest == header + (trees + (body + rest));
    TypeRun(s, DYN_TREES, last, trees + (body + rest));
    var s1 := s.(mode := Table, last := last, pos := s.pos + 3);
    TreesRun(s1, ll, dl, bl, blcodes, body + rest);
    var s2 := s1.(mode := Len, llens := ll, dlens := dl, pos := s1.pos + |trees|);
    AcceptableUsable(Lens, ll);
    AcceptableUsable(Dists, dl);
    BodyRun(s2, tokens, rest);
    var s3 := After(s, last, ll, dl, |bits|, Expand(s.out, tokens));
    ReachesTrans(s1, trees + (body + rest), s2, body + rest, s3, rest);
    ReachesTrans(s, header + (trees + (body + rest)), s1, trees + (body + rest), s3, rest);
  }
}
