/**
  The body of a compressed block: the bits that stand for a list of tokens under two codes, and
  the proof that the decoder reads the tokens back and performs them.
 */
module TokenCoding {
  import opened Bits
  import opened Canonical
  import opened DecodeTable
  import opened Symbols
  import opened Reference
  import opened Runs

  /** The bits of a symbol's code, as sent. */
  function Code(lens: seq<nat>, n: nat): (s: seq<bool>)
    ensures n < |lens| ==> |s| == lens[n]
  {
    if n < |lens| then BitsOf(Huff(lens, n), lens[n]) else []
  }

  /** Literal symbols and length symbols share one alphabet. */
  function LitSymbol(t: Token): nat
    requires ValidToken(t)
  {
    if t.Lit? then t.b else LITERALS + 1 + LengthCode(t.len - MIN_MATCH)
  }

  /** Length symbol, extra length bits, distance symbol, extra distance bits. */
  function MatchBits(ll: seq<nat>, dl: seq<nat>, len: nat, dist: nat): seq<bool>
    requires MIN_MATCH <= len <= MAX_MATCH && 1 <= dist <= MAX_DISTANCE
  {
    LengthBits(ll, len) + DistanceBits(dl, dist)
  }

  function LengthBits(ll: seq<nat>, len: nat): seq<bool>
    requires MIN_MATCH <= len <= MAX_MATCH
  {
    var lc := len - MIN_MATCH;
    var c := LengthCode(lc);
    Code(ll, LITERALS + 1 + c) + BitsOf(if ExtraLBits()[c] == 0 then 0 else lc - LengthBase(lc), ExtraLBits()[c])
  }

  function DistanceBits(dl: seq<nat>, dist: nat): seq<bool>
    requires 1 <= dist <= MAX_DISTANCE
  {
    var c := DistCode(dist - 1);
    Code(dl, c) + BitsOf(dist - 1 - DistBase(dist - 1), ExtraDBits()[c])
  }

  /** The first value that shares lc's code. */
  function LengthBase(lc: nat): (b: nat)
    requires lc <= MAX_MATCH - MIN_MATCH
    ensures b <= lc
  {
    if lc == 255 then 0 else (LengthInRange(lc); BaseLength(LengthCode(lc)))
  }

  function DistBase(d: nat): (b: nat)
    requires d < MAX_DISTANCE
    ensures b <= d
  {
    DistInRange(d);
    BaseDist(DistCode(d))
  }

  lemma LengthInRange(lc: nat)
    requires lc < 255
    ensures var c := LengthCode(lc); c < 28 && BaseLength(c) <= lc < BaseLength(c) + Pow2(ExtraLBits()[c])
  {
    hide FirstValue, Pow2;
    LengthBases();
    FirstZero(ExtraLBits());
    LastLength();
    CodeForRange(ExtraLBits(), 0, lc);
  }

  lemma LastLength()
    ensures FirstValue(ExtraLBits(), 29) == FirstValue(ExtraLBits(), 28) + 1
  {}

  lemma DistInRange(d: nat)
    requires d < MAX_DISTANCE
    ensures var c := DistCode(d); BaseDist(c) <= d < BaseDist(c) + Pow2(ExtraDBits()[c])
  {
    hide FirstValue, Pow2;
    FirstZero(ExtraDBits());
    AllDistances();
    CodeForRange(ExtraDBits(), 0, d);
  }

  function TokenBits(ll: seq<nat>, dl: seq<nat>, t: Token): seq<bool>
    requires ValidToken(t)
  {
    if t.Lit? then Code(ll, t.b) else MatchBits(ll, dl, t.len, t.dist)
  }

  predicate ValidTokens(tokens: seq<Token>) {
    forall i :: 0 <= i < |tokens| ==> ValidToken(tokens[i])
  }

  function TokensBits(ll: seq<nat>, dl: seq<nat>, tokens: seq<Token>): seq<bool>
    requires ValidTokens(tokens)
  {
    if tokens == [] then [] else TokensBits(ll, dl, tokens[..|tokens| - 1]) + TokenBits(ll, dl, tokens[|tokens| - 1])
  }

  /** The tokens followed by the end-of-block symbol. */
  function BodyBits(ll: seq<nat>, dl: seq<nat>, tokens: seq<Token>): seq<bool>
    requires ValidTokens(tokens)
  {
    TokensBits(ll, dl, tokens) + Code(ll, END_BLOCK)
  }

  predicate HasCode(lens: seq<nat>, n: nat) {
    n < |lens| && lens[n] != 0
  }

  /** Every symbol the token needs has a code. */
  predicate Codable(ll: seq<nat>, dl: seq<nat>, t: Token)
    requires ValidToken(t)
  {
    HasCode(ll, LitSymbol(t)) && (t.Match? ==> HasCode(dl, DistCode(t.dist - 1)))
  }

  // ----- reading a code -----

  /** What is sent for symbol n is what the decoder takes for symbol n, and no more. */
  lemma CodeBegins(lens: seq<nat>, n: nat, rest: seq<bool>)
    requires Usable(lens) && n < |lens| && lens[n] != 0
    ensures Begins(lens, n, Code(lens, n) + rest)
    ensures Decode(lens, Code(lens, n) + rest) == Symbol(n)
  {
    hide Huff, Fits;
    var s := Code(lens, n) + rest;
    HuffAtStart(lens, n);
    ValueOfBitsOf(Huff(lens, n), lens[n]);
    LowSmall(Huff(lens, n), lens[n]);
    PrefixValue(Code(lens, n), rest);
    DecodeFound(lens, n, s);
  }

  lemma FieldAtFront(v: nat, n: nat, rest: seq<bool>)
    requires v < Pow2(n)
    ensures Field(BitsOf(v, n) + rest, 0, n) == v
    ensures (BitsOf(v, n) + rest)[n..] == rest
  {
    assert (BitsOf(v, n) + rest)[0..0 + n] == BitsOf(v, n);
    ValueOfBitsOf(v, n);
    LowSmall(v, n);
  }

  // ----- one token -----

  ghost predicate AtLen(s: State) {
    Ok(s) && s.mode == Len
  }

  lemma OkCodes(s: State)
    requires Ok(s)
    ensures Usable(s.llens) && Usable(s.dlens)
  {}

  /** Performing a match copies its bytes one by one. */
  lemma {:induction false} CopyRun(s: State, len: nat, dist: nat, bits: seq<bool>)
    requires s.mode == Copying(len, dist) && 1 <= len && 1 <= dist <= |s.out|
    ensures Reaches(s, bits, s.(mode := Len, out := CopyMatch(s.out, len, dist)), bits)
    decreases len
  {
    hide StepType, StepStored, StepCopy, StepTable, StepLenLens, StepCodeLens, StepRepeat, Ok, StepLen, StepLenExt, StepDist, StepDistExt, Reaches;
    var t := s.(out := s.out + [s.out[|s.out| - dist]]);
    var u := t.(mode := if len == 1 then Len else Copying(len - 1, dist));
    assert Step(s, bits) == Go(u, 0) && bits[0..] == bits;
    ReachesStep(s, bits);
    if len > 1 {
      CopyRun(u, len - 1, dist, bits);
      ReachesTrans(s, bits, u, bits, u.(mode := Len, out := CopyMatch(u.out, len - 1, dist)), bits);
    } else {
      assert CopyMatch(u.out, 0, dist) == u.out;
    }
  }

  lemma LiteralRun(s: State, b: byte, rest: seq<bool>)
    requires AtLen(s) && HasCode(s.llens, b)
    ensures var bits := Code(s.llens, b);
            Reaches(s, bits + rest, s.(pos := s.pos + |bits|, out := s.out + [b]), rest)
  {
    hide StepType, StepStored, StepCopy, StepTable, StepLenLens, StepCodeLens, StepRepeat, Ok, StepDist, StepDistExt, StepCopying, Reaches, Code, Decode, LBase, LExt;
    OkCodes(s);
    var bits := Code(s.llens, b);
    CodeBegins(s.llens, b, rest);
    var t := s.(pos := s.pos + |bits|, mode := Literal(b));
    assert (bits + rest)[|bits|..] == rest;
    assert Step(s, bits + rest) == Go(t, |bits|);
    ReachesStep(s, bits + rest);
    assert Step(t, rest).Go? && rest[0..] == rest;
    ReachesStep(t, rest);
    ReachesTrans(s, bits + rest, t, rest, s.(pos := s.pos + |bits|, out := s.out + [b]), rest);
  }

  lemma LengthSymbolRun(s: State, c: nat, rest: seq<bool>)
    requires AtLen(s) && c <= 28 && HasCode(s.llens, LITERALS + 1 + c)
    ensures var code := Code(s.llens, LITERALS + 1 + c);
            Reaches(s, code + rest, s.(mode := LenExt(LBase()[c], ExtraLBits()[c]), pos := s.pos + |code|), rest)
  {
    hide Ok, StepType, StepStored, StepCopy, StepTable, StepLenLens, StepCodeLens, StepLenExt, StepDist, StepDistExt,
         StepCopying, Reaches, Code, Decode, LBase, LExt, ExtraLBits;
    OkCodes(s);
    var code := Code(s.llens, LITERALS + 1 + c);
    LengthEntry(c);
    CodeBegins(s.llens, LITERALS + 1 + c, rest);
    assert (code + rest)[|code|..] == rest;
    ReachesStep(s, code + rest);
  }

  lemma ExtraLengthRun(s: State, base: nat, e: nat, v: nat, rest: seq<bool>)
    requires s.mode == LenExt(base, e) && v < Pow2(e)
    ensures Reaches(s, BitsOf(v, e) + rest, s.(mode := Dist(base + v), pos := s.pos + e), rest)
  {
    hide Reaches, BitsOf, Field;
    FieldAtFront(v, e, rest);
    ReachesStep(s, BitsOf(v, e) + rest);
  }

  /** The length symbol and its extra bits. */
  lemma LengthRun(s: State, len: nat, rest: seq<bool>)
    requires AtLen(s) && MIN_MATCH <= len <= MAX_MATCH
    requires HasCode(s.llens, LITERALS + 1 + LengthCode(len - MIN_MATCH))
    ensures var bits := LengthBits(s.llens, len);
            Reaches(s, bits + rest, s.(mode := Dist(len), pos := s.pos + |bits|), rest)
  {
    hide Ok, Reaches, Code, LBase, ExtraLBits, LengthCode, LengthBase, BitsOf;
    var lc := len - MIN_MATCH;
    var c := LengthCode(lc);
    var e := ExtraLBits()[c];
    var v := if e == 0 then 0 else lc - LengthBase(lc);
    var code, extra := Code(s.llens, LITERALS + 1 + c), BitsOf(v, e);
    LengthValue(len);
    LengthSymbolRun(s, c, extra + rest);
    var t := s.(mode := LenExt(LBase()[c], e), pos := s.pos + |code|);
    ExtraLengthRun(t, LBase()[c], e, v, rest);
    assert LengthBits(s.llens, len) + rest == code + (extra + rest);
    ReachesTrans(s, code + (extra + rest), t, extra + rest, s.(mode := Dist(len), pos := s.pos + |code| + e), rest);
  }

  /** Base plus extra bits gives the length back. */
  lemma LengthValue(len: nat)
    requires MIN_MATCH <= len <= MAX_MATCH
    ensures var lc := len - MIN_MATCH; var c := LengthCode(lc); var e := ExtraLBits()[c];
            var v := if e == 0 then 0 else lc - LengthBase(lc);
            LBase()[c] + v == len && v < Pow2(e)
  {
    var lc := len - MIN_MATCH;
    if lc == 255 {
      assert ExtraLBits()[28] == 0 && LBase()[28] == 258;
    } else {
      hide LBase, ExtraLBits, FirstValue, CodeFor, Pow2;
      LengthInRange(lc);
      LengthBaseAgrees(LengthCode(lc));
    }
  }

  /** The distance symbol and its extra bits. */
  lemma DistanceRun(s: State, len: nat, dist: nat, rest: seq<bool>)
    requires Ok(s) && s.mode == Dist(len) && 1 <= dist <= MAX_DISTANCE
    requires HasCode(s.dlens, DistCode(dist - 1))
    ensures var bits := DistanceBits(s.dlens, dist);
            Reaches(s, bits + rest, s.(mode := Copying(len, dist), pos := s.pos + |bits|), rest)
  {
    hide StepType, StepStored, StepCopy, StepTable, StepLenLens, StepCodeLens, StepRepeat, Ok, StepLen, StepLenExt, StepCopying, Reaches, Code, Decode, DBase, DExt, ExtraDBits, DistCode, DistBase, BitsOf;
    var c := DistCode(dist - 1);
    var e := ExtraDBits()[c];
    var v := dist - 1 - DistBase(dist - 1);
    OkCodes(s);
    var code, extra := Code(s.dlens, c), BitsOf(v, e);
    DistValue(dist);
    DistEntry(c);
    CodeBegins(s.dlens, c, extra + rest);
    var t := s.(mode := DistExt(len, DBase()[c], e), pos := s.pos + |code|);
    assert DistanceBits(s.dlens, dist) + rest == code + (extra + rest);
    assert (code + (extra + rest))[|code|..] == extra + rest;
    assert Step(s, code + (extra + rest)) == Go(t, |code|);
    ReachesStep(s, code + (extra + rest));
    FieldAtFront(v, e, rest);
    var u := s.(mode := Copying(len, dist), pos := s.pos + |code| + e);
    assert Step(t, extra + rest) == Go(u, e);
    ReachesStep(t, extra + rest);
    ReachesTrans(s, code + (extra + rest), t, extra + rest, u, rest);
  }

  lemma DistValue(dist: nat)
    requires 1 <= dist <= MAX_DISTANCE
    ensures var c := DistCode(dist - 1); var v := dist - 1 - DistBase(dist - 1);
            DBase()[c] + v == dist && v < Pow2(ExtraDBits()[c])
  {
    hide DBase, ExtraDBits, FirstValue, CodeFor, Pow2;
    DistInRange(dist - 1);
    DistBaseAgrees(DistCode(dist - 1));
  }

  /** The decoder reads a token back and performs it. */
  lemma TokenRun(s: State, t: Token, rest: seq<bool>)
    requires AtLen(s) && Fitting(s.out, t) && Codable(s.llens, s.dlens, t)
    ensures var bits := TokenBits(s.llens, s.dlens, t);
            Reaches(s, bits + rest, s.(pos := s.pos + |bits|, out := Apply(s.out, t)), rest)
  {
    hide Reaches, Usable, Code, LengthBits, DistanceBits, CopyMatch, LengthCode, DistCode;
    if t.Lit? {
      LiteralRun(s, t.b, rest);
    } else {
      var a, b := LengthBits(s.llens, t.len), DistanceBits(s.dlens, t.dist);
      assert a + b + rest == a + (b + rest);
      LengthRun(s, t.len, b + rest);
      var s1 := s.(mode := Dist(t.len), pos := s.pos + |a|);
      DistanceRun(s1, t.len, t.dist, rest);
      var s2 := s1.(mode := Copying(t.len, t.dist), pos := s1.pos + |b|);
      CopyRun(s2, t.len, t.dist, rest);
      var s3 := s2.(mode := Len, out := CopyMatch(s2.out, t.len, t.dist));
      ReachesTrans(s, a + (b + rest), s1, b + rest, s2, rest);
      ReachesTrans(s, a + (b + rest), s2, rest, s3, rest);
    }
  }

  // ----- a whole block body -----

  lemma {:induction false} FittingInit(out: seq<byte>, tokens: seq<Token>)
    requires tokens != [] && AllFitting(out, tokens)
    ensures var init, t := tokens[..|tokens| - 1], tokens[|tokens| - 1];
            AllFitting(out, init) && Fitting(Expand(out, init), t) &&
            Expand(out, tokens) == Apply(Expand(out, init), t)
    decreases |tokens|
  {
    var k := |tokens| - 1;
    if k == 0 {
      assert tokens[..0] == [] && tokens[1..] == [];
    } else {
      FittingInit(Apply(out, tokens[0]), tokens[1..]);
      assert tokens[1..][..k - 1] == tokens[..k][1..];
    }
  }

  lemma {:induction false} TokensRun(s: State, tokens: seq<Token>, rest: seq<bool>)
    requires AtLen(s) && AllFitting(s.out, tokens) && ValidTokens(tokens)
    requires forall i :: 0 <= i < |tokens| ==> Codable(s.llens, s.dlens, tokens[i])
    ensures var bits := TokensBits(s.llens, s.dlens, tokens);
            Reaches(s, bits + rest, s.(pos := s.pos + |bits|, out := Expand(s.out, tokens)), rest)
    decreases |tokens|
  {
    hide Reaches, TokenBits, Codable, Ok, Fitting, Apply;
    if tokens == [] {
      assert [] + rest == rest;
      ReachesSelf(s, rest);
    } else {
      var k := |tokens| - 1;
      var init, t := tokens[..k], tokens[k];
      var a, b := TokensBits(s.llens, s.dlens, init), TokenBits(s.llens, s.dlens, t);
      FittingInit(s.out, tokens);
      assert a + b + rest == a + (b + rest);
      TokensRun(s, init, b + rest);
      var u := s.(pos := s.pos + |a|, out := Expand(s.out, init));
      SameCodesOk(s, u);
      TokenRun(u, t, rest);
      ReachesTrans(s, a + (b + rest), u, b + rest,
                   s.(pos := s.pos + |a| + |b|, out := Expand(s.out, tokens)), rest);
    }
  }

  lemma SameCodesOk(s: State, u: State)
    requires Ok(s) && s.mode == Len && u == s.(pos := u.pos, out := u.out)
    ensures Ok(u)
  {}

  /** The body of a block decodes to what its tokens mean, and ends the block. */
  lemma BodyRun(s: State, tokens: seq<Token>, rest: seq<bool>)
    requires AtLen(s) && AllFitting(s.out, tokens) && ValidTokens(tokens)
    requires forall i :: 0 <= i < |tokens| ==> Codable(s.llens, s.dlens, tokens[i])
    requires HasCode(s.llens, END_BLOCK)
    ensures var bits := BodyBits(s.llens, s.dlens, tokens);
            Reaches(s, bits + rest, s.(mode := Type, pos := s.pos + |bits|, out := Expand(s.out, tokens)), rest)
  {
    hide Reaches, TokensBits, Codable, Ok, Code, Decode, StepType, StepStored, StepCopy, StepTable, StepLenLens,
         StepCodeLens, StepLenExt, StepDist, StepDistExt, StepCopying, LBase, LExt;
    var a, b := TokensBits(s.llens, s.dlens, tokens), Code(s.llens, END_BLOCK);
    assert a + b + rest == a + (b + rest);
    TokensRun(s, tokens, b + rest);
    var u := s.(pos := s.pos + |a|, out := Expand(s.out, tokens));
    OkCodes(s);
    CodeBegins(s.llens, END_BLOCK, rest);
    assert (b + rest)[|b|..] == rest;
    var v := u.(mode := Type, pos := u.pos + |b|);
    assert Step(u, b + rest) == Go(v, |b|);
    ReachesStep(u, b + rest);
    ReachesTrans(s, a + (b + rest), u, b + rest, v, rest);
  }
}
