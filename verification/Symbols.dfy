/**
  Literals, match lengths and distances (sections 3.2.5 and 3.2.6 of RFC 1951): the symbols and
  extra bits of trees.c on one side, the base and extra tables of inftrees.c on the other.
 */
module Symbols {
  import opened Bits
  import opened DecodeTable

  const MIN_MATCH: nat := 3
  const MAX_MATCH: nat := 258
  const MAX_DISTANCE: nat := 32768
  const LITERALS: nat := 256
  const END_BLOCK: nat := 256
  const L_CODES: nat := 286
  const D_CODES: nat := 30

  /** What the matcher tallies: a literal byte, or a copy of earlier output. */
  datatype Token = Lit(b: byte) | Match(len: nat, dist: nat)

  predicate ValidToken(t: Token) {
    t.Match? ==> MIN_MATCH <= t.len <= MAX_MATCH && 1 <= t.dist <= MAX_DISTANCE
  }

  /** Copy len bytes from dist back, one at a time, so that the copy may overlap itself. */
  function CopyMatch(out: seq<byte>, len: nat, dist: nat): (r: seq<byte>)
    requires 1 <= dist <= |out|
    ensures |r| == |out| + len && r[..|out|] == out
    decreases len
  {
    if len == 0 then out else CopyMatch(out + [out[|out| - dist]], len - 1, dist)
  }

  predicate Fitting(out: seq<byte>, t: Token) {
    ValidToken(t) && (t.Match? ==> t.dist <= |out|)
  }

  function Apply(out: seq<byte>, t: Token): (r: seq<byte>)
    requires Fitting(out, t)
  {
    if t.Lit? then out + [t.b] else CopyMatch(out, t.len, t.dist)
  }

  /** Every match of the list lies within the output produced before it. */
  predicate AllFitting(out: seq<byte>, tokens: seq<Token>)
    decreases |tokens|
  {
    tokens == [] || (Fitting(out, tokens[0]) && AllFitting(Apply(out, tokens[0]), tokens[1..]))
  }

  /** What the tokens mean, after the output `out`. */
  function Expand(out: seq<byte>, tokens: seq<Token>): seq<byte>
    requires AllFitting(out, tokens)
    decreases |tokens|
  {
    if tokens == [] then out else Expand(Apply(out, tokens[0]), tokens[1..])
  }

  lemma {:induction false} ExpandSnoc(out: seq<byte>, tokens: seq<Token>, t: Token)
    requires AllFitting(out, tokens) && Fitting(Expand(out, tokens), t)
    ensures AllFitting(out, tokens + [t])
    ensures Expand(out, tokens + [t]) == Apply(Expand(out, tokens), t)
    decreases |tokens|
  {
    if tokens == [] {
      assert tokens + [t] == [t] && [t][1..] == [];
    } else {
      ExpandSnoc(Apply(out, tokens[0]), tokens[1..], t);
      assert (tokens + [t])[1..] == tokens[1..] + [t];
    }
  }

  // ----- length and distance codes -----

  function ExtraLBits(): (r: seq<nat>)
    ensures |r| == 29
  {
    [0, 0, 0, 0, 0, 0, 0, 0, 1, 1, 1, 1, 2, 2, 2, 2, 3, 3, 3, 3, 4, 4, 4, 4, 5, 5, 5, 5, 0]
  }

  function ExtraDBits(): (r: seq<nat>)
    ensures |r| == 30
  {
    [0, 0, 0, 0, 1, 1, 2, 2, 3, 3, 4, 4, 5, 5, 6, 6, 7, 7, 8, 8, 9, 9, 10, 10, 11, 11, 12, 12, 13, 13]
  }

  /** The first value of a code: the values of the codes before it, 2^extra each. */
  function FirstValue(extra: seq<nat>, code: nat): nat
    requires code <= |extra|
  {
    if code == 0 then 0 else FirstValue(extra, code - 1) + Pow2(extra[code - 1])
  }

  /** The code, from `code` on, whose range holds v. */
  function CodeFor(extra: seq<nat>, code: nat, v: nat): (c: nat)
    requires code < |extra|
    ensures code <= c < |extra|
    decreases |extra| - code
  {
    if v < FirstValue(extra, code + 1) || code + 1 == |extra| then code else CodeFor(extra, code + 1, v)
  }

  lemma {:induction false} CodeForRange(extra: seq<nat>, code: nat, v: nat)
    requires code < |extra| && FirstValue(extra, code) <= v < FirstValue(extra, |extra|)
    ensures var c := CodeFor(extra, code, v); FirstValue(extra, c) <= v < FirstValue(extra, c) + Pow2(extra[c])
    decreases |extra| - code
  {
    if !(v < FirstValue(extra, code + 1) || code + 1 == |extra|) {
      CodeForRange(extra, code + 1, v);
    }
  }

  lemma {:induction false} CodeForIs(extra: seq<nat>, code: nat, c: nat, v: nat)
    requires code <= c < |extra| && FirstValue(extra, c) <= v < FirstValue(extra, c + 1)
    ensures CodeFor(extra, code, v) == c
    decreases c - code
  {
    if code < c {
      FirstValueMono(extra, code + 1, c);
      CodeForIs(extra, code + 1, c, v);
    }
  }

  lemma {:induction false} FirstValueMono(extra: seq<nat>, i: nat, j: nat)
    requires i <= j <= |extra|
    ensures FirstValue(extra, i) <= FirstValue(extra, j)
    decreases j
  {
    if i < j {
      FirstValueMono(extra, i, j - 1);
    }
  }

  /** _length_code[lc], lc being the match length less MIN_MATCH; 258 has a code of its own. */
  function LengthCode(lc: nat): (c: nat)
    ensures c <= 28
  {
    if lc == 255 then 28 else CodeFor(ExtraLBits(), 0, lc)
  }

  /** base_length[]: the entry of code 28 stays 0, and is never subtracted. */
  function BaseLength(code: nat): nat
    requires code <= 28
  {
    if code == 28 then 0 else FirstValue(ExtraLBits(), code)
  }

  /** d_code(dist), dist being the distance less 1. */
  function DistCode(d: nat): (c: nat)
    ensures c < D_CODES
  {
    CodeFor(ExtraDBits(), 0, d)
  }

  function BaseDist(code: nat): nat
    requires code < D_CODES
  {
    FirstValue(ExtraDBits(), code)
  }

  /** The inner loop of tr_static_init: n consecutive table entries get the same code. */
  method FillRun(table: array<nat>, from: nat, n: nat, code: nat)
    requires from + n <= table.Length
    modifies table
    ensures forall i :: 0 <= i < table.Length ==>
              table[i] == if from <= i < from + n then code else old(table[i])
  {
    for k := 0 to n
      invariant forall i :: 0 <= i < table.Length ==>
                  table[i] == if from <= i < from + k then code else old(table[i])
    {
      table[from + k] := code;
    }
  }

  /** tr_static_init, its first loops: the length tables. */
  method LengthTables() returns (lengthCode: array<nat>, baseLength: array<nat>)
    ensures lengthCode.Length == 256 && baseLength.Length == 29
    ensures forall lc :: 0 <= lc < 256 ==> lengthCode[lc] == LengthCode(lc)
    ensures forall code :: 0 <= code < 29 ==> baseLength[code] == BaseLength(code)
  {
    hide Pow2, FirstValue, CodeFor;
    lengthCode, baseLength := new nat[256], new nat[29];
    baseLength[28] := 0;
    var length: nat := 0;
    LengthBases();
    for code := 0 to 28
      invariant length == FirstValue(ExtraLBits(), code) <= 256
      invariant forall c :: 0 <= c < code ==> baseLength[c] == FirstValue(ExtraLBits(), c)
      invariant baseLength[28] == 0
      invariant forall lc :: 0 <= lc < length ==> lengthCode[lc] == CodeFor(ExtraLBits(), 0, lc)
    {
      baseLength[code] := length;
      NextRun(ExtraLBits(), code);
      FirstValueMono(ExtraLBits(), code + 1, 28);
      FillRun(lengthCode, length, Pow2(ExtraLBits()[code]), code);
      length := length + Pow2(ExtraLBits()[code]);
    }
    lengthCode[length - 1] := 28;
  }

  lemma LengthBases()
    ensures FirstValue(ExtraLBits(), 28) == 256 && FirstValue(ExtraLBits(), 0) == 0
  {
    LengthBaseAgrees(27);
    Pow2Values();
    FirstZero(ExtraLBits());
  }

  /** The values of one code. */
  lemma NextRun(extra: seq<nat>, code: nat)
    requires code < |extra|
    ensures FirstValue(extra, code + 1) == FirstValue(extra, code) + Pow2(extra[code])
    ensures forall v: nat :: FirstValue(extra, code) <= v < FirstValue(extra, code + 1) ==> CodeFor(extra, 0, v) == code
  {
    forall v: nat | FirstValue(extra, code) <= v < FirstValue(extra, code + 1)
      ensures CodeFor(extra, 0, v) == code
    {
      CodeForIs(extra, 0, code, v);
    }
  }

  /** tr_static_init: the distance tables, exact below 256 and in units of 128 above. */
  method DistTables() returns (distCode: array<nat>, baseDist: array<nat>)
    ensures distCode.Length == 512 && baseDist.Length == D_CODES
    ensures forall d :: 0 <= d < 256 ==> distCode[d] == DistCode(d)
    ensures forall j :: 258 <= j < 512 ==> Block(j - 256, distCode[j])
    ensures forall code :: 0 <= code < D_CODES ==> baseDist[code] == BaseDist(code)
  {
    hide Pow2, FirstValue, CodeFor, Shl, Shr;
    distCode, baseDist := new nat[512], new nat[D_CODES];
    var dist: nat := 0;
    DistBases();
    for code := 0 to 16
      invariant dist == FirstValue(ExtraDBits(), code) <= 256
      invariant forall c :: 0 <= c < code ==> baseDist[c] == FirstValue(ExtraDBits(), c)
      invariant forall d :: 0 <= d < dist ==> distCode[d] == CodeFor(ExtraDBits(), 0, d)
    {
      baseDist[code] := dist;
      NextRun(ExtraDBits(), code);
      FirstValueMono(ExtraDBits(), code + 1, 16);
      FillRun(distCode, dist, Pow2(ExtraDBits()[code]), code);
      dist := dist + Pow2(ExtraDBits()[code]);
    }
    dist := Shr(dist, 7);
    for code := 16 to D_CODES
      invariant 2 <= dist <= 256 && Shl(dist, 7) == FirstValue(ExtraDBits(), code)
      invariant forall c :: 0 <= c < code ==> baseDist[c] == FirstValue(ExtraDBits(), c)
      invariant forall d :: 0 <= d < 256 ==> distCode[d] == CodeFor(ExtraDBits(), 0, d)
      invariant forall j :: 258 <= j < 256 + dist ==> Block(j - 256, distCode[j])
    {
      baseDist[code] := Shl(dist, 7);
      BlockRun(code, dist);
      FillRun(distCode, 256 + dist, Pow2(ExtraDBits()[code] - 7), code);
      dist := dist + Pow2(ExtraDBits()[code] - 7);
    }
    AllDistances();
    if dist < 256 {
      ShlMono(dist, 256, 7);
    }
  }

  lemma DistBases()
    ensures FirstValue(ExtraDBits(), 16) == 256 && FirstValue(ExtraDBits(), 0) == 0 && Shr(256, 7) == 2 && Shl(2, 7) == 256
  {
    hide FirstValue;
    DistBaseAgrees(16);
    FirstZero(ExtraDBits());
    Exact();
  }

  lemma FirstZero(extra: seq<nat>)
    ensures FirstValue(extra, 0) == 0
  {}

  lemma Exact()
    ensures Shr(256, 7) == 2 && Shl(2, 7) == 256
  {}

  /** The 128 distances d with d >> 7 == k all have the code c. */
  ghost predicate Block(k: nat, c: nat) {
    c < D_CODES && FirstValue(ExtraDBits(), c) <= Shl(k, 7) && Shl(k + 1, 7) <= FirstValue(ExtraDBits(), c + 1)
  }

  lemma BlockRun(code: nat, dist: nat)
    requires 16 <= code < D_CODES && Shl(dist, 7) == FirstValue(ExtraDBits(), code)
    ensures ExtraDBits()[code] >= 7
    ensures var n := Pow2(ExtraDBits()[code] - 7);
            dist + n <= 256 && Shl(dist + n, 7) == FirstValue(ExtraDBits(), code + 1) &&
            forall k {:trigger Block(k, code)} :: dist <= k < dist + n ==> Block(k, code)
  {
    hide Shl, FirstValue, CodeFor;
    assert ExtraDBits()[code] >= 7;
    var e := ExtraDBits()[code] - 7;
    var n := Pow2(e);
    ShlShl(1, e, 7);
    NextRun(ExtraDBits(), code);
    ShlAdd(dist, n, 7);
    FirstValueMono(ExtraDBits(), code + 1, D_CODES);
    AllDistances();
    if dist + n > 256 {
      ShlMono(257, dist + n, 7);
    }
    forall k | dist <= k < dist + n ensures Block(k, code) {
      ShlMono(dist, k, 7);
      ShlMono(k + 1, dist + n, 7);
    }
  }

  lemma AllDistances()
    ensures FirstValue(ExtraDBits(), D_CODES) == MAX_DISTANCE && Shl(256, 7) == MAX_DISTANCE && Shl(257, 7) > MAX_DISTANCE
  {
    DistBaseAgrees(29);
    LastDistance();
  }

  lemma LastDistance()
    ensures FirstValue(ExtraDBits(), 29) == 24576 ==> FirstValue(ExtraDBits(), D_CODES) == MAX_DISTANCE
    ensures Shl(256, 7) == MAX_DISTANCE && Shl(257, 7) > MAX_DISTANCE
  {
    Pow2Values();
  }

  // ----- the two sides agree -----

  lemma LengthSteps(c: nat)
    requires c < 27
    ensures LBase()[c + 1] == LBase()[c] + Pow2(ExtraLBits()[c])
  {
    Pow2Values();
    assert ExtraLBits()[c] == 0 || ExtraLBits()[c] == 1 || ExtraLBits()[c] == 2 || ExtraLBits()[c] == 3 ||
           ExtraLBits()[c] == 4 || ExtraLBits()[c] == 5;
  }

  lemma DistSteps(c: nat)
    requires c < 29
    ensures DBase()[c + 1] == DBase()[c] + Pow2(ExtraDBits()[c])
  {
    Pow2Values();
  }

  /** The decoder's base of a length code is the encoder's, offset by MIN_MATCH. */
  lemma {:induction false} LengthBaseAgrees(c: nat)
    requires c < 28
    ensures LBase()[c] == MIN_MATCH + FirstValue(ExtraLBits(), c)
  {
    if c > 0 {
      LengthBaseAgrees(c - 1);
      LengthSteps(c - 1);
    }
  }

  /** The decoder's base of a distance code is the encoder's plus 1. */
  lemma {:induction false} DistBaseAgrees(c: nat)
    requires c < D_CODES
    ensures DBase()[c] == 1 + FirstValue(ExtraDBits(), c)
  {
    if c > 0 {
      DistBaseAgrees(c - 1);
      DistSteps(c - 1);
    }
  }
}
