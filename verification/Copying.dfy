/**
  Copying a match: many single-byte steps of the reference at once, and the bytes they read.
 */
module Copying {
  import opened Bits
  import opened Symbols
  import opened Reference
  import opened Runs
  import opened BitReader

  lemma {:induction false} CopySnoc(out: seq<byte>, n: nat, dist: nat)
    requires 1 <= dist <= |out|
    ensures CopyMatch(out, n + 1, dist) ==
            var r := CopyMatch(out, n, dist); r + [r[|r| - dist]]
    decreases n
  {
    if n > 0 {
      CopySnoc(out + [out[|out| - dist]], n - 1, dist);
    } else {
      var next := out + [out[|out| - dist]];
      assert CopyMatch(out, 1, dist) == CopyMatch(next, 0, dist);
    }
  }

  lemma {:induction false} CopySplit(out: seq<byte>, a: nat, b: nat, dist: nat)
    requires 1 <= dist <= |out|
    ensures CopyMatch(CopyMatch(out, a, dist), b, dist) == CopyMatch(out, a + b, dist)
    decreases a
  {
    if a > 0 {
      CopySplit(out + [out[|out| - dist]], a - 1, b, dist);
    }
  }

  /** The state after n bytes of the match. */
  function Copied(s: State, len: nat, dist: nat, n: nat): State
    requires n <= len && 1 <= dist <= |s.out|
  {
    s.(mode := if n == len then Len else Mode.Copying(len - n, dist), out := CopyMatch(s.out, n, dist))
  }

  /** The reference copies n bytes of a match in n steps. */
  lemma {:induction false} AtCopied(input: seq<byte>, s: State, len: nat, dist: nat, n: nat)
    requires At(input, s) && s.mode == Mode.Copying(len, dist) && 1 <= n <= len && 1 <= dist <= |s.out|
    ensures At(input, Copied(s, len, dist, n))
    decreases n
  {
    hide At, Step, Ok;
    if n > 1 {
      AtCopied(input, s, len, dist, n - 1);
      CopySnoc(s.out, n - 1, dist);
    } else {
      CopySnoc(s.out, 0, dist);
    }
    var t := Copied(s, len, dist, n - 1);
    assert n == 1 ==> t == s;
    AtPos(input, t);
    CopyingStep(t, len - (n - 1), dist, BytesBits(input)[t.pos..]);
    AtStep(input, t);
  }

  lemma AtPos(input: seq<byte>, s: State)
    requires At(input, s)
    ensures s.pos <= 8 * |input| && Ok(s)
  {}

  lemma CopyingStep(s: State, len: nat, dist: nat, bits: seq<bool>)
    requires s.mode == Mode.Copying(len, dist) && 1 <= len && 1 <= dist <= |s.out|
    ensures Step(s, bits) == Go(s.(mode := if len == 1 then Len else Mode.Copying(len - 1, dist),
                                   out := s.out + [s.out[|s.out| - dist]]), 0)
  {
    hide StepType, StepStored, StepCopy, StepTable, StepLenLens, StepCodeLens, StepLen, StepLenExt, StepDist, StepDistExt;
  }

  /** A distance that reaches back past the first byte of the output is an error. */
  lemma TooFarStep(s: State, len: nat, dist: nat, bits: seq<bool>)
    requires s.mode == Mode.Copying(len, dist) && dist > |s.out|
    ensures Step(s, bits) == Go(s.(mode := Bad), 0)
  {
    hide StepType, StepStored, StepCopy, StepTable, StepLenLens, StepCodeLens, StepLen, StepLenExt, StepDist, StepDistExt;
  }
}
