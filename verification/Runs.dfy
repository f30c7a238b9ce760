/**
  Runs of the reference decoder: what a run keeps, and that reading further input never changes
  a step already taken.
 */
module Runs {
  import opened Bits
  import opened Canonical
  import opened DecodeTable
  import opened Symbols
  import opened Reference

  predicate Usable(lens: seq<nat>) {
    ValidLens(lens) && Fits(lens)
  }

  /** Kept by every step: the codes in force are prefix-free, and matches stay in range. */
  predicate Ok(s: State) {
    && Usable(s.llens) && Usable(s.dlens)
    && |s.llens| <= MaxSymbols(Lens) && |s.dlens| <= MaxSymbols(Dists)
    && match s.mode
       case CodeLens(nlen, ndist, bl, got) =>
         Usable(bl) && |bl| == 19 && ValidLens(got) && 257 <= nlen <= L_CODES && 1 <= ndist <= D_CODES
         && |got| <= nlen + ndist
       case LenLens(nlen, ndist, ncode, got) =>
         257 <= nlen <= L_CODES && 1 <= ndist <= D_CODES && 4 <= ncode <= 19 && |got| <= ncode &&
         forall i :: 0 <= i < |got| ==> got[i] <= 7
       case LenExt(len, extra) => 3 <= len && extra <= 5 && len + Pow2(extra) <= MAX_MATCH + 1
       case Dist(len) => 3 <= len <= MAX_MATCH
       case DistExt(len, offset, extra) =>
         3 <= len <= MAX_MATCH && 1 <= offset && extra <= 13 && offset + Pow2(extra) <= MAX_DISTANCE + 1
       case Copying(len, offset) => 1 <= len <= MAX_MATCH && 1 <= offset <= MAX_DISTANCE
       case _ => true
  }

  // ----- decoding one symbol -----

  lemma PrefixValue(a: seq<bool>, b: seq<bool>)
    ensures Low(ValueOf(a + b), |a|) == ValueOf(a)
  {
    ValueOfCut(a + b, |a|);
    assert (a + b)[..|a|] == a;
  }

  /** A symbol at the front is the one decoded. */
  lemma DecodeFound(lens: seq<nat>, n: nat, bits: seq<bool>)
    requires Usable(lens) && Begins(lens, n, bits)
    ensures Decode(lens, bits) == Symbol(n)
  {
    hide Fits, Matches;
    var m := Decode(lens, bits).n;
    PrefixFree(lens, m, n, ValueOf(bits));
  }

  lemma BeginsExtend(lens: seq<nat>, n: nat, bits: seq<bool>, more: seq<bool>)
    requires Begins(lens, n, bits)
    ensures Begins(lens, n, bits + more)
  {
    PrefixValue(bits, more);
    LowLow(ValueOf(bits + more), lens[n], |bits|);
  }

  lemma DecodeExtend(lens: seq<nat>, bits: seq<bool>, more: seq<bool>)
    requires Usable(lens) && !Decode(lens, bits).More?
    ensures Decode(lens, bits + more) == Decode(lens, bits)
  {
    hide Fits, Matches, ValueOf, Low, ValidLens;
    var r := Decode(lens, bits);
    if r.Symbol? {
      BeginsExtend(lens, r.n, bits, more);
      DecodeFound(lens, r.n, bits + more);
    } else {
      PrefixValue(bits, more);
      assert Unmatched(lens, ValueOf(bits + more));
      forall v: nat | Low(v, |bits + more|) == ValueOf(bits + more)
        ensures Unmatched(lens, v)
      {
        LowLow(v, |bits|, |bits + more|);
        LowLow(ValueOf(bits + more), |bits|, |bits + more|);
        LowSmallValue(bits + more);
      }
      assert Hopeless(lens, bits + more);
    }
  }

  lemma LowSmallValue(s: seq<bool>)
    ensures Low(ValueOf(s), |s|) == ValueOf(s)
  {
    LowSmall(ValueOf(s), |s|);
  }

  // ----- runs -----

  lemma FieldExtend(bits: seq<bool>, more: seq<bool>)
    ensures forall from: nat, n: nat {:trigger Field(bits, from, n)} :: from + n <= |bits| ==>
              Field(bits + more, from, n) == Field(bits, from, n)
  {
    forall from: nat, n: nat {:trigger Field(bits, from, n)} | from + n <= |bits|
      ensures Field(bits + more, from, n) == Field(bits, from, n)
    {
      assert (bits + more)[from..from + n] == bits[from..from + n];
    }
  }

  /** A step taken does not depend on the bits after those it used. */
  lemma StepExtend(s: State, bits: seq<bool>, more: seq<bool>)
    requires Ok(s) && Step(s, bits).Go?
    ensures Step(s, bits + more) == Step(s, bits)
  {
    hide Usable, Field, StepType, StepStored, StepTable, StepCodeLens, StepLen, StepDist, Acceptable, Unpermute;
    FieldExtend(bits, more);
    match s.mode {
      case CodeLens(_, _, _, _) => StepCodeLensExtend(s, bits, more);
      case Len => StepLenExtend(s, bits, more);
      case Dist(_) => StepDistExtend(s, bits, more);
      case Type => StepTypeExtend(s, bits, more);
      case Stored => StepStoredExtend(s, bits, more);
      case Table => StepTableExtend(s, bits, more);
      case _ =>
    }
  }

  lemma StepTypeExtend(s: State, bits: seq<bool>, more: seq<bool>)
    requires StepType(s, bits).Go?
    ensures StepType(s, bits + more) == StepType(s, bits)
  {
    hide Field, Padding, FixedLens, FixedDists;
    FieldExtend(bits, more);
    assert |bits| >= 3 ==> (bits + more)[0] == bits[0];
  }

  lemma StepStoredExtend(s: State, bits: seq<bool>, more: seq<bool>)
    requires StepStored(s, bits).Go?
    ensures StepStored(s, bits + more) == StepStored(s, bits)
  {
    hide Field, Padding;
    FieldExtend(bits, more);
  }

  lemma StepTableExtend(s: State, bits: seq<bool>, more: seq<bool>)
    requires StepTable(s, bits).Go?
    ensures StepTable(s, bits + more) == StepTable(s, bits)
  {
    hide Field;
    FieldExtend(bits, more);
  }

  lemma StepCodeLensExtend(s: State, bits: seq<bool>, more: seq<bool>)
    requires s.mode.CodeLens? && Usable(s.mode.bl) && StepCodeLens(s, bits).Go?
    ensures StepCodeLens(s, bits + more) == StepCodeLens(s, bits)
  {
    hide Field, Decode, Usable, Acceptable, StepRepeat;
    FieldExtend(bits, more);
    if !Decode(s.mode.bl, bits).More? {
      DecodeExtend(s.mode.bl, bits, more);
    }
  }

  lemma StepLenExtend(s: State, bits: seq<bool>, more: seq<bool>)
    requires Usable(s.llens) && StepLen(s, bits).Go?
    ensures StepLen(s, bits + more) == StepLen(s, bits)
  {
    hide Decode, Usable, LBase, LExt;
    DecodeExtend(s.llens, bits, more);
  }

  lemma StepDistExtend(s: State, bits: seq<bool>, more: seq<bool>)
    requires s.mode.Dist? && Usable(s.dlens) && StepDist(s, bits).Go?
    ensures StepDist(s, bits + more) == StepDist(s, bits)
  {
    hide Decode, Usable, DBase, DExt;
    DecodeExtend(s.dlens, bits, more);
  }

  lemma {:induction false} RunTrans(j: nat, k: nat, a: State, x: seq<bool>, b: State, y: seq<bool>, c: State, z: seq<bool>)
    requires Run(j, a, x, b, y) && Run(k, b, y, c, z)
    ensures Run(j + k, a, x, c, z)
  {
    hide Step;
    if j > 0 {
      var r := Step(a, x);
      RunTrans(j - 1, k, r.to, x[r.used..], b, y, c, z);
    }
  }

  lemma ReachesTrans(a: State, x: seq<bool>, b: State, y: seq<bool>, c: State, z: seq<bool>)
    requires Reaches(a, x, b, y) && Reaches(b, y, c, z)
    ensures Reaches(a, x, c, z)
  {
    hide Run;
    var j: nat :| Run(j, a, x, b, y);
    var k: nat :| Run(k, b, y, c, z);
    RunTrans(j, k, a, x, b, y, c, z);
  }

  lemma ReachesStep(a: State, x: seq<bool>)
    requires Step(a, x).Go?
    ensures Reaches(a, x, Step(a, x).to, x[Step(a, x).used..])
  {
    hide Step;
    var r := Step(a, x);
    assert Run(0, r.to, x[r.used..], r.to, x[r.used..]);
    assert Run(1, a, x, r.to, x[r.used..]);
  }

  lemma ReachesSelf(a: State, x: seq<bool>)
    ensures Reaches(a, x, a, x)
  {
    assert Run(0, a, x, a, x);
  }

  lemma {:induction false} RunExtend(k: nat, a: State, x: seq<bool>, b: State, y: seq<bool>, more: seq<bool>)
    requires Ok(a) && Run(k, a, x, b, y)
    ensures Run(k, a, x + more, b, y + more)
  {
    hide Step, Ok;
    if k > 0 {
      var r := Step(a, x);
      StepExtend(a, x, more);
      StepOk(a, x);
      assert (x + more)[r.used..] == x[r.used..] + more;
      RunExtend(k - 1, r.to, x[r.used..], b, y, more);
    }
  }

  lemma ReachesExtend(a: State, x: seq<bool>, b: State, y: seq<bool>, more: seq<bool>)
    requires Ok(a) && Reaches(a, x, b, y)
    ensures Reaches(a, x + more, b, y + more)
  {
    hide Run, Ok;
    var k: nat :| Run(k, a, x, b, y);
    RunExtend(k, a, x, b, y, more);
  }

  lemma {:induction false} RunOk(k: nat, a: State, x: seq<bool>, b: State, y: seq<bool>)
    requires Ok(a) && Run(k, a, x, b, y)
    ensures Ok(b)
  {
    hide Step, Ok;
    if k > 0 {
      StepOk(a, x);
      RunOk(k - 1, Step(a, x).to, x[Step(a, x).used..], b, y);
    }
  }

  /** The outcome is determined: two runs that can go no further ended alike. */
  lemma {:induction false} RunUnique(j: nat, k: nat, a: State, x: seq<bool>, b: State, y: seq<bool>, c: State, z: seq<bool>)
    requires Run(j, a, x, b, y) && Run(k, a, x, c, z)
    requires Step(b, y).Stuck? && Step(c, z).Stuck?
    ensures b == c && y == z
  {
    hide Step;
    if j > 0 && k > 0 {
      var r := Step(a, x);
      RunUnique(j - 1, k - 1, r.to, x[r.used..], b, y, c, z);
    }
  }

  // ----- what every step keeps -----

  lemma {:induction false} CountConcat(a: seq<nat>, b: seq<nat>, l: nat)
    ensures Count(a + b, l) == Count(a, l) + Count(b, l)
  {
    if b == [] {
      assert a + b == a;
    } else {
      var k := |b| - 1;
      CountConcat(a, b[..k], l);
      assert (a + b)[..|a + b| - 1] == a + b[..k];
    }
  }

  lemma {:induction false} CountRep(x: nat, n: nat, l: nat)
    ensures Count(Rep(x, n), l) == if x == l then n else 0
  {
    if n > 0 {
      CountRep(x, n - 1, l);
      assert Rep(x, n)[..n - 1] == Rep(x, n - 1);
    }
  }

  lemma FixedCount(l: nat)
    ensures Count(FixedLens(), l) == if l == 7 then 24 else if l == 8 then 152 else if l == 9 then 112 else 0
    ensures Count(FixedDists(), l) == if l == 5 then 32 else 0
  {
    hide Count;
    var a, b, c, d := Rep(8, 144), Rep(9, 112), Rep(7, 24), Rep(8, 8);
    CountConcat(a + b + c, d, l);
    CountConcat(a + b, c, l);
    CountConcat(a, b, l);
    CountRep(8, 144, l);
    CountRep(9, 112, l);
    CountRep(7, 24, l);
    CountRep(8, 8, l);
    CountRep(5, 32, l);
  }

  /** The fixed codes are complete. */
  lemma FixedComplete()
    ensures Complete(FixedLens()) && Complete(FixedDists())
    ensures Usable(FixedLens()) && Usable(FixedDists())
  {
    hide Count, FixedLens, FixedDists, Base;
    FixedBases(FixedLens());
    FixedBases(FixedDists());
    FixedValid();
  }

  lemma FixedValid()
    ensures ValidLens(FixedLens()) && ValidLens(FixedDists())
  {}

  lemma FixedBases(lens: seq<nat>)
    requires lens == FixedLens() || lens == FixedDists()
    ensures Base(lens, MAX_BITS + 1) == Pow2(MAX_BITS)
  {
    hide Count, FixedLens, FixedDists, Base;
    Unused(lens, 1);
    Unused(lens, 2);
    Unused(lens, 3);
    Unused(lens, 4);
    Unused(lens, 6);
    Unused(lens, 10);
    Unused(lens, 11);
    Unused(lens, 12);
    Unused(lens, 13);
    Unused(lens, 14);
    Unused(lens, 15);
    BaseOne(lens);
    Pow2Values();
    FixedMiddle(lens);
  }

  lemma FixedMiddle(lens: seq<nat>)
    requires lens == FixedLens() || lens == FixedDists()
    requires Base(lens, 5) == 0 && Base(lens, 7) == Base(lens, 6)
    ensures Base(lens, 10) == 32768
  {
    hide Count, FixedLens, FixedDists, Base;
    BaseStep(lens, 5);
    BaseStep(lens, 7);
    BaseStep(lens, 8);
    BaseStep(lens, 9);
    ShlZero(10);
    ShlZero(8);
    ShlZero(7);
    ShlZero(6);
    if lens == FixedLens() {
      FixedCount(5);
      FixedCount(7);
      FixedCount(8);
      FixedCount(9);
      assert Count(lens, 7) == 24 && Count(lens, 8) == 152 && Count(lens, 9) == 112;
      assert Shl(24, 8) == 6144 && Shl(152, 7) == 19456 && Shl(112, 6) == 7168;
    } else {
      FixedCount(5);
      FixedCount(7);
      FixedCount(8);
      FixedCount(9);
      assert Count(lens, 5) == 32 && Shl(32, 10) == 32768;
    }
  }

  lemma BaseOne(lens: seq<nat>)
    ensures Base(lens, 1) == 0
  {}

  lemma Unused(lens: seq<nat>, l: nat)
    requires lens == FixedLens() || lens == FixedDists()
    requires 1 <= l <= MAX_BITS && l != 5 && l != 7 && l != 8 && l != 9
    ensures Base(lens, l + 1) == Base(lens, l)
  {
    hide Count, FixedLens, FixedDists;
    FixedCount(l);
    BaseStep(lens, l);
    ShlZero(MAX_BITS - l);
  }

  lemma AcceptableUsable(kind: CodeType, lens: seq<nat>)
    requires Acceptable(kind, lens) && ValidLens(lens)
    ensures Usable(lens)
  {
    if forall i :: 0 <= i < |lens| ==> lens[i] == 0 {
      AllZeroBase(lens, MAX_BITS + 1);
    }
  }

  lemma {:induction false} AllZeroBase(lens: seq<nat>, l: nat)
    requires l <= MAX_BITS + 1 && forall i :: 0 <= i < |lens| ==> lens[i] == 0
    ensures Base(lens, l) == 0
  {
    if l > 1 {
      AllZeroBase(lens, l - 1);
      NoneOf(lens, l - 1);
      ShlZero(MAX_BITS - (l - 1));
    }
  }

  lemma {:induction false} NoneOf(lens: seq<nat>, l: nat)
    requires l > 0 && forall i :: 0 <= i < |lens| ==> lens[i] == 0
    ensures Count(lens, l) == 0
  {
    if lens != [] {
      NoneOf(lens[..|lens| - 1], l);
    }
  }

  lemma StepOk(s: State, bits: seq<bool>)
    requires Ok(s) && Step(s, bits).Go?
    ensures Ok(Step(s, bits).to)
  {
    hide Usable, StepType, StepTable, StepLenLens, StepCodeLens, StepLen, StepDist, ValueOf;
    Pow2Values();
    match s.mode {
      case Type => StepTypeOk(s, bits);
      case Table => StepTableOk(s, bits);
      case LenLens(_, _, _, _) => StepLenLensOk(s, bits);
      case CodeLens(_, _, _, _) => StepCodeLensOk(s, bits);
      case Len => StepLenOk(s, bits);
      case Dist(_) => StepDistOk(s, bits);
      case _ =>
    }
  }

  lemma StepTypeOk(s: State, bits: seq<bool>)
    requires Ok(s) && s.mode.Type? && StepType(s, bits).Go?
    ensures Ok(StepType(s, bits).to)
  {
    hide Usable, FixedLens, FixedDists, Padding, ValueOf;
    FixedComplete();
    FixedSizes();
  }

  lemma StepTableOk(s: State, bits: seq<bool>)
    requires Ok(s) && s.mode.Table? && StepTable(s, bits).Go?
    ensures Ok(StepTable(s, bits).to)
  {
    hide Usable, ValueOf;
    Pow2Values();
  }

  lemma StepLenLensOk(s: State, bits: seq<bool>)
    requires Ok(s) && s.mode.LenLens? && StepLenLens(s, bits).Go?
    ensures Ok(StepLenLens(s, bits).to)
  {
    hide Usable, Acceptable, Unpermute, ValueOf;
    Pow2Values();
    var got := s.mode.got;
    UnpermuteValid(got);
    if Acceptable(Codes, Unpermute(got)) {
      AcceptableUsable(Codes, Unpermute(got));
    }
  }

  lemma StepCodeLensOk(s: State, bits: seq<bool>)
    requires Ok(s) && s.mode.CodeLens? && StepCodeLens(s, bits).Go?
    ensures Ok(StepCodeLens(s, bits).to)
  {
    hide Usable, Acceptable, Field, Decode;
    var got, nlen, ndist := s.mode.got, s.mode.nlen, s.mode.ndist;
    if |got| >= nlen + ndist {
      assert ValidLens(got[..nlen]) && ValidLens(got[nlen..]);
      if Acceptable(Lens, got[..nlen]) && Acceptable(Dists, got[nlen..]) {
        AcceptableUsable(Lens, got[..nlen]);
        AcceptableUsable(Dists, got[nlen..]);
      }
    }
  }

  lemma StepLenOk(s: State, bits: seq<bool>)
    requires Ok(s) && s.mode.Len? && StepLen(s, bits).Go?
    ensures Ok(StepLen(s, bits).to)
  {
    hide Usable, LBase, LExt, Decode, ExtraLBits, Pow2;
    var r := Decode(s.llens, bits);
    if r.Symbol? && 257 <= r.n <= 285 {
      LengthEntry(r.n - 257);
      LengthRange(r.n - 257);
    }
  }

  lemma StepDistOk(s: State, bits: seq<bool>)
    requires Ok(s) && s.mode.Dist? && StepDist(s, bits).Go?
    ensures Ok(StepDist(s, bits).to)
  {
    hide Usable, DBase, DExt, Decode, ExtraDBits, Pow2;
    var r := Decode(s.dlens, bits);
    if r.Symbol? && r.n < D_CODES {
      DistEntry(r.n);
      DistRange(r.n);
    }
  }

  lemma FixedSizes()
    ensures |FixedLens()| == 288 && |FixedDists()| == 32
  {}

  lemma UnpermuteValid(got: seq<nat>)
    requires forall i :: 0 <= i < |got| ==> got[i] <= 7
    ensures |Unpermute(got)| == 19 && forall i :: 0 <= i < 19 ==> Unpermute(got)[i] <= 7
    ensures ValidLens(Unpermute(got))
  {}

  lemma LengthEntry(i: nat)
    requires i <= 28
    ensures LExt()[i] == 16 + ExtraLBits()[i] && LExt()[i] % 16 == ExtraLBits()[i]
    ensures ExtraLBits()[i] <= 5 && LBase()[i] >= 3
  {
    hide LBase, LExt, ExtraLBits;
    LengthColumns(i);
    LengthExtra(i);
  }

  /** A length base and its extra bits stay within MAX_MATCH. */
  lemma LengthRange(i: nat)
    requires i <= 28
    ensures LBase()[i] + Pow2(ExtraLBits()[i]) <= MAX_MATCH + 1
  {
    Pow2Values();
    if i < 28 {
      hide LBase, ExtraLBits, Pow2, FirstValue;
      LengthBaseAgrees(i);
      FirstValueNext(ExtraLBits(), i);
      FirstValueMono(ExtraLBits(), i + 1, 28);
      LengthBases();
    }
  }

  lemma FirstValueNext(extra: seq<nat>, i: nat)
    requires i < |extra|
    ensures FirstValue(extra, i + 1) == FirstValue(extra, i) + Pow2(extra[i])
  {}

  /** A distance base and its extra bits stay within MAX_DISTANCE. */
  lemma DistRange(i: nat)
    requires i < D_CODES
    ensures DBase()[i] + Pow2(ExtraDBits()[i]) <= MAX_DISTANCE + 1
  {
    hide DBase, ExtraDBits, Pow2, FirstValue;
    DistBaseAgrees(i);
    FirstValueNext(ExtraDBits(), i);
    FirstValueMono(ExtraDBits(), i + 1, D_CODES);
    AllDistances();
  }

  lemma LengthColumns(i: nat)
    requires i <= 28
    ensures ExtraLBits()[i] <= 5 && LBase()[i] >= 3
  {}

  lemma LengthExtra(i: nat)
    requires i <= 28
    ensures LExt()[i] == 16 + ExtraLBits()[i]
  {}

  lemma DistEntry(i: nat)
    requires i < D_CODES
    ensures DExt()[i] == 16 + ExtraDBits()[i] && DExt()[i] % 16 == ExtraDBits()[i]
    ensures ExtraDBits()[i] <= 13 && DBase()[i] >= 1
  {
    hide DBase, DExt, ExtraDBits;
    DistColumns(i);
    DistExtra(i);
  }

  lemma DistColumns(i: nat)
    requires i < D_CODES
    ensures ExtraDBits()[i] <= 13 && DBase()[i] >= 1
  {}

  lemma DistExtra(i: nat)
    requires i < D_CODES
    ensures DExt()[i] == 16 + ExtraDBits()[i]
  {}
}
