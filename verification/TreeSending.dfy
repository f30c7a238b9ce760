/**
  scan_tree and send_tree: the loops over a tree's code lengths, against module RunCoding, and
  the decoder's CODELENS state reading them back.
 */
module TreeSending {
  import opened Bits
  import opened BitWriter
  import opened Canonical
  import opened DecodeTable
  import opened Reference
  import opened Runs
  import opened RunCoding
  import TokenCoding

  const BL_CODES: nat := 19
  const GUARD: nat := 0xffff

  /** How often a symbol is used. */
  function Tally(ops: seq<Op>, sym: nat): nat {
    if ops == [] then 0 else (if SymbolOf(ops[0]) == sym then 1 else 0) + Tally(ops[1..], sym)
  }

  lemma {:induction false} TallyConcat(a: seq<Op>, b: seq<Op>, sym: nat)
    ensures Tally(a + b, sym) == Tally(a, sym) + Tally(b, sym)
  {
    if a == [] {
      assert a + b == b;
    } else {
      TallyConcat(a[1..], b, sym);
      assert (a + b)[0] == a[0] && (a + b)[1..] == a[1..] + b;
    }
  }

  lemma {:induction false} TallyRep(op: Op, n: nat, sym: nat)
    ensures Tally(Rep(op, n), sym) == if SymbolOf(op) == sym then n else 0
  {
    if n > 0 {
      RepFront(op, n - 1);
      assert Rep(op, n)[1..] == Rep(op, n - 1);
      TallyRep(op, n - 1, sym);
    }
  }

  lemma TallyOne(op: Op, sym: nat)
    ensures Tally([op], sym) == if SymbolOf(op) == sym then 1 else 0
  {
    assert [op][1..] == [];
  }

  /** What a run adds to the frequency of a symbol. */
  function RunTally(cur: nat, count: nat, prev: int, sym: nat): nat {
    if count < MinCount(cur, prev) then (if sym == cur then count else 0)
    else if cur != 0 then (if sym == cur && cur != prev then 1 else 0) + (if sym == REP_3_6 then 1 else 0)
    else if count <= 10 then (if sym == REPZ_3_10 then 1 else 0)
    else (if sym == REPZ_11_138 then 1 else 0)
  }

  lemma TallyRun(cur: nat, count: nat, prev: int, sym: nat)
    requires cur <= 15 && 1 <= count
    ensures Tally(RunOps(cur, count, prev), sym) == RunTally(cur, count, prev, sym)
  {
    hide Rep, Tally;
    TallyRep(One(cur), count, sym);
    if count >= MinCount(cur, prev) {
      if cur != 0 && cur != prev {
        assert [One(cur), Again(count - 1)] == [One(cur)] + [Again(count - 1)];
        TallyConcat([One(cur)], [Again(count - 1)], sym);
        TallyOne(One(cur), sym);
        TallyOne(Again(count - 1), sym);
      } else {
        TallyOne(Again(count), sym);
        TallyOne(Zeros(count), sym);
      }
    }
  }

  /** The lengths below the guard. */
  ghost predicate Guarded(dl: seq<nat>, lens: seq<nat>) {
    |lens| < |dl| && dl[..|lens|] == lens && dl[|lens|] == GUARD && forall i :: 0 <= i < |lens| ==> lens[i] <= 15
  }

  /** The body of scan_tree's if-chain: count one run. */
  method CountRun(blFreq: array<nat>, curlen: nat, count: nat, prevlen: int, minCount: nat)
    requires BL_CODES <= blFreq.Length && curlen <= 15 && minCount == MinCount(curlen, prevlen)
    modifies blFreq
    ensures forall s :: 0 <= s < BL_CODES ==> blFreq[s] == old(blFreq[s]) + RunTally(curlen, count, prevlen, s)
    ensures forall s :: BL_CODES <= s < blFreq.Length ==> blFreq[s] == old(blFreq[s])
  {
    if count < minCount {
      blFreq[curlen] := blFreq[curlen] + count;
    } else if curlen != 0 {
      if curlen != prevlen { blFreq[curlen] := blFreq[curlen] + 1; }
      blFreq[REP_3_6] := blFreq[REP_3_6] + 1;
    } else if count <= 10 {
      blFreq[REPZ_3_10] := blFreq[REPZ_3_10] + 1;
    } else {
      blFreq[REPZ_11_138] := blFreq[REPZ_11_138] + 1;
    }
  }

  /** scan_tree: put up the guard and add the symbols that send_tree will use to the frequencies. */
  method ScanTree(dl: array<nat>, maxCode: nat, blFreq: array<nat>)
    requires maxCode + 1 < dl.Length && BL_CODES <= blFreq.Length && dl != blFreq
    requires forall i :: 0 <= i <= maxCode ==> dl[i] <= 15
    modifies dl, blFreq
    ensures dl[..] == old(dl[..])[maxCode + 1 := GUARD]
    ensures forall s :: 0 <= s < BL_CODES ==> blFreq[s] == old(blFreq[s]) + Tally(Ops(old(dl[..maxCode + 1])), s)
    ensures forall s :: BL_CODES <= s < blFreq.Length ==> blFreq[s] == old(blFreq[s])
  {
    hide Tally, OpsFrom, Ops, RunTally, MinCount, MaxCount;
    ghost var lens, freq := dl[..maxCode + 1], blFreq[..];
    ghost var all := Ops(lens);
    var prevlen: int := -1;
    var nextlen, count, maxCount, minCount := dl[0], 0, 7, 4;
    if nextlen == 0 { maxCount, minCount := 138, 3; }
    dl[maxCode + 1] := GUARD;
    CountsAre(nextlen, prevlen);
    ghost var todo := all;
    OpsIs(lens);
    for n := 0 to maxCode + 1
      invariant Guarded(dl[..], lens) && nextlen == dl[n]
      invariant dl[..] == old(dl[..])[maxCode + 1 := GUARD]
      invariant n <= maxCode ==> maxCount == MaxCount(nextlen, prevlen) && minCount == MinCount(nextlen, prevlen)
      invariant todo == OpsFrom(lens, n, count, prevlen)
      invariant forall s {:trigger blFreq[s]} :: 0 <= s < BL_CODES ==> blFreq[s] + Tally(todo, s) == freq[s] + Tally(all, s)
      invariant forall s :: BL_CODES <= s < blFreq.Length ==> blFreq[s] == freq[s]
    {
      var curlen := nextlen;
      nextlen := dl[n + 1];
      assert curlen == lens[n] && (nextlen == curlen ==> n + 1 < |lens| && nextlen == lens[n + 1]);
      count := count + 1;
      if count < maxCount && curlen == nextlen {
        Continues(lens, n, count - 1, prevlen);
        continue;
      }
      Breaks(lens, n, count - 1, prevlen, if n + 1 < |lens| then nextlen else GUARD);
      CountRun(blFreq, curlen, count, prevlen, minCount);
      todo := OpsFrom(lens, n + 1, 0, curlen);
      count, prevlen := 0, curlen;
      CountsAre(nextlen, curlen);
      if nextlen == 0 {
        maxCount, minCount := 138, 3;
      } else if curlen == nextlen {
        maxCount, minCount := 6, 3;
      } else {
        maxCount, minCount := 7, 4;
      }
    }
    NothingLeft(lens, count, prevlen);
  }

  lemma CountsAre(cur: nat, prev: int)
    ensures MinCount(cur, prev) == if cur == 0 then 3 else if cur == prev then 3 else 4
    ensures MaxCount(cur, prev) == if cur == 0 then 138 else if cur == prev then 6 else 7
  {}

  lemma OpsIs(lens: seq<nat>)
    ensures Ops(lens) == OpsFrom(lens, 0, 0, -1)
  {}

  lemma NothingLeft(lens: seq<nat>, count: nat, prev: int)
    ensures OpsFrom(lens, |lens|, count, prev) == []
    ensures forall s: nat :: Tally([], s) == 0
  {}

  lemma Continues(lens: seq<nat>, n: nat, count: nat, prev: int)
    requires n + 1 < |lens| && count + 1 < MaxCount(lens[n], prev) && lens[n + 1] == lens[n]
    ensures OpsFrom(lens, n, count, prev) == OpsFrom(lens, n + 1, count + 1, prev)
  {}

  /** A run that ends at n, and what is left after it. */
  lemma Breaks(lens: seq<nat>, n: nat, count: nat, prev: int, next: nat)
    requires n < |lens| && lens[n] <= 15 && next == if n + 1 < |lens| then lens[n + 1] else GUARD
    requires !(count + 1 < MaxCount(lens[n], prev) && lens[n] == next)
    ensures OpsFrom(lens, n, count, prev) == RunOps(lens[n], count + 1, prev) + OpsFrom(lens, n + 1, 0, lens[n])
    ensures var all, rest := OpsFrom(lens, n, count, prev), OpsFrom(lens, n + 1, 0, lens[n]);
            forall s: nat {:trigger Tally(all, s)} {:trigger Tally(rest, s)} ::
              Tally(all, s) == RunTally(lens[n], count + 1, prev, s) + Tally(rest, s)
  {
    hide Tally, RunOps, RunTally, MaxCount;
    var all, rest := OpsFrom(lens, n, count, prev), OpsFrom(lens, n + 1, 0, lens[n]);
    forall s: nat {:trigger Tally(all, s)} {:trigger Tally(rest, s)}
      ensures Tally(all, s) == RunTally(lens[n], count + 1, prev, s) + Tally(rest, s)
    {
      TallyConcat(RunOps(lens[n], count + 1, prev), rest, s);
      TallyRun(lens[n], count + 1, prev, s);
    }
  }

  // ----- send_tree -----

  /** A tree whose lengths are lens and whose codes are the canonical ones, as built by gen_codes. */
  ghost predicate TreeIs(fc: seq<nat>, dl: seq<nat>, lens: seq<nat>) {
    |lens| <= |fc| && |lens| <= |dl| && dl[..|lens|] == lens && Usable(lens) &&
    forall n {:trigger fc[n]} :: 0 <= n < |lens| && lens[n] != 0 ==> fc[n] == Huff(lens, n)
  }

  /** send_code: the code of symbol c. */
  method SendCode(w: Writer, fc: array<nat>, dl: array<nat>, ghost lens: seq<nat>, c: nat)
    requires w.Valid() && TreeIs(fc[..], dl[..], lens) && c < |lens| && lens[c] != 0
    modifies w
    ensures w.Valid() && w.Stream() == old(w.Stream()) + TokenCoding.Code(lens, c)
  {
    hide Huff, Fits;
    HuffAtStart(lens, c);
    w.SendBits(fc[c], dl[c]);
  }

  /** The bits of an operation: its symbol's code and its count. */
  function OpBits(bl: seq<nat>, op: Op): seq<bool>
    requires |bl| == BL_CODES && ValidOp(op)
  {
    TokenCoding.Code(bl, SymbolOf(op)) +
    match op
    case One(_) => []
    case Again(n) => BitsOf(n - 3, 2)
    case Zeros(n) => if n <= 10 then BitsOf(n - 3, 3) else BitsOf(n - 11, 7)
  }

  predicate ValidOps(ops: seq<Op>) {
    forall i :: 0 <= i < |ops| ==> ValidOp(ops[i])
  }

  function OpsBits(bl: seq<nat>, ops: seq<Op>): seq<bool>
    requires |bl| == BL_CODES && ValidOps(ops)
  {
    if ops == [] then [] else OpBits(bl, ops[0]) + OpsBits(bl, ops[1..])
  }

  lemma {:induction false} OpsBitsConcat(bl: seq<nat>, a: seq<Op>, b: seq<Op>)
    requires |bl| == BL_CODES && ValidOps(a) && ValidOps(b)
    ensures ValidOps(a + b) && OpsBits(bl, a + b) == OpsBits(bl, a) + OpsBits(bl, b)
  {
    hide OpBits, ValidOp;
    if a == [] {
      assert a + b == b;
    } else {
      OpsBitsConcat(bl, a[1..], b);
      var c := a + b;
      assert c[0] == a[0] && c[1..] == a[1..] + b;
      assert OpBits(bl, a[0]) + (OpsBits(bl, a[1..]) + OpsBits(bl, b)) == OpsBits(bl, a) + OpsBits(bl, b);
    }
  }

  /** Every symbol the operations use has a code. */
  predicate Sendable(bl: seq<nat>, ops: seq<Op>) {
    |bl| == BL_CODES && ValidOps(ops) && forall i :: 0 <= i < |ops| ==> bl[SymbolOf(ops[i])] != 0
  }

  lemma {:induction false} PerformableValid(got: seq<nat>, ops: seq<Op>)
    requires Performable(got, ops)
    ensures ValidOps(ops)
    decreases |ops|
  {
    hide Perform, ValidOp;
    if ops != [] {
      PerformableValid(Perform(got, ops[0]), ops[1..]);
      assert forall i :: 0 < i < |ops| ==> ops[i] == ops[1..][i - 1];
    }
  }

  method SendOp(w: Writer, fc: array<nat>, dl: array<nat>, ghost bl: seq<nat>, op: Op)
    requires w.Valid() && TreeIs(fc[..], dl[..], bl)
    requires |bl| == BL_CODES && ValidOp(op) && bl[SymbolOf(op)] != 0
    modifies w
    ensures w.Valid() && w.Stream() == old(w.Stream()) + OpBits(bl, op)
  {
    hide BitsOf, TreeIs;
    Pow2Values();
    SendCode(w, fc, dl, bl, SymbolOf(op));
    match op {
      case One(_) =>
      case Again(n) => w.SendBits(n - 3, 2);
      case Zeros(n) =>
        if n <= 10 {
          w.SendBits(n - 3, 3);
        } else {
          w.SendBits(n - 11, 7);
        }
    }
  }

  /** A run too short for a repeat: the same length over and over. */
  method SendOnes(w: Writer, fc: array<nat>, dl: array<nat>, ghost bl: seq<nat>, curlen: nat, n: nat)
    requires w.Valid() && TreeIs(fc[..], dl[..], bl) && 1 <= n && Sendable(bl, Rep(One(curlen), n))
    modifies w
    ensures w.Valid() && w.Stream() == old(w.Stream()) + OpsBits(bl, Rep(One(curlen), n))
  {
    hide OpBits, TreeIs, ValidOp, OpsBits, Rep;
    ghost var sent := w.Stream();
    var count := n;
    OpsBitsNone(bl);
    assert Rep(One(curlen), n)[0] == One(curlen);
    assert Rep(One(curlen), 0) == [];
    while true
      invariant w.Valid() && 1 <= count <= n && Sendable(bl, Rep(One(curlen), n - count))
      invariant w.Stream() == sent + OpsBits(bl, Rep(One(curlen), n - count))
      decreases count
    {
      SendOp(w, fc, dl, bl, One(curlen));
      OpsBitsConcat(bl, Rep(One(curlen), n - count), [One(curlen)]);
      OpsBitsOne(bl, One(curlen));
      OneMore(One(curlen), n - count);
      count := count - 1;
      if count == 0 { break; }
    }
  }

  lemma OneMore(x: Op, n: nat)
    ensures Rep(x, n + 1) == Rep(x, n) + [x]
  {}

  /** The body of send_tree's if-chain: send one run. */
  method SendRun(w: Writer, fc: array<nat>, dl: array<nat>, ghost bl: seq<nat>, curlen: nat, count: nat, prevlen: int, minCount: nat)
    requires w.Valid() && TreeIs(fc[..], dl[..], bl) && Sendable(bl, RunOps(curlen, count, prevlen))
    requires 1 <= count && minCount == MinCount(curlen, prevlen)
    modifies w
    ensures w.Valid() && w.Stream() == old(w.Stream()) + OpsBits(bl, RunOps(curlen, count, prevlen))
  {
    hide OpBits, TreeIs, ValidOp, Rep;
    ghost var ops := RunOps(curlen, count, prevlen);
    OpsBitsNone(bl);
    if count < minCount {
      SendOnes(w, fc, dl, bl, curlen, count);
    } else if curlen != 0 {
      if curlen != prevlen {
        assert ops[0] == One(curlen) && ops[1] == Again(count - 1);
        SendOp(w, fc, dl, bl, One(curlen));
        SendOp(w, fc, dl, bl, Again(count - 1));
        OpsBitsOne(bl, Again(count - 1));
        assert ops[1..] == [Again(count - 1)];
      } else {
        assert ops[0] == Again(count);
        SendOp(w, fc, dl, bl, Again(count));
        OpsBitsOne(bl, Again(count));
      }
    } else {
      assert ops[0] == Zeros(count);
      SendOp(w, fc, dl, bl, Zeros(count));
      OpsBitsOne(bl, Zeros(count));
    }
  }

  lemma OpsBitsNone(bl: seq<nat>)
    requires |bl| == BL_CODES
    ensures OpsBits(bl, []) == []
  {}

  lemma OpsBitsOne(bl: seq<nat>, op: Op)
    requires |bl| == BL_CODES && ValidOp(op)
    ensures OpsBits(bl, [op]) == OpBits(bl, op)
  {
    hide OpBits;
    assert [op][1..] == [];
  }

  /** send_tree: send the lengths of a tree as runs, in the code of the bit length tree. */
  method SendTree(w: Writer, dl: array<nat>, maxCode: nat, fc: array<nat>, bdl: array<nat>, ghost bl: seq<nat>)
    requires w.Valid() && maxCode + 1 < dl.Length && Guarded(dl[..], dl[..maxCode + 1])
    requires TreeIs(fc[..], bdl[..], bl) && Sendable(bl, Ops(dl[..maxCode + 1]))
    modifies w
    ensures w.Valid() && w.Stream() == old(w.Stream()) + OpsBits(bl, Ops(dl[..maxCode + 1]))
  {
    hide OpsFrom, Ops, RunOps, MinCount, MaxCount, OpsBits, TreeIs, ValidOp;
    ghost var lens := dl[..maxCode + 1];
    ghost var all, sent := Ops(lens), w.Stream();
    var prevlen: int := -1;
    var nextlen, count, maxCount, minCount := dl[0], 0, 7, 4;
    if nextlen == 0 { maxCount, minCount := 138, 3; }
    CountsAre(nextlen, prevlen);
    OpsIs(lens);
    OpsBitsNone(bl);
    ghost var done: seq<Op>, todo := [], all;
    assert [] + all == all;
    for n := 0 to maxCode + 1
      invariant w.Valid() && nextlen == dl[n]
      invariant n <= maxCode ==> maxCount == MaxCount(nextlen, prevlen) && minCount == MinCount(nextlen, prevlen)
      invariant todo == OpsFrom(lens, n, count, prevlen) && done + todo == all && Sendable(bl, done)
      invariant w.Stream() == sent + OpsBits(bl, done)
    {
      var curlen := nextlen;
      nextlen := dl[n + 1];
      assert curlen == lens[n] && (nextlen == curlen ==> n + 1 < |lens| && nextlen == lens[n + 1]);
      count := count + 1;
      if count < maxCount && curlen == nextlen {
        Continues(lens, n, count - 1, prevlen);
        continue;
      }
      Breaks(lens, n, count - 1, prevlen, if n + 1 < |lens| then nextlen else GUARD);
      ghost var run, rest := RunOps(curlen, count, prevlen), OpsFrom(lens, n + 1, 0, curlen);
      SendablePart(bl, done, run, rest);
      SendRun(w, fc, bdl, bl, curlen, count, prevlen, minCount);
      OpsBitsConcat(bl, done, run);
      done, todo := done + run, rest;
      count, prevlen := 0, curlen;
      CountsAre(nextlen, curlen);
      if nextlen == 0 {
        maxCount, minCount := 138, 3;
      } else if curlen == nextlen {
        maxCount, minCount := 6, 3;
      } else {
        maxCount, minCount := 7, 4;
      }
    }
    NothingLeft(lens, count, prevlen);
    assert done == all;
  }

  lemma SendablePart(bl: seq<nat>, done: seq<Op>, run: seq<Op>, rest: seq<Op>)
    requires Sendable(bl, done + (run + rest))
    ensures Sendable(bl, run) && Sendable(bl, done + run) && done + (run + rest) == done + run + rest
  {
    hide ValidOp, SymbolOf;
    var all := done + (run + rest);
    assert forall i :: 0 <= i < |run| ==> run[i] == all[|done| + i];
    assert forall i :: 0 <= i < |done + run| ==> (done + run)[i] == all[i];
  }

  // ----- the decoder reads the lengths back -----

  function With(s: State, got: seq<nat>, used: nat): State
    requires s.mode.CodeLens?
  {
    s.(mode := CodeLens(s.mode.nlen, s.mode.ndist, s.mode.bl, got), pos := s.pos + used)
  }

  lemma OkBl(s: State)
    requires Ok(s) && s.mode.CodeLens?
    ensures Usable(s.mode.bl) && |s.mode.bl| == BL_CODES
  {}

  lemma FoldCodeLens(s: State, n: nat, tail: seq<bool>)
    requires Ok(s) && s.mode.CodeLens? && n < |s.mode.bl| && s.mode.bl[n] != 0
    ensures var code := TokenCoding.Code(s.mode.bl, n);
            Decode(s.mode.bl, code + tail) == Symbol(n) && Step(s, code + tail) == StepCodeLens(s, code + tail)
  {
    hide Ok, Decode, TokenCoding.Code, StepCodeLens;
    OkBl(s);
    TokenCoding.CodeBegins(s.mode.bl, n, tail);
  }

  lemma OneStep(s: State, len: nat, rest: seq<bool>)
    requires Ok(s) && s.mode.CodeLens? && |s.mode.bl| == BL_CODES && len <= 15 && s.mode.bl[len] != 0
    requires |s.mode.got| < s.mode.nlen + s.mode.ndist
    ensures var code := TokenCoding.Code(s.mode.bl, len);
            Step(s, code + rest) == Go(With(s, s.mode.got + [len], |code|), |code|)
  {
    hide Ok, Decode, TokenCoding.Code, Field, Acceptable, Step;
    FoldCodeLens(s, len, rest);
  }

  lemma RepeatStep(s: State, n: nat, v: nat, width: nat, rest: seq<bool>)
    requires Ok(s) && s.mode.CodeLens? && |s.mode.bl| == BL_CODES && 16 <= n <= 18 && s.mode.bl[n] != 0
    requires width == (if n == 16 then 2 else if n == 17 then 3 else 7) && v < Pow2(width)
    requires n == 16 ==> s.mode.got != []
    requires |s.mode.got| + v + (if n == 18 then 11 else 3) <= s.mode.nlen + s.mode.ndist
    ensures var bits := TokenCoding.Code(s.mode.bl, n) + BitsOf(v, width);
            var x := if n == 16 then s.mode.got[|s.mode.got| - 1] else 0;
            Step(s, bits + rest) ==
            Go(With(s, s.mode.got + Rep(x, v + (if n == 18 then 11 else 3)), |bits|), |bits|)
  {
    hide Ok, Decode, TokenCoding.Code, BitsOf, Field, Acceptable, Step, Rep, Pow2;
    var code, extra := TokenCoding.Code(s.mode.bl, n), BitsOf(v, width);
    assert code + extra + rest == code + (extra + rest);
    FoldCodeLens(s, n, extra + rest);
    FieldAfter(code, v, width, rest);
  }

  /** One operation is one step of the CODELENS state. */
  lemma OpStep(s: State, op: Op, rest: seq<bool>)
    requires Ok(s) && s.mode.CodeLens? && ValidOp(op) && (op.Again? ==> s.mode.got != [])
    requires |s.mode.bl| == BL_CODES && s.mode.bl[SymbolOf(op)] != 0
    requires |Perform(s.mode.got, op)| <= s.mode.nlen + s.mode.ndist
    ensures var bits := OpBits(s.mode.bl, op);
            Step(s, bits + rest) == Go(With(s, Perform(s.mode.got, op), |bits|), |bits|)
  {
    hide Ok, TokenCoding.Code, BitsOf, Step, Rep, Pow2;
    Pow2Values();
    match op {
      case One(len) =>
        OneStep(s, len, rest);
        var code := TokenCoding.Code(s.mode.bl, len);
        assert code + [] == code;
      case Again(k) => RepeatStep(s, 16, k - 3, 2, rest);
      case Zeros(k) =>
        if k <= 10 {
          RepeatStep(s, 17, k - 3, 3, rest);
        } else {
          RepeatStep(s, 18, k - 11, 7, rest);
        }
    }
  }

  lemma FieldAfter(code: seq<bool>, v: nat, n: nat, rest: seq<bool>)
    requires v < Pow2(n)
    ensures Field(code + (BitsOf(v, n) + rest), |code|, n) == v
  {
    hide BitsOf;
    var all := code + (BitsOf(v, n) + rest);
    assert all[|code|..|code| + n] == BitsOf(v, n);
    ValueOfBitsOf(v, n);
    LowSmall(v, n);
  }

  lemma {:induction false} PerformGrows(got: seq<nat>, ops: seq<Op>)
    ensures |got| <= |PerformAll(got, ops)|
    decreases |ops|
  {
    hide Perform;
    if ops != [] {
      PerformGrows(Perform(got, ops[0]), ops[1..]);
    }
  }

  /** The operations sent for a tree are performed by the decoder. */
  lemma {:induction false} OpsRun(s: State, ops: seq<Op>, rest: seq<bool>)
    requires Ok(s) && s.mode.CodeLens? && Sendable(s.mode.bl, ops) && Performable(s.mode.got, ops)
    requires |PerformAll(s.mode.got, ops)| <= s.mode.nlen + s.mode.ndist
    ensures var bits := OpsBits(s.mode.bl, ops);
            Reaches(s, bits + rest, With(s, PerformAll(s.mode.got, ops), |bits|), rest)
    decreases |ops|
  {
    hide Ok, Step, Reaches, OpBits, Perform, ValidOp, SymbolOf;
    if ops == [] {
      assert [] + rest == rest;
      ReachesSelf(s, rest);
    } else {
      var bl := s.mode.bl;
      var a, b := OpBits(bl, ops[0]), OpsBits(bl, ops[1..]);
      assert a + b + rest == a + (b + rest);
      var t := With(s, Perform(s.mode.got, ops[0]), |a|);
      PerformGrows(t.mode.got, ops[1..]);
      OpStep(s, ops[0], b + rest);
      StepOk(s, a + (b + rest));
      assert (a + (b + rest))[|a|..] == b + rest;
      ReachesStep(s, a + (b + rest));
      OpsRun(t, ops[1..], rest);
      ReachesTrans(s, a + (b + rest), t, b + rest, With(s, PerformAll(s.mode.got, ops), |a| + |b|), rest);
    }
  }
}
