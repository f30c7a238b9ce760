/**
  Code lengths sent as runs (section 3.2.7 of RFC 1951): scan_tree and send_tree of trees.c.
 */
module RunCoding {
  import opened Bits

  const REP_3_6: nat := 16
  const REPZ_3_10: nat := 17
  const REPZ_11_138: nat := 18

  /** One length, the previous length again, or zeros; the repeats carry their count. */
  datatype Op = One(len: nat) | Again(n: nat) | Zeros(n: nat)

  predicate ValidOp(op: Op) {
    match op
    case One(len) => len <= 15
    case Again(n) => 3 <= n <= 6
    case Zeros(n) => 3 <= n <= 138
  }

  /** The symbol of the code length alphabet that an operation uses. */
  function SymbolOf(op: Op): nat {
    match op
    case One(len) => len
    case Again(_) => REP_3_6
    case Zeros(n) => if n <= 10 then REPZ_3_10 else REPZ_11_138
  }

  /** What an operation adds to the lengths already known. */
  function Perform(got: seq<nat>, op: Op): (r: seq<nat>)
    ensures got <= r
  {
    match op
    case One(len) => got + [len]
    case Again(n) => if got == [] then got else got + Rep(got[|got| - 1], n)
    case Zeros(n) => got + Rep(0, n)
  }

  /** A repeat must have something to repeat. */
  predicate Performable(got: seq<nat>, ops: seq<Op>)
    decreases |ops|
  {
    ops == [] || (ValidOp(ops[0]) && (ops[0].Again? ==> got != []) && Performable(Perform(got, ops[0]), ops[1..]))
  }

  function PerformAll(got: seq<nat>, ops: seq<Op>): seq<nat>
    decreases |ops|
  {
    if ops == [] then got else PerformAll(Perform(got, ops[0]), ops[1..])
  }

  // ----- the runs that scan_tree and send_tree see -----

  /** Longest and shortest run worth a repeat, for the run of `cur` after a run of `prev`. */
  function MaxCount(cur: nat, prev: int): nat {
    if cur == 0 then 138 else if cur == prev then 6 else 7
  }

  function MinCount(cur: nat, prev: int): nat {
    if cur == 0 then 3 else if cur == prev then 3 else 4
  }

  /** A run of `count` lengths `cur` after a run of `prev`. */
  function RunOps(cur: nat, count: nat, prev: int): seq<Op> {
    if count < MinCount(cur, prev) then Rep(One(cur), count)
    else if cur != 0 then
      if cur != prev then [One(cur), Again(count - 1)] else [Again(count)]
    else [Zeros(count)]
  }

  /** The operations from position n on, when `count` lengths of the current run are held back. */
  function OpsFrom(lens: seq<nat>, n: nat, count: nat, prev: int): seq<Op>
    requires n <= |lens|
    decreases |lens| - n
  {
    if n == |lens| then []
    else if count + 1 < MaxCount(lens[n], prev) && n + 1 < |lens| && lens[n + 1] == lens[n] then
      OpsFrom(lens, n + 1, count + 1, prev)
    else
      RunOps(lens[n], count + 1, prev) + OpsFrom(lens, n + 1, 0, lens[n])
  }

  function Ops(lens: seq<nat>): seq<Op> {
    OpsFrom(lens, 0, 0, -1)
  }

  // ----- the operations give the lengths back -----

  lemma {:induction false} PerformConcat(got: seq<nat>, a: seq<Op>, b: seq<Op>)
    requires Performable(got, a) && Performable(PerformAll(got, a), b)
    ensures Performable(got, a + b) && PerformAll(got, a + b) == PerformAll(PerformAll(got, a), b)
    decreases |a|
  {
    hide Perform, ValidOp;
    if a == [] {
      assert a + b == b;
    } else {
      var c := a + b;
      assert c[0] == a[0] && c[1..] == a[1..] + b;
      PerformConcat(Perform(got, a[0]), a[1..], b);
    }
  }

  lemma RepFront<T>(x: T, n: nat)
    ensures Rep(x, n + 1) == [x] + Rep(x, n)
  {}

  lemma {:induction false} OnesPerform(got: seq<nat>, len: nat, n: nat)
    requires len <= 15
    ensures Performable(got, Rep(One(len), n)) && PerformAll(got, Rep(One(len), n)) == got + Rep(len, n)
    decreases n
  {
    if n > 0 {
      RepFront(One(len), n - 1);
      RepFront(len, n - 1);
      assert Rep(One(len), n)[1..] == Rep(One(len), n - 1);
      OnesPerform(got + [len], len, n - 1);
      assert got + [len] + Rep(len, n - 1) == got + Rep(len, n);
    } else {
      assert got + Rep(len, 0) == got;
    }
  }

  lemma Single(got: seq<nat>, op: Op)
    requires ValidOp(op) && (op.Again? ==> got != [])
    ensures Performable(got, [op]) && PerformAll(got, [op]) == Perform(got, op)
  {
    assert [op][1..] == [];
    assert PerformAll(Perform(got, op), []) == Perform(got, op);
  }

  lemma FirstThenAgain(got: seq<nat>, cur: nat, n: nat)
    requires cur <= 15 && 3 <= n <= 6
    ensures Performable(got, [One(cur), Again(n)])
    ensures PerformAll(got, [One(cur), Again(n)]) == got + Rep(cur, n + 1)
  {
    hide Rep;
    Single(got + [cur], Again(n));
    assert [One(cur), Again(n)][1..] == [Again(n)];
    RepFront(cur, n);
    assert got + [cur] + Rep(cur, n) == got + Rep(cur, n + 1);
  }

  lemma RunPerforms(got: seq<nat>, cur: nat, count: nat, prev: int)
    requires cur <= 15 && 1 <= count <= MaxCount(cur, prev)
    requires prev >= 0 ==> got != [] && got[|got| - 1] == prev
    ensures Performable(got, RunOps(cur, count, prev))
    ensures PerformAll(got, RunOps(cur, count, prev)) == got + Rep(cur, count)
  {
    hide Rep, Performable, PerformAll;
    if count < MinCount(cur, prev) {
      OnesPerform(got, cur, count);
    } else if cur == 0 {
      Single(got, Zeros(count));
    } else if cur != prev {
      FirstThenAgain(got, cur, count - 1);
    } else {
      Single(got, Again(count));
    }
  }

  /** The last `count` lengths before n belong to the run of lens[n], which is not full yet. */
  ghost predicate Held(lens: seq<nat>, n: nat, count: nat, prev: int) {
    n <= |lens| && count <= n &&
    if n == |lens| then count == 0
    else count < MaxCount(lens[n], prev) && forall i :: n - count <= i < n ==> lens[i] == lens[n]
  }

  lemma HeldStep(lens: seq<nat>, n: nat, count: nat, prev: int)
    requires Held(lens, n, count, prev) && n < |lens|
    ensures count + 1 < MaxCount(lens[n], prev) && n + 1 < |lens| && lens[n + 1] == lens[n] ==>
              Held(lens, n + 1, count + 1, prev)
    ensures Held(lens, n + 1, 0, lens[n])
    ensures Rep(lens[n], count + 1) + lens[n + 1..] == lens[n - count..]
  {
    hide Rep;
  }

  /** Performing what is still to be sent completes the array. */
  lemma {:induction false} OpsFromPerform(got: seq<nat>, lens: seq<nat>, n: nat, count: nat, prev: int)
    requires Held(lens, n, count, prev) && (forall i :: 0 <= i < |lens| ==> lens[i] <= 15)
    requires prev >= 0 ==> got != [] && got[|got| - 1] == prev
    ensures Performable(got, OpsFrom(lens, n, count, prev))
    ensures PerformAll(got, OpsFrom(lens, n, count, prev)) == got + lens[n - count..]
    decreases |lens| - n
  {
    hide Rep, Performable, PerformAll, RunOps, MinCount;
    if n == |lens| {
      NothingToSend(got, lens);
    } else {
      HeldStep(lens, n, count, prev);
      if count + 1 < MaxCount(lens[n], prev) && n + 1 < |lens| && lens[n + 1] == lens[n] {
        OpsFromPerform(got, lens, n + 1, count + 1, prev);
      } else {
        var run, tail := Rep(lens[n], count + 1), lens[n + 1..];
        RunPerforms(got, lens[n], count + 1, prev);
        OpsFromPerform(got + run, lens, n + 1, 0, lens[n]);
        PerformConcat(got, RunOps(lens[n], count + 1, prev), OpsFrom(lens, n + 1, 0, lens[n]));
        assert got + run + tail == got + (run + tail);
      }
    }
  }

  lemma NothingToSend(got: seq<nat>, lens: seq<nat>)
    ensures Performable(got, []) && PerformAll(got, []) == got + lens[|lens|..]
  {}

  /**
    Round trip: whatever came before, the operations for a length array append exactly that
    array, and no repeat ever comes before a first length.
   */
  lemma OpsRoundTrip(got: seq<nat>, lens: seq<nat>)
    requires forall i :: 0 <= i < |lens| ==> lens[i] <= 15
    ensures Performable(got, Ops(lens)) && PerformAll(got, Ops(lens)) == got + lens
  {
    OpsFromPerform(got, lens, 0, 0, -1);
    assert lens[0..] == lens;
  }
}
