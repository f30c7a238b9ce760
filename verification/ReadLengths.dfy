/**
  The LENLENS and CODELENS states of inflate.c: reading the code lengths of a dynamic block.
 */
module ReadLengths {
  import opened Bits
  import opened DecodeTable
  import opened Reference
  import opened Runs
  import opened BitReader
  import opened InflateSteps
  import opened BitAccumulator

  // ----- LENLENS -----

  /** The lengths read so far, where the array holds them. */
  ghost predicate Holds(lens: seq<nat>, got: seq<nat>) {
    |lens| == 320 && |got| <= 19 && forall i :: 0 <= i < |got| ==> lens[Order()[i]] == got[i]
  }

  lemma HoldsMore(lens: seq<nat>, got: seq<nat>, x: nat)
    requires Holds(lens, got) && |got| < 19
    ensures Holds(lens[Order()[|got|] := x], got + [x])
  {
    hide Order, Place;
    OrderPlace();
    var more, to := got + [x], lens[Order()[|got|] := x];
    forall i | 0 <= i < |more| ensures to[Order()[i]] == more[i] {
      assert Place(Order()[i]) == i;
    }
  }

  lemma HoldsAll(lens: seq<nat>, got: seq<nat>, ncode: nat)
    requires |got| == ncode <= 19 && Holds(lens, got + Rep(0, 19 - ncode))
    ensures lens[..19] == Unpermute(got)
  {
    hide Order, Place;
    OrderPlace();
    var all := got + Rep(0, 19 - ncode);
    forall n | 0 <= n < 19 ensures lens[..19][n] == Unpermute(got)[n] {
      var i := Place(n);
      assert lens[Order()[i]] == all[i];
    }
  }

  /** From a to b only lengths of the code length code were read. */
  predicate MoreLenLens(a: State, b: State) {
    a.mode.LenLens? && b.mode.LenLens? &&
    b == a.(mode := LenLens(a.mode.nlen, a.mode.ndist, a.mode.ncode, b.mode.got), pos := b.pos)
  }

  /** LENLENS: the lengths of the code length code. */
  method ReadLenLens(ghost fed: seq<byte>, input: seq<byte>, r0: Registers, ghost s0: State, lens: array<nat>, ncode: nat, have0: nat)
    returns (ok: bool, have: nat, r: Registers, ghost s: State)
    requires Reads(fed, input, r0, s0) && s0.mode.LenLens? && ncode == s0.mode.ncode && r0.bits < 8
    requires Holds(lens[..], s0.mode.got) && |s0.mode.got| == have0 <= 19
    modifies lens
    ensures Reads(fed, input, r, s) && UnseenOf(input, r) <= UnseenOf(input, r0) && r.bits < 8
    ensures MoreLenLens(s0, s)
    ensures Holds(lens[..], s.mode.got) && |s.mode.got| == have <= 19
    ensures ok ==> have >= ncode
    ensures !ok ==> r.next == |input| && Step(s, BitsOf(r.hold, r.bits)).Stuck?
  {
    hide Reads, Step, BitsOf, Low, Shr, Holds, Order;
    r, s, have := r0, s0, have0;
    ReadsNcode(fed, input, r, s);
    while have < ncode
      invariant Reads(fed, input, r, s) && UnseenOf(input, r) <= UnseenOf(input, r0) && r.bits < 8
      invariant MoreLenLens(s0, s)
      invariant Holds(lens[..], s.mode.got) && |s.mode.got| == have <= 19
    {
      var m := s.mode;
      ok, r := NeedBits(fed, input, r, 3, s);
      LenLensStep(s, m.nlen, m.ndist, m.ncode, m.got, r.hold, r.bits);
      if !ok { return; }
      HoldsMore(lens[..], m.got, Low(r.hold, 3));
      ghost var to := s.(mode := LenLens(m.nlen, m.ndist, m.ncode, m.got + [Low(r.hold, 3)]), pos := s.pos + 3);
      Stepped(fed, input, r, s, to, 3);
      HoldsSize(lens[..], m.got);
      lens[Order()[have]] := Low(r.hold, 3);
      have, r, s := have + 1, Dropped(r, 3), to;
    }
    ok := true;
  }

  lemma HoldsSize(lens: seq<nat>, got: seq<nat>)
    requires Holds(lens, got)
    ensures |lens| == 320
  {}

  lemma ReadsNcode(fed: seq<byte>, input: seq<byte>, r: Registers, s: State)
    requires Reads(fed, input, r, s) && s.mode.LenLens?
    ensures 4 <= s.mode.ncode <= 19 && |s.mode.got| <= s.mode.ncode && forall i :: 0 <= i < |s.mode.got| ==> s.mode.got[i] <= 7
  {}

  /** The lengths that were not sent are 0. */
  method ZeroRest(lens: array<nat>, ghost got: seq<nat>, have0: nat)
    requires Holds(lens[..], got) && |got| == have0 <= 19
    modifies lens
    ensures lens.Length == 320 && lens[..19] == Unpermute(got)
  {
    hide Holds, Order, Unpermute;
    HoldsSize(lens[..], got);
    ghost var all := got;
    var have := have0;
    assert got + Rep(0, 0) == got;
    while have < 19
      invariant have0 <= have <= 19 && all == got + Rep(0, have - have0) && Holds(lens[..], all)
    {
      HoldsMore(lens[..], all, 0);
      lens[Order()[have]] := 0;
      all := all + [0];
      have := have + 1;
      assert got + Rep(0, have - 1 - have0) + [0] == got + Rep(0, have - have0);
    }
    HoldsAll(lens[..], got, have0);
  }

  /** LENLENS: read the lengths; once they are all there, those not sent are 0. */
  method CodeLengthLens(ghost fed: seq<byte>, input: seq<byte>, r0: Registers, ghost s0: State, lens: array<nat>, ncode: nat, have0: nat)
    returns (ok: bool, have: nat, r: Registers, ghost s: State)
    requires Reads(fed, input, r0, s0) && s0.mode.LenLens? && ncode == s0.mode.ncode && r0.bits < 8
    requires Holds(lens[..], s0.mode.got) && |s0.mode.got| == have0
    modifies lens
    ensures Reads(fed, input, r, s) && UnseenOf(input, r) <= UnseenOf(input, r0) && r.bits < 8 && MoreLenLens(s0, s)
    ensures lens.Length == 320
    ensures ok ==> |s.mode.got| >= ncode && lens[..19] == Unpermute(s.mode.got)
                   && forall i :: 0 <= i < |s.mode.got| ==> s.mode.got[i] <= 7
    ensures !ok ==> Holds(lens[..], s.mode.got) && |s.mode.got| == have <= 19
                    && r.next == |input| && Step(s, BitsOf(r.hold, r.bits)).Stuck?
  {
    hide Reads, Step, BitsOf, Holds, Order, Unpermute;
    HoldsSize(lens[..], s0.mode.got);
    ReadsNcode(fed, input, r0, s0);
    ok, have, r, s := ReadLenLens(fed, input, r0, s0, lens, ncode, have0);
    ReadsNcode(fed, input, r, s);
    if ok {
      ZeroRest(lens, s.mode.got, have);
    }
  }

  // ----- CODELENS -----

  /** A code length code entry that needs bits not yet read, or whose count does. */
  function EntrySpan(e: Entry): nat {
    e.bits + CountBits(e.val)
  }

  /** The next code length symbol, once its count has been read too. */
  method NextLength(ghost fed: seq<byte>, input: seq<byte>, r0: Registers, ghost s: State, table: array<Entry>, root: nat)
    returns (found: bool, r: Registers, here: Entry)
    requires Reads(fed, input, r0, s) && s.mode.CodeLens? && TableFor(table[..], root, s.mode.bl, Codes)
    requires r0.bits < 8 || r0.bits < EntrySpan(Peek(table[..], root, r0.hold))
    ensures Reads(fed, input, r, s) && UnseenOf(input, r) == UnseenOf(input, r0)
    ensures found ==> here == Peek(table[..], root, r.hold) && 1 <= here.bits && EntrySpan(here) <= r.bits < EntrySpan(here) + 8
    ensures !found ==> r.next == |input| && r.bits < EntrySpan(Peek(table[..], root, r.hold))
  {
    hide Reads, TableFor, Peek, Lookup, Low;
    ghost var t: seq<Entry> := table[..];
    found, r, here := NextEntry(fed, input, r0, s, table, root);
    if !found { return; }
    ghost var q := r;
    HoldSmall(fed, input, q, s);
    found, r := NeedBits(fed, input, r, EntrySpan(here), s);
    LowSmall(q.hold, q.bits);
    PeekIs(t, root, s.mode.bl, Codes, q.hold);
    PeekIs(t, root, s.mode.bl, Codes, r.hold);
    PartialLookup(t, root, s.mode.bl, Codes, q.hold, q.bits, r.hold);
    TableEntryBits(t, root, s.mode.bl, Codes, r.hold);
  }

  method NextEntry(ghost fed: seq<byte>, input: seq<byte>, r0: Registers, ghost s: State, table: array<Entry>, root: nat)
    returns (found: bool, r: Registers, here: Entry)
    requires Reads(fed, input, r0, s) && s.mode.CodeLens? && TableFor(table[..], root, s.mode.bl, Codes)
    ensures Reads(fed, input, r, s) && UnseenOf(input, r) == UnseenOf(input, r0)
    ensures r == r0 || r.bits < Peek(table[..], root, r.hold).bits + 8
    ensures found ==> here == Peek(table[..], root, r.hold) && here.bits <= r.bits
    ensures !found ==> r.next == |input| && r.bits < Peek(table[..], root, r.hold).bits
  {
    hide Reads, TableFor, Peek, Lookup, Low, Pow2;
    ghost var t: seq<Entry> := table[..];
    ghost var lens := s.mode.bl;
    r := r0;
    RootEntry(t, root, lens, r.hold);
    here := table[Low(r.hold, root)];
    while here.bits > r.bits
      invariant Reads(fed, input, r, s) && UnseenOf(input, r) == UnseenOf(input, r0)
      invariant here == Lookup(t, root, r.hold) == Peek(t, root, r.hold) && (r == r0 || r.bits < here.bits + 8)
      decreases |input| - r.next
    {
      if r.next == |input| { return false, r, here; }
      ghost var q := r;
      HoldSmall(fed, input, q, s);
      r := PullByte(fed, input, r, s);
      StillNeeded(t, root, lens, Codes, q.hold, q.bits, r.hold);
      RootEntry(t, root, lens, r.hold);
      here := table[Low(r.hold, root)];
    }
    found := true;
  }

  /** The code length code has one level only. */
  lemma RootEntry(t: seq<Entry>, root: nat, lens: seq<nat>, hold: nat)
    requires TableFor(t, root, lens, Codes)
    ensures Low(hold, root) < |t| && Pow2(root) <= |t|
    ensures forall i :: 0 <= i < Pow2(root) && IsLink(t[i]) ==> t[i].val + Pow2(t[i].op) <= |t|
    ensures Peek(t, root, hold) == Lookup(t, root, hold) == t[Low(hold, root)]
  {
    hide TableFor, Peek, Lookup, Low, Pow2;
    TableShape(t, root, lens, Codes);
    LowBelow(hold, root);
    CodeEntry(t, root, lens, hold);
    PeekIs(t, root, lens, Codes, hold);
  }

  /** From a to b only code lengths were read, so that lens now holds them. */
  predicate MoreCodeLens(a: State, b: State, lens: seq<nat>) {
    a.mode.CodeLens? && b == a.(mode := CodeLens(a.mode.nlen, a.mode.ndist, a.mode.bl, lens), pos := b.pos)
  }

  /** Write a run of equal lengths. */
  method PutRun(lens: array<nat>, have: nat, x: nat, copy: nat)
    requires have + copy <= lens.Length
    modifies lens
    ensures lens[..have + copy] == old(lens[..have]) + Rep(x, copy)
  {
    ghost var was: seq<nat> := lens[..have];
    var k := 0;
    while k < copy
      invariant k <= copy && lens[..have + k] == was + Rep(x, k)
    {
      lens[have + k] := x;
      k := k + 1;
      assert was + Rep(x, k - 1) + [x] == was + Rep(x, k);
    }
  }

  datatype Progress = AllRead | Starved | Invalid

  /** What the code length symbol says: how often to repeat which length. */
  method ReadRun(ghost fed: seq<byte>, input: seq<byte>, r0: Registers, ghost s0: State, here: Entry, total: nat, have: nat, prev: nat)
    returns (bad: bool, len: nat, copy: nat, r: Registers, ghost s: State)
    requires Reads(fed, input, r0, s0) && s0.mode.CodeLens? && EntrySpan(here) <= r0.bits && 1 <= here.bits && here.val <= 18
    requires Step(s0, BitsOf(r0.hold, r0.bits)) == CodeLensNext(s0, here, r0.hold)
    requires have == |s0.mode.got| && total == s0.mode.nlen + s0.mode.ndist && have < total
    requires have > 0 ==> prev == s0.mode.got[have - 1]
    ensures Reads(fed, input, r, s) && UnseenOf(input, r) < UnseenOf(input, r0)
    ensures bad ==> s == s0.(mode := Bad, pos := s.pos)
    ensures !bad ==> have + copy <= total && r.bits == r0.bits - EntrySpan(here) && MoreCodeLens(s0, s, s0.mode.got + Rep(len, copy))
  {
    hide Reads, Step, BitsOf, Low, Shr;
    ghost var next := CodeLensNext(s0, here, r0.hold);
    Stepped(fed, input, r0, s0, next.to, next.used);
    DropDrop(r0, here.bits, CountBits(here.val));
    s, bad, len, copy := next.to, false, 0, 0;
    r := Dropped(r0, here.bits);
    if here.val < 16 {
      len, copy := here.val, 1;
      assert Rep(len, 1) == [len];
      return;
    }
    if here.val == 16 {
      if have == 0 { bad := true; return; }
      len := prev;
      copy := 3 + Low(r.hold, 2);
      r := Dropped(r, 2);
    } else if here.val == 17 {
      copy := 3 + Low(r.hold, 3);
      r := Dropped(r, 3);
    } else {
      copy := 11 + Low(r.hold, 7);
      r := Dropped(r, 7);
    }
    bad := have + copy > total;
  }

  /** CODELENS: the lengths of the literal/length code and then the distance code. */
  method ReadCodeLens(ghost fed: seq<byte>, input: seq<byte>, r0: Registers, ghost s0: State, lens: array<nat>,
                      table: array<Entry>, root: nat, total: nat, have0: nat)
    returns (how: Progress, have: nat, r: Registers, ghost s: State)
    requires Reads(fed, input, r0, s0) && s0.mode.CodeLens? && TableFor(table[..], root, s0.mode.bl, Codes)
    requires lens.Length == 320 && have0 <= 320 && s0.mode.got == lens[..have0] && total == s0.mode.nlen + s0.mode.ndist
    requires r0.bits < 8 || (have0 < total && r0.bits < EntrySpan(Peek(table[..], root, r0.hold)))
    modifies lens
    ensures Reads(fed, input, r, s) && UnseenOf(input, r) <= UnseenOf(input, r0) && have <= 320
    ensures how.Invalid? ==> s == s0.(mode := Bad, pos := s.pos)
    ensures !how.Invalid? ==> MoreCodeLens(s0, s, lens[..have])
    ensures how.AllRead? ==> have == total && r.bits < 8
    ensures how.Starved? ==> have < total && r.next == |input| && Step(s, BitsOf(r.hold, r.bits)).Stuck?
                             && r.bits < EntrySpan(Peek(table[..], root, r.hold))
  {
    hide Reads, Step, BitsOf, Low, Shr, TableFor, Peek, Lookup;
    r, s, have := r0, s0, have0;
    ghost var t: seq<Entry> := table[..];
    ghost var bl := s0.mode.bl;
    LengthsOk(fed, input, r, s);
    while have < total
      invariant Reads(fed, input, r, s) && UnseenOf(input, r) <= UnseenOf(input, r0) && have <= total
      invariant MoreCodeLens(s0, s, lens[..have])
      invariant r.bits < 8 || (have < total && r.bits < EntrySpan(Peek(t, root, r.hold)))
      decreases UnseenOf(input, r)
    {
      LengthsOk(fed, input, r, s);
      var found, here;
      found, r, here := NextLength(fed, input, r, s, table, root);
      HoldSmall(fed, input, r, s);
      PeekIs(t, root, bl, Codes, r.hold);
      CodeLensStep(s, t, root, r.hold, r.bits);
      if !found { return Starved, have, r, s; }
      var bad, len, copy;
      bad, len, copy, r, s := ReadRun(fed, input, r, s, here, total, have, if have == 0 then 0 else lens[have - 1]);
      if bad { return Invalid, have, r, s; }
      PutRun(lens, have, len, copy);
      have := have + copy;
    }
    how := AllRead;
  }

  lemma LengthsOk(fed: seq<byte>, input: seq<byte>, r: Registers, s: State)
    requires Reads(fed, input, r, s) && s.mode.CodeLens?
    ensures Ok(s) && |s.mode.got| <= s.mode.nlen + s.mode.ndist <= 316
  {}

  lemma DropDrop(r: Registers, m: nat, n: nat)
    requires m + n <= r.bits
    ensures Dropped(Dropped(r, m), n) == Dropped(r, m + n)
  {
    ShrShr(r.hold, m, n);
  }
}
