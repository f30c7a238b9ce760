/**
  The decoder's two-level lookup tables (inftrees.h) and what makes one right.

  `TableFor` is what inflate relies on: looking up any stream that begins with the code of
  symbol n gives n's entry and consumes exactly n's code length, through at most one sub-table.
  The codes are those of module Canonical, which is also what `gen_codes` assigns.
 */
module DecodeTable {
  import opened Bits
  import opened Canonical

  datatype CodeType = Codes | Lens | Dists

  /** A table entry: operation, bits to drop, value or offset of a sub-table. */
  datatype Entry = Entry(op: nat, bits: nat, val: nat)

  const ENOUGH_LENS: nat := 852
  const ENOUGH_DISTS: nat := 592

  function LBase(): (r: seq<nat>)
    ensures |r| == 31
  {
    [3, 4, 5, 6, 7, 8, 9, 10, 11, 13, 15, 17, 19, 23, 27, 31,
     35, 43, 51, 59, 67, 83, 99, 115, 131, 163, 195, 227, 258, 0, 0]
  }

  function LExt(): (r: seq<nat>)
    ensures |r| == 31
  {
    [16, 16, 16, 16, 16, 16, 16, 16, 17, 17, 17, 17, 18, 18, 18, 18,
     19, 19, 19, 19, 20, 20, 20, 20, 21, 21, 21, 21, 16, 77, 202]
  }

  function DBase(): (r: seq<nat>)
    ensures |r| == 32
  {
    [1, 2, 3, 4, 5, 7, 9, 13, 17, 25, 33, 49, 65, 97, 129, 193, 257, 385, 513, 769, 1025, 1537,
     2049, 3073, 4097, 6145, 8193, 12289, 16385, 24577, 0, 0]
  }

  function DExt(): (r: seq<nat>)
    ensures |r| == 32
  {
    [16, 16, 16, 16, 17, 17, 18, 18, 19, 19, 20, 20, 21, 21, 22, 22, 23, 23, 24, 24, 25, 25,
     26, 26, 27, 27, 28, 28, 29, 29, 64, 64]
  }

  function MaxSymbols(kind: CodeType): nat {
    match kind case Codes => 19 case Lens => 288 case Dists => 32
  }

  /** The operation and value of a symbol's entry, as the base and extra tables give them. */
  function SymEntry(kind: CodeType, n: nat, bits: nat): Entry
    requires n < MaxSymbols(kind)
  {
    match kind
    case Codes => Entry(0, bits, n)
    case Lens =>
      if n + 1 < 257 then Entry(0, bits, n)
      else if n >= 257 then Entry(LExt()[n - 257], bits, LBase()[n - 257])
      else Entry(96, bits, 0)
    case Dists => Entry(DExt()[n], bits, DBase()[n])
  }

  const INVALID := Entry(64, 1, 0)

  predicate IsLink(e: Entry) {
    1 <= e.op < 16
  }

  /** Decode the code at the front of hold: the entry reached, with the total bits to drop. */
  function Lookup(t: seq<Entry>, root: nat, hold: nat): Entry
    requires Pow2(root) <= |t|
    requires forall i :: 0 <= i < Pow2(root) && IsLink(t[i]) ==> t[i].val + Pow2(t[i].op) <= |t|
  {
    var here := t[Low(hold, root)];
    if IsLink(here) then
      var last := t[here.val + Low(Shr(hold, here.bits), here.op)];
      last.(bits := here.bits + last.bits)
    else here
  }

  ghost predicate Unmatched(lens: seq<nat>, v: nat) {
    forall n :: 0 <= n < |lens| ==> !Matches(lens, n, v)
  }

  ghost predicate TableFor(t: seq<Entry>, root: nat, lens: seq<nat>, kind: CodeType) {
    && |lens| <= MaxSymbols(kind) && ValidLens(lens) && Acceptable(kind, lens)
    && 1 <= root && Pow2(root) <= |t|
    && (forall i :: 0 <= i < Pow2(root) && IsLink(t[i]) ==>
          t[i].val + Pow2(t[i].op) <= |t| && t[i].bits == root && kind != Codes)
    && (forall n, v: nat :: 0 <= n < |lens| && Matches(lens, n, v) ==>
          Lookup(t, root, v) == SymEntry(kind, n, lens[n]))
    && (forall v: nat :: Unmatched(lens, v) ==> Lookup(t, root, v) == INVALID)
  }

  /** The length vectors for which a table is built. */
  ghost predicate Acceptable(kind: CodeType, lens: seq<nat>) {
    || (forall i :: 0 <= i < |lens| ==> lens[i] == 0)
    || Complete(lens)
    || (Fits(lens) && kind != Codes && forall i :: 0 <= i < |lens| ==> lens[i] <= 1)
  }

  lemma CompleteAcceptable(kind: CodeType, lens: seq<nat>)
    requires Complete(lens)
    ensures Acceptable(kind, lens)
  {}

  /**
    The decoder's loop on a partly filled accumulator: an entry whose bits are all present is
    the entry that any continuation of the stream would give.
   */
  lemma PartialLookup(t: seq<Entry>, root: nat, lens: seq<nat>, kind: CodeType,
                      hold: nat, bits: nat, v: nat)
    requires TableFor(t, root, lens, kind)
    requires Low(v, bits) == Low(hold, bits) && Lookup(t, root, hold).bits <= bits
    ensures Lookup(t, root, v) == Lookup(t, root, hold)
  {
    hide Lookup, Pow2, Shr, Matches;
    if n :| 0 <= n < |lens| && Matches(lens, n, hold) {
      StillMatches(lens, n, hold, bits, v);
    } else {
      assert Unmatched(lens, hold);
      StillUnmatched(lens, kind, hold, bits, v);
    }
  }

  lemma StillMatches(lens: seq<nat>, n: nat, hold: nat, bits: nat, v: nat)
    requires n < |lens| && Matches(lens, n, hold) && lens[n] <= bits && Low(v, bits) == Low(hold, bits)
    ensures Matches(lens, n, v)
  {
    LowLow(v, lens[n], bits);
    LowLow(hold, lens[n], bits);
  }

  lemma StillUnmatched(lens: seq<nat>, kind: CodeType, hold: nat, bits: nat, v: nat)
    requires ValidLens(lens) && Acceptable(kind, lens) && Unmatched(lens, hold)
    requires 1 <= bits && Low(v, bits) == Low(hold, bits)
    ensures Unmatched(lens, v)
  {
    hide Matches, Acceptable, Low;
    OnlyOneBitCodesAreIncomplete(lens, kind, hold);
    forall n | 0 <= n < |lens| ensures !Matches(lens, n, v) {
      assert !Matches(lens, n, hold);
      OneBitOnly(lens, n, hold, bits, v);
    }
  }

  lemma OneBitOnly(lens: seq<nat>, n: nat, hold: nat, bits: nat, v: nat)
    requires n < |lens| && lens[n] <= 1 && !Matches(lens, n, hold)
    requires 1 <= bits && Low(v, bits) == Low(hold, bits)
    ensures !Matches(lens, n, v)
  {
    LowLow(v, 1, bits);
    LowLow(hold, 1, bits);
  }

  lemma OnlyOneBitCodesAreIncomplete(lens: seq<nat>, kind: CodeType, v: nat)
    requires ValidLens(lens) && Acceptable(kind, lens) && Unmatched(lens, v)
    ensures forall i :: 0 <= i < |lens| ==> lens[i] <= 1
  {
    if Complete(lens) {
      var n := Total(lens, v);
    }
  }

  // ----- how a table is filled -----

  /** Which of the root-size blocks of code space a stream falls into. */
  lemma RootBits(v: nat, root: nat)
    requires root <= MAX_BITS
    ensures Rev(Low(v, root), root) == Shr(Rev(v, MAX_BITS), MAX_BITS - root)
  {
    RevLowBits(v, root, root);
    RevTop(v, root, MAX_BITS);
  }

  /** huff, the reversed code, sits at the start of the symbol's interval. */
  lemma HuffAtStart(lens: seq<nat>, n: nat)
    requires Fits(lens) && n < |lens| && 1 <= lens[n] <= MAX_BITS
    ensures Rev(Huff(lens, n), MAX_BITS) == Start(lens, n)
    ensures Huff(lens, n) < Pow2(lens[n])
    ensures Matches(lens, n, Huff(lens, n))
  {
    var l := lens[n];
    CodeBound(lens, n);
    RevRev(CodeOf(lens, n), l);
    LowSmall(CodeOf(lens, n), l);
    RevWiden(Huff(lens, n), l, MAX_BITS);
    LowSmall(Huff(lens, n), l);
  }

  /** Symbols whose codes lie wholly below position p have been entered. */
  ghost predicate Done(lens: seq<nat>, n: nat, p: nat)
    requires ValidLens(lens) && n < |lens|
  {
    lens[n] != 0 && Start(lens, n) < p
  }

  lemma DoneStep(lens: seq<nat>, c: nat, n: nat)
    requires ValidLens(lens) && c < |lens| && n < |lens| && lens[c] != 0
    ensures Done(lens, n, Start(lens, c) + Size(lens[c])) <==> Done(lens, n, Start(lens, c)) || n == c
    ensures Done(lens, n, Start(lens, c)) ==>
              lens[n] <= lens[c] && n != c && Start(lens, n) + Size(lens[n]) <= Start(lens, c)
  {
    if lens[n] != 0 && n != c {
      if Before(lens, n, c) {
        Disjoint(lens, n, c);
      } else {
        Disjoint(lens, c, n);
      }
    }
  }

  ghost predicate PlacedShort(t: seq<Entry>, lens: seq<nat>, kind: CodeType, root: nat, n: nat)
    requires Pow2(root) <= |t| && n < |lens| && n < MaxSymbols(kind)
  {
    forall i :: 0 <= i < Pow2(root) && Low(i, lens[n]) == Huff(lens, n) ==>
      t[i] == SymEntry(kind, n, lens[n])
  }

  /** A code longer than root, in the sub-table of the given offset and index width. */
  ghost predicate InSub(t: seq<Entry>, lens: seq<nat>, kind: CodeType, root: nat, n: nat, off: nat, curr: nat)
    requires n < |lens| && n < MaxSymbols(kind) && root < lens[n]
    requires off + Pow2(curr) <= |t|
  {
    lens[n] - root <= curr &&
    forall j :: off <= j < off + Pow2(curr) && Low(j - off, lens[n] - root) == Shr(Huff(lens, n), root) ==>
      t[j] == SymEntry(kind, n, lens[n] - root)
  }

  ghost predicate PlacedLong(t: seq<Entry>, lens: seq<nat>, kind: CodeType, root: nat, n: nat, used: nat)
    requires Pow2(root) <= |t| && used <= |t| && n < |lens| && n < MaxSymbols(kind) && root < lens[n]
  {
    var e := t[Low(Huff(lens, n), root)];
    IsLink(e) && e.bits == root && Pow2(root) <= e.val && e.val + Pow2(e.op) <= used &&
    InSub(t, lens, kind, root, n, e.val, e.op)
  }

  ghost predicate Placed(t: seq<Entry>, lens: seq<nat>, kind: CodeType, root: nat, n: nat, used: nat)
    requires Pow2(root) <= |t| && used <= |t| && n < |lens| && n < MaxSymbols(kind)
  {
    if lens[n] <= root then PlacedShort(t, lens, kind, root, n)
    else PlacedLong(t, lens, kind, root, n, used)
  }

  /** Everything below position p is in place; `low` names the sub-table still being filled. */
  ghost predicate Filled(t: seq<Entry>, lens: seq<nat>, kind: CodeType, root: nat, p: nat,
                         next: nat, curr: nat, low: int)
    requires ValidLens(lens) && |lens| <= MaxSymbols(kind)
  {
    && Pow2(root) <= next + Pow2(curr) <= |t|
    && (forall n :: 0 <= n < |lens| && Done(lens, n, p) ==>
          && Placed(t, lens, kind, root, n, next + Pow2(curr))
          && (lens[n] > root && Low(Huff(lens, n), root) != low ==>
                var e := t[Low(Huff(lens, n), root)]; e.val + Pow2(e.op) <= next))
    && (low >= 0 ==> low < Pow2(root) <= next && t[low] == Entry(curr, root, next) && 1 <= curr < 16)
    && (low < 0 ==> next == 0 && curr == root)
  }

  /** What one round of table[base + fill] := here does to the table. */
  ghost predicate Replicated(t: seq<Entry>, t': seq<Entry>, next: nat, curr: nat, h: nat, k: nat, here: Entry) {
    && |t'| == |t| && next + Pow2(curr) <= |t|
    && (forall j :: next <= j < next + Pow2(curr) ==> t'[j] == if Low(j - next, k) == h then here else t[j])
    && (forall i :: 0 <= i < |t| && !(next <= i < next + Pow2(curr)) ==> t'[i] == t[i])
  }

  /** Entering a code no longer than root into the root table. */
  lemma EnterShort(t: seq<Entry>, t': seq<Entry>, lens: seq<nat>, kind: CodeType, root: nat, c: nat)
    requires ValidLens(lens) && Fits(lens) && |lens| <= MaxSymbols(kind) && c < |lens|
    requires 1 <= lens[c] <= root
    requires Filled(t, lens, kind, root, Start(lens, c), 0, root, -1)
    requires Replicated(t, t', 0, root, Huff(lens, c), lens[c], SymEntry(kind, c, lens[c]))
    ensures Filled(t', lens, kind, root, Start(lens, c) + Size(lens[c]), 0, root, -1)
  {
    hide Fits, Huff, SymEntry, Start, Low, Shr, Pow2;
    forall n | 0 <= n < |lens| && Done(lens, n, Start(lens, c) + Size(lens[c]))
      ensures lens[n] <= root && PlacedShort(t', lens, kind, root, n)
    {
      DoneStep(lens, c, n);
      forall i | 0 <= i < Pow2(root) && Low(i, lens[n]) == Huff(lens, n)
        ensures t'[i] == SymEntry(kind, n, lens[n])
      {
        if n != c {
          assert PlacedShort(t, lens, kind, root, n);
          assert Matches(lens, n, i);
          if Low(i, lens[c]) == Huff(lens, c) {
            PrefixFree(lens, n, c, i);
          }
        }
      }
    }
  }

  /** Entering a longer code into the current sub-table. */
  lemma EnterLong(t: seq<Entry>, t': seq<Entry>, lens: seq<nat>, kind: CodeType, root: nat, c: nat,
                  next: nat, curr: nat, low: nat)
    requires ValidLens(lens) && Fits(lens) && |lens| <= MaxSymbols(kind) && c < |lens|
    requires root < lens[c] <= root + curr && low == Low(Huff(lens, c), root)
    requires Filled(t, lens, kind, root, Start(lens, c), next, curr, low)
    requires Replicated(t, t', next, curr, Shr(Huff(lens, c), root), lens[c] - root,
                        SymEntry(kind, c, lens[c] - root))
    ensures Filled(t', lens, kind, root, Start(lens, c) + Size(lens[c]), next, curr, low)
  {
    hide Fits, Huff, SymEntry, Start, Low, Shr, Size;
    var used := next + Pow2(curr);
    forall n | 0 <= n < |lens| && Done(lens, n, Start(lens, c) + Size(lens[c]))
      ensures Placed(t', lens, kind, root, n, used)
      ensures lens[n] > root && Low(Huff(lens, n), root) != low ==>
                var e := t'[Low(Huff(lens, n), root)]; e.val + Pow2(e.op) <= next
    {
      DoneStep(lens, c, n);
      if n != c {
        assert Placed(t, lens, kind, root, n, used);
        if lens[n] > root {
          EnterLongOther(t, t', lens, kind, root, c, n, next, curr, low);
        }
      }
    }
  }

  lemma EnterLongOther(t: seq<Entry>, t': seq<Entry>, lens: seq<nat>, kind: CodeType, root: nat,
                       c: nat, n: nat, next: nat, curr: nat, low: nat)
    requires ValidLens(lens) && Fits(lens) && |lens| <= MaxSymbols(kind) && c < |lens| && n < |lens|
    requires root < lens[c] && root < lens[n] && n != c && low == Low(Huff(lens, c), root)
    requires Pow2(root) <= next && next + Pow2(curr) <= |t| && t[low] == Entry(curr, root, next)
    requires Replicated(t, t', next, curr, Shr(Huff(lens, c), root), lens[c] - root,
                        SymEntry(kind, c, lens[c] - root))
    requires PlacedLong(t, lens, kind, root, n, next + Pow2(curr))
    requires Low(Huff(lens, n), root) != low ==>
               var e := t[Low(Huff(lens, n), root)]; e.val + Pow2(e.op) <= next
    ensures PlacedLong(t', lens, kind, root, n, next + Pow2(curr))
    ensures t'[Low(Huff(lens, n), root)] == t[Low(Huff(lens, n), root)]
  {
    hide Huff, Fits, SymEntry, Low, Shr, Pow2;
    var lo := Low(Huff(lens, n), root);
    var e := t[lo];
    forall j | e.val <= j < e.val + Pow2(e.op) && Low(j - e.val, lens[n] - root) == Shr(Huff(lens, n), root)
      ensures t'[j] == SymEntry(kind, n, lens[n] - root)
    {
      if lo == low && Low(j - next, lens[c] - root) == Shr(Huff(lens, c), root) {
        BothMatch(lens, root, c, n, j - next);
      }
    }
  }

  /** An index of a sub-table that belonged to two codes would be a stream beginning with both. */
  lemma BothMatch(lens: seq<nat>, root: nat, c: nat, n: nat, i: nat)
    requires ValidLens(lens) && Fits(lens) && c < |lens| && n < |lens|
    requires root < lens[c] && root < lens[n] && Low(Huff(lens, c), root) == Low(Huff(lens, n), root)
    requires Low(i, lens[c] - root) == Shr(Huff(lens, c), root)
    requires Low(i, lens[n] - root) == Shr(Huff(lens, n), root)
    ensures c == n
  {
    hide Huff, Fits, Shl;
    var v := Low(Huff(lens, c), root) + Shl(i, root);
    LowShrUnique(Low(Huff(lens, c), root), i, root);
    forall x | x == c || x == n ensures Matches(lens, x, v) {
      LowSplit(v, root, lens[x] - root);
      LowShr(Huff(lens, x), root);
      assert root + (lens[x] - root) == lens[x];
    }
    PrefixFree(lens, c, n, v);
  }

  /** The next code starts a new root-size block: link a fresh sub-table to it. */
  lemma OpenSubTable(t: seq<Entry>, t': seq<Entry>, lens: seq<nat>, kind: CodeType, root: nat, c: nat,
                     next: nat, curr: nat, low: int, next': nat, curr': nat, low': nat)
    requires ValidLens(lens) && Fits(lens) && |lens| <= MaxSymbols(kind) && c < |lens| && root < lens[c]
    requires Filled(t, lens, kind, root, Start(lens, c), next, curr, low)
    requires next' == next + Pow2(curr) && next' + Pow2(curr') <= |t| && 1 <= curr' < 16
    requires low' == Low(Huff(lens, c), root) && t' == t[low' := Entry(curr', root, next')]
    requires forall n :: 0 <= n < |lens| && Done(lens, n, Start(lens, c)) && lens[n] > root ==>
               Low(Huff(lens, n), root) != low'
    ensures Filled(t', lens, kind, root, Start(lens, c), next', curr', low')
  {
    hide Huff, Fits, SymEntry, Start, Low, Placed;
    var used := next + Pow2(curr);
    forall n | 0 <= n < |lens| && Done(lens, n, Start(lens, c))
      ensures Placed(t', lens, kind, root, n, next' + Pow2(curr'))
      ensures lens[n] > root && Low(Huff(lens, n), root) != low' ==>
                var e := t'[Low(Huff(lens, n), root)]; e.val + Pow2(e.op) <= next'
    {
      assert Placed(t, lens, kind, root, n, used);
      if lens[n] <= root {
        ShortElsewhere(lens, root, c, n);
      }
      KeepsPlaced(t, t', lens, kind, root, n, used, low', next' + Pow2(curr'));
    }
  }

  /** Writing a root entry that belongs to no code already entered. */
  lemma KeepsPlaced(t: seq<Entry>, t': seq<Entry>, lens: seq<nat>, kind: CodeType, root: nat, n: nat,
                    used: nat, low: nat, used': nat)
    requires n < |lens| && n < MaxSymbols(kind) && low < Pow2(root) <= used <= used' <= |t|
    requires Placed(t, lens, kind, root, n, used)
    requires |t'| == |t| && forall i :: 0 <= i < |t| && i != low ==> t'[i] == t[i]
    requires if lens[n] <= root then Low(low, lens[n]) != Huff(lens, n) else Low(Huff(lens, n), root) != low
    ensures Placed(t', lens, kind, root, n, used')
    ensures lens[n] > root ==> (var i := Low(Huff(lens, n), root);
                                t'[i] == t[i] && t[i].val + Pow2(t[i].op) <= used)
  {
    hide Huff, Low, SymEntry;
  }

  /** A root index taken by a short code is not the index of a later code's sub-table. */
  lemma ShortElsewhere(lens: seq<nat>, root: nat, c: nat, n: nat)
    requires ValidLens(lens) && Fits(lens) && c < |lens| && n < |lens|
    requires 1 <= lens[n] <= root < lens[c]
    ensures Low(Low(Huff(lens, c), root), lens[n]) != Huff(lens, n)
  {
    HuffAtStart(lens, c);
    LowLow(Huff(lens, c), lens[n], root);
    if Matches(lens, n, Huff(lens, c)) {
      PrefixFree(lens, n, c, Huff(lens, c));
    }
  }

  /** No symbol's entry can be taken for a link. */
  lemma SymEntryIsNoLink(kind: CodeType, n: nat, bits: nat)
    requires n < MaxSymbols(kind)
    ensures !IsLink(SymEntry(kind, n, bits)) && SymEntry(kind, n, bits).bits == bits
    ensures SymEntry(kind, n, bits).(bits := 0) == SymEntry(kind, n, 0)
  {
    if kind == Lens && n >= 257 {
      assert forall i :: 0 <= i < 31 ==> LExt()[i] >= 16;
    }
    if kind == Dists {
      assert forall i :: 0 <= i < 32 ==> DExt()[i] >= 16;
    }
  }

  lemma ShortDecodes(t: seq<Entry>, lens: seq<nat>, kind: CodeType, root: nat, n: nat, v: nat)
    requires |lens| <= MaxSymbols(kind) && n < |lens| && Matches(lens, n, v)
    requires Pow2(root) <= |t| && lens[n] <= root && PlacedShort(t, lens, kind, root, n)
    ensures t[Low(v, root)] == SymEntry(kind, n, lens[n]) && !IsLink(t[Low(v, root)])
  {
    LowLow(v, lens[n], root);
    SymEntryIsNoLink(kind, n, lens[n]);
  }

  lemma LongDecodes(t: seq<Entry>, lens: seq<nat>, kind: CodeType, root: nat, n: nat, used: nat, v: nat)
    requires |lens| <= MaxSymbols(kind) && n < |lens| && Matches(lens, n, v)
    requires Pow2(root) <= |t| && used <= |t| && root < lens[n] && PlacedLong(t, lens, kind, root, n, used)
    ensures IsLink(t[Low(v, root)]) && t[Low(v, root)].bits == root
    ensures (var e := t[Low(v, root)];
             e.val + Pow2(e.op) <= |t| &&
             t[e.val + Low(Shr(v, root), e.op)] == SymEntry(kind, n, lens[n] - root))
  {
    var l := lens[n];
    LowLow(v, root, l);
    var e := t[Low(v, root)];
    var i := Low(Shr(v, root), e.op);
    LowLow(Shr(v, root), l - root, e.op);
    ShrLow(v, root, l);
    assert t[e.val + i] == SymEntry(kind, n, l - root);
  }

  /** A finished table decodes every symbol, whatever its lengths fit. */
  lemma FilledDecodes(t: seq<Entry>, lens: seq<nat>, kind: CodeType, root: nat, next: nat, curr: nat,
                      low: int, n: nat, v: nat)
    requires ValidLens(lens) && |lens| <= MaxSymbols(kind) && n < |lens|
    requires Filled(t, lens, kind, root, Base(lens, MAX_BITS + 1), next, curr, low)
    requires Matches(lens, n, v)
    ensures lens[n] <= root ==> t[Low(v, root)] == SymEntry(kind, n, lens[n]) && !IsLink(t[Low(v, root)])
    ensures lens[n] > root ==> IsLink(t[Low(v, root)]) && t[Low(v, root)].bits == root
    ensures lens[n] > root ==>
              (var e := t[Low(v, root)];
               e.val + Pow2(e.op) <= |t| &&
               t[e.val + Low(Shr(v, root), e.op)] == SymEntry(kind, n, lens[n] - root))
  {
    hide Filled, PlacedShort, PlacedLong, Huff, Low, Shr, Base, SymEntry;
    FilledPlaces(t, lens, kind, root, next, curr, low, n);
    if lens[n] <= root {
      ShortDecodes(t, lens, kind, root, n, v);
    } else {
      LongDecodes(t, lens, kind, root, n, next + Pow2(curr), v);
    }
  }

  lemma FilledPlaces(t: seq<Entry>, lens: seq<nat>, kind: CodeType, root: nat, next: nat, curr: nat,
                     low: int, n: nat)
    requires ValidLens(lens) && |lens| <= MaxSymbols(kind) && n < |lens| && lens[n] != 0
    requires Filled(t, lens, kind, root, Base(lens, MAX_BITS + 1), next, curr, low)
    ensures Pow2(root) <= next + Pow2(curr) <= |t| && Placed(t, lens, kind, root, n, next + Pow2(curr))
  {
    hide Placed, Base, Start, Low, Huff;
    StartByRank(lens, n);
    BaseMono(lens, lens[n] + 1, MAX_BITS + 1);
    assert Done(lens, n, Base(lens, MAX_BITS + 1));
  }

  /** A table filled for a complete code is a table for it. */
  lemma CompleteTable(t: seq<Entry>, lens: seq<nat>, kind: CodeType, root: nat, next: nat, curr: nat, low: int)
    requires ValidLens(lens) && |lens| <= MaxSymbols(kind) && Complete(lens) && 1 <= root
    requires Filled(t, lens, kind, root, Base(lens, MAX_BITS + 1), next, curr, low)
    requires Pow2(root) <= |t| && (kind == Codes ==> forall i :: 0 <= i < |lens| ==> lens[i] <= root)
    ensures TableFor(t, root, lens, kind)
  {
    hide Filled, Lookup, Pow2, Low, Shr, Base, SymEntry, Matches;
    CompleteLinks(t, lens, kind, root, next, curr, low);
    forall n, v: nat | 0 <= n < |lens| && Matches(lens, n, v)
      ensures Lookup(t, root, v) == SymEntry(kind, n, lens[n])
    {
      LookupDecodes(t, lens, kind, root, next, curr, low, n, v);
    }
    forall v: nat ensures !Unmatched(lens, v) {
      var n := Total(lens, v);
    }
  }

  lemma LookupDecodes(t: seq<Entry>, lens: seq<nat>, kind: CodeType, root: nat, next: nat, curr: nat,
                      low: int, n: nat, v: nat)
    requires ValidLens(lens) && |lens| <= MaxSymbols(kind) && n < |lens|
    requires Filled(t, lens, kind, root, Base(lens, MAX_BITS + 1), next, curr, low)
    requires Pow2(root) <= |t|
    requires forall i :: 0 <= i < Pow2(root) && IsLink(t[i]) ==> t[i].val + Pow2(t[i].op) <= |t|
    requires Matches(lens, n, v)
    ensures Lookup(t, root, v) == SymEntry(kind, n, lens[n])
  {
    hide Filled, Matches, Pow2, Low, Shr, Base, SymEntry;
    FilledDecodes(t, lens, kind, root, next, curr, low, n, v);
    if lens[n] > root {
      SymEntryIsNoLink(kind, n, lens[n] - root);
      SymEntryIsNoLink(kind, n, lens[n]);
    }
  }

  lemma CompleteLinks(t: seq<Entry>, lens: seq<nat>, kind: CodeType, root: nat, next: nat, curr: nat, low: int)
    requires ValidLens(lens) && |lens| <= MaxSymbols(kind) && Complete(lens)
    requires Filled(t, lens, kind, root, Base(lens, MAX_BITS + 1), next, curr, low)
    requires kind == Codes ==> forall i :: 0 <= i < |lens| ==> lens[i] <= root
    ensures Pow2(root) <= |t|
    ensures forall i :: 0 <= i < Pow2(root) && IsLink(t[i]) ==>
              t[i].val + Pow2(t[i].op) <= |t| && t[i].bits == root && kind != Codes
  {
    hide Pow2, Shr, Base, SymEntry, Matches, PlacedShort, PlacedLong, Complete;
    forall i | 0 <= i < Pow2(root) && IsLink(t[i])
      ensures t[i].val + Pow2(t[i].op) <= |t| && t[i].bits == root && kind != Codes
    {
      var n := Total(lens, i);
      FilledDecodes(t, lens, kind, root, next, curr, low, n, i);
      LowSmall(i, root);
    }
  }

  /** The one incomplete code allowed: a single symbol of one bit, and a marker for the other bit. */
  lemma OneBitTable(t: seq<Entry>, lens: seq<nat>, kind: CodeType)
    requires ValidLens(lens) && |lens| <= MaxSymbols(kind) && Acceptable(kind, lens)
    requires Fits(lens) && !Complete(lens) && forall i :: 0 <= i < |lens| ==> lens[i] <= 1
    requires Count(lens, 1) > 0
    requires 2 <= |t| && Filled(t, lens, kind, 1, Base(lens, MAX_BITS + 1), 0, 1, -1) && t[1] == INVALID
    ensures TableFor(t, 1, lens, kind)
  {
    hide Filled, Acceptable, Fits, Complete, Lookup, SymEntry, Huff, Low, Base;
    OneBitLens(lens);
    var s := SymbolWithRank(lens, 1, 0);
    forall n | 0 <= n < |lens| && lens[n] != 0 ensures n == s {
      RankBound(lens, n);
      RankInjective(lens, n, s);
    }
    OneBitEntries(t, lens, kind, s);
    forall v: nat ensures OneBit(t, lens, kind, s, v) {
      OneBitLookup(t, lens, kind, s, v);
    }
    forall n, v: nat | 0 <= n < |lens| && Matches(lens, n, v)
      ensures Lookup(t, 1, v) == SymEntry(kind, n, lens[n])
    {
      assert OneBit(t, lens, kind, s, v);
    }
    forall v: nat | Unmatched(lens, v) ensures Lookup(t, 1, v) == INVALID {
      assert OneBit(t, lens, kind, s, v);
      assert !Matches(lens, s, v);
    }
  }

  /** What one stream meets in the table of the one-bit code of symbol s. */
  ghost predicate OneBit(t: seq<Entry>, lens: seq<nat>, kind: CodeType, s: nat, v: nat)
    requires 2 <= |t| && !IsLink(t[0]) && !IsLink(t[1]) && s < |lens| && s < MaxSymbols(kind)
  {
    if Matches(lens, s, v) then Lookup(t, 1, v) == SymEntry(kind, s, 1) else Lookup(t, 1, v) == INVALID
  }

  lemma OneBitEntries(t: seq<Entry>, lens: seq<nat>, kind: CodeType, s: nat)
    requires ValidLens(lens) && |lens| <= MaxSymbols(kind) && s < |lens| && lens[s] == 1 && Rank(lens, s) == 0
    requires 2 <= |t| && Filled(t, lens, kind, 1, Base(lens, MAX_BITS + 1), 0, 1, -1) && t[1] == INVALID
    ensures t[0] == SymEntry(kind, s, 1) && !IsLink(t[0]) && !IsLink(t[1])
  {
    hide Filled, Base, SymEntry, Huff, Shr, ValidLens;
    HuffZero(lens, s);
    assert Low(0, 1) == 0;
    FilledDecodes(t, lens, kind, 1, 0, 1, -1, s, 0);
  }

  lemma OneBitLookup(t: seq<Entry>, lens: seq<nat>, kind: CodeType, s: nat, v: nat)
    requires s < |lens| && s < MaxSymbols(kind) && lens[s] == 1 && Rank(lens, s) == 0
    requires 2 <= |t| && t[0] == SymEntry(kind, s, 1) && !IsLink(t[0]) && t[1] == INVALID
    ensures OneBit(t, lens, kind, s, v)
  {
    hide SymEntry, Huff, Shr;
    HuffZero(lens, s);
    assert Low(v, 1) == v % 2;
  }

  lemma HuffZero(lens: seq<nat>, s: nat)
    requires s < |lens| && lens[s] == 1 && Rank(lens, s) == 0
    ensures Huff(lens, s) == 0
  {
    assert CodeOf(lens, s) == 0;
  }

  lemma OneBitLens(lens: seq<nat>)
    requires Fits(lens) && !Complete(lens) && forall i :: 0 <= i < |lens| ==> lens[i] <= 1
    requires Count(lens, 1) > 0
    ensures Count(lens, 1) == 1
  {
    if Count(lens, 1) >= 2 {
      TwoOneBitCodes(lens);
      assert false;
    }
  }

  lemma TwoOneBitCodes(lens: seq<nat>)
    requires Count(lens, 1) >= 2
    ensures Base(lens, MAX_BITS + 1) >= Pow2(MAX_BITS)
  {
    BaseMono(lens, 2, MAX_BITS + 1);
    ShlMono(2, Count(lens, 1), MAX_BITS - 1);
    ShlShl(1, 1, MAX_BITS - 1);
    assert Base(lens, 2) == Base(lens, 1) + Shl(Count(lens, 1), MAX_BITS - 1);
  }
}
