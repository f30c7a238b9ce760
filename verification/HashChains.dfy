/**
  The hash table of deflate.c: UPDATE_HASH, INSERT_STRING, slide_hash and CLEAR_HASH, and what a
  chain of the table holds.

  Positions are counted two ways: in the stream, and in the window, whose first byte is stream
  position `base`. The table holds window positions; the ghost set `seen` holds the stream positions
  of the strings inserted.
 */
module HashChains {
  import opened Bits
  import opened Xors

  const NIL: nat := 0

  // ----- the rolling hash -----

  /** hash_shift and hash_bits */
  datatype Hashing = Hashing(shift: nat, bits: nat)

  /** After three bytes the oldest byte no longer takes part, and the key has room for a byte. */
  predicate GoodHashing(p: Hashing) {
    8 <= p.bits <= 16 && 3 * p.shift >= p.bits
  }

  /** UPDATE_HASH */
  function Update(p: Hashing, h: nat, c: nat): (r: nat)
    ensures r < Pow2(p.bits)
  {
    Low(Xor(Shl(h, p.shift), c), p.bits)
  }

  /** The key of three bytes. */
  function Key(p: Hashing, a: byte, b: byte, c: byte): (r: nat)
    ensures r < Pow2(p.bits)
  {
    Update(p, Update(p, Update(p, 0, a), b), c)
  }

  /** Two states that agree on k bits agree on `shift` more after an update. */
  lemma UpdateAgree(p: Hashing, g: nat, h: nat, k: nat, c: nat)
    requires Low(g, k) == Low(h, k)
    ensures Low(Update(p, g, c), k + p.shift) == Low(Update(p, h, c), k + p.shift)
  {
    hide Low, Shl, Xor;
    var n := k + p.shift;
    ShlLow(g, p.shift, k);
    ShlLow(h, p.shift, k);
    if n <= p.bits {
      XorLow(Shl(g, p.shift), Shl(h, p.shift), c, n);
      LowLow(Xor(Shl(g, p.shift), c), n, p.bits);
      LowLow(Xor(Shl(h, p.shift), c), n, p.bits);
    } else {
      LowLow(Shl(g, p.shift), p.bits, n);
      LowLow(Shl(h, p.shift), p.bits, n);
      XorLow(Shl(g, p.shift), Shl(h, p.shift), c, p.bits);
    }
  }

  /** The running hash is the key of the last three bytes, whatever came before. */
  lemma Rolls(p: Hashing, h: nat, a: byte, b: byte, c: byte)
    requires GoodHashing(p)
    ensures Update(p, Update(p, Update(p, h, a), b), c) == Key(p, a, b, c)
  {
    hide Low, Shl, Xor, Update;
    LowNone(h);
    UpdateAgree(p, h, 0, 0, a);
    UpdateAgree(p, Update(p, h, a), Update(p, 0, a), p.shift, b);
    UpdateAgree(p, Update(p, Update(p, h, a), b), Update(p, Update(p, 0, a), b), 2 * p.shift, c);
    var x, y := Update(p, Update(p, Update(p, h, a), b), c), Key(p, a, b, c);
    Pow2Mono(p.bits, 3 * p.shift);
    LowSmall(x, 3 * p.shift);
    LowSmall(y, 3 * p.shift);
  }

  /** Equal keys and equal first two bytes: the third bytes are equal, since a byte fits in the key. */
  lemma ThirdByte(p: Hashing, a: byte, b: byte, c: byte, d: byte)
    requires GoodHashing(p) && Key(p, a, b, c) == Key(p, a, b, d)
    ensures c == d
  {
    hide Low, Shl, Xor;
    var x := Shl(Update(p, Update(p, 0, a), b), p.shift);
    XorSwap(x, c);
    XorSwap(x, d);
    XorLow(c, d, x, p.bits);
    Pow2Values();
    Pow2Mono(8, p.bits);
    LowSmall(c, p.bits);
    LowSmall(d, p.bits);
  }

  /** ins_h is the running hash of the bytes a, b just read. */
  ghost predicate Primed(p: Hashing, h: nat, a: byte, b: byte) {
    exists h0: nat :: Update(p, Update(p, h0, a), b) == h
  }

  lemma PrimedKey(p: Hashing, h: nat, a: byte, b: byte, c: byte)
    requires GoodHashing(p) && Primed(p, h, a, b)
    ensures Update(p, h, c) == Key(p, a, b, c) && Primed(p, Update(p, h, c), b, c)
  {
    hide Update;
    var h0: nat :| Update(p, Update(p, h0, a), b) == h;
    Rolls(p, h0, a, b, c);
    assert Update(p, Update(p, Update(p, h0, a), b), c) == Update(p, h, c);
  }

  // ----- the table -----

  /** The key of the string at stream position q. */
  function KeyAt(p: Hashing, data: seq<byte>, q: nat): nat
    requires q + 3 <= |data|
  {
    Key(p, data[q], data[q + 1], data[q + 2])
  }

  /** Window position u is the string at an inserted stream position with this key. */
  ghost predicate Leads(p: Hashing, data: seq<byte>, base: nat, seen: set<nat>, u: nat, key: nat) {
    base + u in seen && base + u + 3 <= |data| && KeyAt(p, data, base + u) == key
  }

  ghost predicate SeenBelow(data: seq<byte>, seen: set<nat>, bound: nat) {
    && (bound == 0 || bound + 2 <= |data|)
    && forall q <- seen :: q < bound
  }

  /**
    Window position u is the newest string of this key among those inserted before stream position
    `before`, or NIL if there is none. The string at window position 0 is lost: its position is NIL.
   */
  ghost predicate Newest(p: Hashing, data: seq<byte>, base: nat, seen: set<nat>, key: nat, before: nat, u: nat) {
    && (u != NIL ==> base + u < before && Leads(p, data, base, seen, u, key))
    && forall r :: r in seen && base + u < r < before && r + 3 <= |data| ==> KeyAt(p, data, r) != key
  }

  /** Every head is the newest string of its key. */
  ghost predicate HeadsOk(p: Hashing, head: seq<nat>, data: seq<byte>, base: nat, seen: set<nat>, bound: nat) {
    forall h :: 0 <= h < |head| ==> Newest(p, data, base, seen, h, bound, head[h])
  }

  /** The link of an inserted string whose slot has not been taken over is the next older string of its key. */
  ghost predicate LinkOk(p: Hashing, prev: seq<nat>, wbits: nat, data: seq<byte>, base: nat, seen: set<nat>, q: nat)
    requires |prev| == Pow2(wbits) && q >= base && q + 3 <= |data|
  {
    Newest(p, data, base, seen, KeyAt(p, data, q), q, prev[Low(q - base, wbits)])
  }

  ghost predicate LinksOk(p: Hashing, prev: seq<nat>, wbits: nat, data: seq<byte>, base: nat, seen: set<nat>, bound: nat) {
    && |prev| == Pow2(wbits)
    && forall q :: q in seen && q >= base && q + 3 <= |data| && q + |prev| >= bound ==>
         LinkOk(p, prev, wbits, data, base, seen, q)
  }

  /** Strings inserted later, and more input, do not matter. */
  lemma NewestStays(p: Hashing, data: seq<byte>, data': seq<byte>, base: nat, seen: set<nat>, seen': set<nat>, key: nat, before: nat, u: nat)
    requires Newest(p, data, base, seen, key, before, u) && data <= data' && before + 2 <= |data|
    requires seen <= seen' && forall r :: r in seen' && r < before ==> r in seen
    ensures Newest(p, data', base, seen', key, before, u)
  {
    hide Key;
    forall r | r in seen' && base + u < r < before && r + 3 <= |data'| ensures KeyAt(p, data', r) != key {
      assert KeyAt(p, data', r) == KeyAt(p, data, r);
    }
  }

  lemma NewestSlides(p: Hashing, data: seq<byte>, base: nat, seen: set<nat>, key: nat, before: nat, u: nat, wsize: nat)
    requires Newest(p, data, base, seen, key, before, u)
    ensures Newest(p, data, base + wsize, seen, key, before, Slid(u, wsize))
  {
    hide Key;
  }

  /** More input. */
  lemma TableMore(p: Hashing, head: seq<nat>, prev: seq<nat>, wbits: nat, data: seq<byte>, more: seq<byte>, base: nat,
                  seen: set<nat>, bound: nat)
    requires SeenBelow(data, seen, bound) && HeadsOk(p, head, data, base, seen, bound) && LinksOk(p, prev, wbits, data, base, seen, bound)
    ensures SeenBelow(data + more, seen, bound) && HeadsOk(p, head, data + more, base, seen, bound)
    ensures LinksOk(p, prev, wbits, data + more, base, seen, bound)
  {
    hide Key, Low, Pow2, Newest;
    forall h | 0 <= h < |head| ensures Newest(p, data + more, base, seen, h, bound, head[h]) {
      if bound == 0 {
        NoneBefore(p, data, base, seen, h, head[h]);
        NoneYet(p, data + more, base, seen, h, head[h]);
      } else {
        NewestStays(p, data, data + more, base, seen, seen, h, bound, head[h]);
      }
    }
    forall q | q in seen && q >= base && q + 3 <= |data + more| && q + |prev| >= bound
      ensures LinkOk(p, prev, wbits, data + more, base, seen, q)
    {
      assert q < bound;
      assert LinkOk(p, prev, wbits, data, base, seen, q);
      LowBelow(q - base, wbits);
      NewestStays(p, data, data + more, base, seen, seen, KeyAt(p, data, q), q, prev[Low(q - base, wbits)]);
    }
  }

  lemma NoneBefore(p: Hashing, data: seq<byte>, base: nat, seen: set<nat>, key: nat, u: nat)
    requires Newest(p, data, base, seen, key, 0, u)
    ensures u == NIL
  {}

  lemma NoneYet(p: Hashing, data: seq<byte>, base: nat, seen: set<nat>, key: nat, u: nat)
    requires u == NIL
    ensures Newest(p, data, base, seen, key, 0, u)
  {}

  /** m >= wsize ? m - wsize : NIL */
  function Slid(m: nat, wsize: nat): nat {
    if m >= wsize then m - wsize else NIL
  }

  lemma LowSlid(v: nat, k: nat)
    requires v >= Pow2(k)
    ensures Low(v - Pow2(k), k) == Low(v, k)
  {
    LowAddShl(v - Pow2(k), 1, k);
  }

  /** Two positions less than a window apart have different slots. */
  lemma SlotsDiffer(a: nat, b: nat, k: nat)
    requires a < b < a + Pow2(k)
    ensures Low(a, k) != Low(b, k)
  {
    if Low(a, k) == Low(b, k) {
      SameSlot(a, b, k);
    }
  }

  lemma SameSlot(a: nat, b: nat, k: nat)
    requires Low(a, k) == Low(b, k) && a < b
    ensures b >= a + Pow2(k)
  {
    hide Low, Shr, Shl;
    LowShr(a, k);
    LowShr(b, k);
    var x, y := Shr(a, k), Shr(b, k);
    if y <= x {
      ShlMono(y, x, k);
      assert false;
    }
    ShlMono(x + 1, y, k);
    ShlAdd(x, 1, k);
  }

  /** Sliding changes no stream position that the table still holds. */
  lemma TableSlides(p: Hashing, head: seq<nat>, head': seq<nat>, prev: seq<nat>, prev': seq<nat>, wbits: nat, data: seq<byte>, base: nat,
                    seen: set<nat>, bound: nat)
    requires HeadsOk(p, head, data, base, seen, bound) && LinksOk(p, prev, wbits, data, base, seen, bound)
    requires |head'| == |head| && forall i :: 0 <= i < |head| ==> head'[i] == Slid(head[i], Pow2(wbits))
    requires |prev'| == |prev| && forall i :: 0 <= i < |prev| ==> prev'[i] == Slid(prev[i], Pow2(wbits))
    ensures HeadsOk(p, head', data, base + Pow2(wbits), seen, bound) && LinksOk(p, prev', wbits, data, base + Pow2(wbits), seen, bound)
  {
    hide Key, Low, Pow2, Newest, Slid;
    var base' := base + Pow2(wbits);
    forall h | 0 <= h < |head'| ensures Newest(p, data, base', seen, h, bound, head'[h]) {
      NewestSlides(p, data, base, seen, h, bound, head[h], Pow2(wbits));
    }
    forall q | q in seen && q >= base' && q + 3 <= |data| && q + |prev'| >= bound
      ensures LinkOk(p, prev', wbits, data, base', seen, q)
    {
      assert LinkOk(p, prev, wbits, data, base, seen, q);
      LowSlid(q - base, wbits);
      LowBelow(q - base, wbits);
      NewestSlides(p, data, base, seen, KeyAt(p, data, q), q, prev[Low(q - base, wbits)], Pow2(wbits));
    }
  }

  /** A string newer than all others is the newest of its key, and changes nothing for other keys. */
  lemma NewestInserts(p: Hashing, data: seq<byte>, base: nat, seen: set<nat>, bound: nat, str: nat, h: nat, u: nat)
    requires SeenBelow(data, seen, bound) && bound <= base + str && base + str + 3 <= |data| && Newest(p, data, base, seen, h, bound, u)
    ensures var q := base + str;
            Newest(p, data, base, seen + {q}, h, q + 1, if h == KeyAt(p, data, q) then str else u) &&
            Newest(p, data, base, seen + {q}, h, q, u)
  {
    hide Key;
  }

  /** Inserting a string newer than all others. */
  lemma TableInserts(p: Hashing, head: seq<nat>, prev: seq<nat>, wbits: nat, data: seq<byte>, base: nat,
                     seen: set<nat>, bound: nat, str: nat)
    requires SeenBelow(data, seen, bound) && HeadsOk(p, head, data, base, seen, bound) && LinksOk(p, prev, wbits, data, base, seen, bound)
    requires bound <= base + str && base + str + 3 <= |data| && KeyAt(p, data, base + str) < |head|
    ensures Low(str, wbits) < |prev|
    ensures var q, key := base + str, KeyAt(p, data, base + str);
            var seen' := seen + {q};
            SeenBelow(data, seen', q + 1) && HeadsOk(p, head[key := str], data, base, seen', q + 1) &&
            LinksOk(p, prev[Low(str, wbits) := head[key]], wbits, data, base, seen', q + 1) &&
            Newest(p, data, base, seen', key, q, head[key])
  {
    hide Key, Low, Pow2, Newest;
    LowBelow(str, wbits);
    var q, key := base + str, KeyAt(p, data, base + str);
    var seen' := seen + {q};
    var prev' := prev[Low(str, wbits) := head[key]];
    var head' := head[key := str];
    forall h | 0 <= h < |head'| ensures Newest(p, data, base, seen', h, q + 1, head'[h]) {
      NewestInserts(p, data, base, seen, bound, str, h, head[h]);
    }
    NewestInserts(p, data, base, seen, bound, str, key, head[key]);
    forall r | r in seen' && r >= base && r + 3 <= |data| && r + |prev'| >= q + 1
      ensures LinkOk(p, prev', wbits, data, base, seen', r)
    {
      if r != q {
        assert r < bound;
        SlotsDiffer(r - base, str, wbits);
        LowBelow(r - base, wbits);
        assert LinkOk(p, prev, wbits, data, base, seen, r);
        NewestStays(p, data, data, base, seen, seen', KeyAt(p, data, r), r, prev[Low(r - base, wbits)]);
      }
    }
  }

  lemma NewestLeads(p: Hashing, data: seq<byte>, base: nat, seen: set<nat>, key: nat, before: nat, u: nat)
    requires Newest(p, data, base, seen, key, before, u)
    ensures u != NIL ==> base + u < before && Leads(p, data, base, seen, u, key)
  {}

  class HashTable {
    const p: Hashing
    const wbits: nat
    const head: array<nat>
    const prev: array<nat>
    var insH: nat
    ghost var seen: set<nat>    // stream positions of the strings inserted
    ghost var bound: nat        // they are all before this

    ghost predicate Shape() {
      head != prev && head.Length == Pow2(p.bits) && prev.Length == Pow2(wbits) && GoodHashing(p)
    }

    /** Every chain holds all inserted strings of one key that are in the window, newest first. */
    ghost predicate Chained(data: seq<byte>, base: nat)
      reads this`seen, this`bound, head, prev
    {
      && Shape() && SeenBelow(data, seen, bound)
      && HeadsOk(p, head[..], data, base, seen, bound) && LinksOk(p, prev[..], wbits, data, base, seen, bound)
    }

    /** A candidate for a match with the string at stream position q. */
    ghost predicate Candidate(data: seq<byte>, base: nat, q: nat, u: nat)
      reads this`seen
    {
      q + 3 <= |data| && base + u < q && Leads(p, data, base, seen, u, KeyAt(p, data, q))
    }

    /** Where the chain of the string at stream position q begins, q itself left out. */
    ghost predicate Heads(data: seq<byte>, base: nat, q: nat, u: nat)
      reads this`seen
    {
      q + 3 <= |data| && Newest(p, data, base, seen, KeyAt(p, data, q), q, u)
    }

    constructor (hashing: Hashing, windowBits: nat)
      requires GoodHashing(hashing)
      ensures p == hashing && wbits == windowBits && Shape() && seen == {} && bound == 0
      ensures fresh(head) && fresh(prev) && forall data :: Chained(data, 0)
    {
      p, wbits := hashing, windowBits;
      head, prev := new nat[Pow2(hashing.bits)](_ => NIL), new nat[Pow2(windowBits)](_ => NIL);
      insH, seen, bound := 0, {}, 0;
    }

    /** CLEAR_HASH: forget all strings. */
    method Clear(ghost data: seq<byte>, ghost base: nat)
      requires Shape()
      modifies this`seen, this`bound, head
      ensures Chained(data, base) && seen == {} && bound == 0
    {
      for n := 0 to head.Length
        invariant forall i :: 0 <= i < n ==> head[i] == NIL
      {
        head[n] := NIL;
      }
      seen, bound := {}, 0;
    }

    /** INSERT_STRING: c is the third byte of the string; the previous head of its chain is returned. */
    method Insert(str: nat, c: byte, ghost data: seq<byte>, ghost base: nat) returns (hashHead: nat)
      requires Chained(data, base) && bound <= base + str && base + str + 3 <= |data| && c == data[base + str + 2]
      requires Primed(p, insH, data[base + str], data[base + str + 1])
      modifies this, head, prev
      ensures Chained(data, base) && bound == base + str + 1 && seen == old(seen) + {base + str}
      ensures Primed(p, insH, data[base + str + 1], data[base + str + 2])
      ensures Heads(data, base, base + str, hashHead)
      ensures hashHead != NIL ==> Candidate(data, base, base + str, hashHead)
    {
      hide Update, Key, Low, HeadsOk, LinksOk, Primed, Pow2, Newest;
      PrimedKey(p, insH, data[base + str], data[base + str + 1], c);
      TableInserts(p, head[..], prev[..], wbits, data, base, seen, bound, str);
      insH := Update(p, insH, c);
      hashHead := head[insH];
      NewestLeads(p, data, base, seen + {base + str}, insH, base + str, hashHead);
      ghost var h0: seq<nat>, p0: seq<nat> := head[..], prev[..];
      prev[Low(str, wbits)] := hashHead;
      head[insH] := str;
      assert head[..] == h0[insH := str] && prev[..] == p0[Low(str, wbits) := h0[insH]];
      seen, bound := seen + {base + str}, base + str + 1;
    }

    /** slide_hash */
    method Slide(ghost data: seq<byte>, ghost base: nat)
      requires Chained(data, base)
      modifies head, prev
      ensures Chained(data, base + Pow2(wbits))
    {
      hide HeadsOk, LinksOk, Pow2;
      ghost var h0: seq<nat>, p0: seq<nat> := head[..], prev[..];
      var wsize := prev.Length;
      SlideAll(head, wsize);
      SlideAll(prev, wsize);
      TableSlides(p, h0, head[..], p0, prev[..], wbits, data, base, seen, bound);
    }

    lemma Grow(data: seq<byte>, more: seq<byte>, base: nat)
      requires Chained(data, base)
      ensures Chained(data + more, base)
    {
      hide HeadsOk, LinksOk, SeenBelow;
      TableMore(p, head[..], prev[..], wbits, data, more, base, seen, bound);
    }

    /** The next entry of a chain, which the slot still holds if the string is less than a window old. */
    method Follow(u: nat, ghost data: seq<byte>, ghost base: nat, ghost q: nat) returns (v: nat)
      requires Chained(data, base) && Candidate(data, base, q, u) && base + u + prev.Length >= bound
      ensures v != NIL ==> v < u && Candidate(data, base, q, v)
      ensures Low(u, wbits) < prev.Length && v == prev[Low(u, wbits)]
    {
      hide Key, Low, HeadsOk, Pow2, Newest;
      LowBelow(u, wbits);
      v := prev[Low(u, wbits)];
      assert LinkOk(p, prev[..], wbits, data, base, seen, base + u);
      NewestLeads(p, data, base, seen, KeyAt(p, data, q), base + u, v);
    }
  }

  method SlideAll(a: array<nat>, wsize: nat)
    modifies a
    ensures forall i :: 0 <= i < a.Length ==> a[i] == Slid(old(a[i]), wsize)
  {
    var n := a.Length;
    while n != 0
      invariant 0 <= n <= a.Length
      invariant forall i :: n <= i < a.Length ==> a[i] == Slid(old(a[i]), wsize)
      invariant forall i :: 0 <= i < n ==> a[i] == old(a[i])
    {
      n := n - 1;
      a[n] := Slid(a[n], wsize);
    }
  }
}
