/**
  longest_match of deflate.c: following a hash chain for the longest earlier occurrence of the
  string at strstart.
 */
module Matching {
  import opened Bits
  import opened Symbols
  import opened HashChains
  import opened Copying

  const MIN_LOOKAHEAD: nat := MAX_MATCH + MIN_MATCH + 1

  /** good_length, max_lazy, nice_length and max_chain of configuration_table */
  datatype Config = Config(good: nat, lazy: nat, nice: nat, chain: nat)

  /** The string of this length at stream position q also begins at m. */
  predicate IsMatch(data: seq<byte>, q: nat, m: int, len: nat) {
    0 <= m < q && q + len <= |data| && forall i :: q <= i < q + len ==> data[i] == data[i - (q - m)]
  }

  /** Copying from a match continues the data, also where the match overlaps the string. */
  lemma {:induction false} CopyIsData(data: seq<byte>, q: nat, m: nat, len: nat)
    requires IsMatch(data, q, m, len)
    ensures CopyMatch(data[..q], len, q - m) == data[..q + len]
  {
    if len == 0 {
      assert data[..q] == data[..q + 0];
    } else {
      CopyIsData(data, q, m, len - 1);
      CopySnoc(data[..q], len - 1, q - m);
      assert data[..q + len] == data[..q + len - 1] + [data[q + len - 1]];
    }
  }

  /** The window holds the data from stream position base on. */
  predicate WindowIs(w: seq<byte>, data: seq<byte>, base: nat) {
    base <= |data| && |data| - base <= |w| && forall i :: 0 <= i < |data| - base ==> w[i] == data[base + i]
  }

  /** The two strings in the window agree on their first n bytes. */
  predicate Agree(w: seq<byte>, a: nat, b: nat, n: nat) {
    a < b && b + n <= |w| && forall i :: b <= i < b + n ==> w[i] == w[i - (b - a)]
  }

  /** Compare the strings from the fourth byte on; the third is known to agree. */
  method MatchLength(window: array<byte>, cur: nat, strstart: nat) returns (len: nat)
    requires cur < strstart && strstart + MAX_MATCH <= window.Length && Agree(window[..], cur, strstart, 3)
    ensures 3 <= len <= MAX_MATCH && Agree(window[..], cur, strstart, len)
    ensures len < MAX_MATCH ==> window[cur + len] != window[strstart + len]
  {
    len := 3;
    while len < MAX_MATCH && window[strstart + len] == window[cur + len]
      invariant 3 <= len <= MAX_MATCH && Agree(window[..], cur, strstart, len)
    {
      len := len + 1;
    }
  }

  /** Strings of one key whose first two bytes agree have the third byte in common. */
  lemma ThirdAgrees(p: Hashing, w: seq<byte>, data: seq<byte>, base: nat, cur: nat, strstart: nat)
    requires GoodHashing(p) && WindowIs(w, data, base) && cur < strstart && base + strstart + 3 <= |data|
    requires KeyAt(p, data, base + cur) == KeyAt(p, data, base + strstart)
    requires w[cur] == w[strstart] && w[cur + 1] == w[strstart + 1]
    ensures Agree(w, cur, strstart, 3)
  {
    hide Key;
    ThirdByte(p, data[base + cur], data[base + cur + 1], data[base + cur + 2], data[base + strstart + 2]);
  }

  /** What agrees in the window, as far as there is data, is a match. */
  lemma AgreeIsMatch(w: seq<byte>, data: seq<byte>, base: nat, a: nat, b: nat, n: nat)
    requires WindowIs(w, data, base) && Agree(w, a, b, n) && base + b + n <= |data|
    ensures IsMatch(data, base + b, base + a, n)
  {
    forall i | base + b <= i < base + b + n ensures data[i] == data[i - (b - a)] {
      assert w[i - base] == w[i - base - (b - a)];
    }
  }

  /** The candidates that are looked at: n at most, none at or below the limit but the first. */
  ghost function Walk(prev: seq<nat>, wbits: nat, cur: nat, limit: nat, n: nat): seq<nat>
    requires |prev| == Pow2(wbits)
    decreases n
  {
    if n == 0 then []
    else
      var v := prev[Low(cur, wbits)];
      [cur] + if v <= limit then [] else Walk(prev, wbits, v, limit, n - 1)
  }

  /** The inserted strings of a key between two stream positions. */
  ghost function Newer(p: Hashing, data: seq<byte>, seen: set<nat>, key: nat, after: nat, before: nat): set<nat> {
    set x | x in seen && after < x < before && x + 3 <= |data| && KeyAt(p, data, x) == key
  }

  /**
    The search for the string at stream position q has left nothing out: an inserted string in the window,
    less than `dist` back, that agrees with it on n bytes has `chain` or more newer ones of its key before it.
   */
  ghost predicate Searched(p: Hashing, data: seq<byte>, base: nat, seen: set<nat>, q: nat, n: nat, dist: int, chain: nat) {
    forall r :: r in seen && base < r < q < r + dist && MIN_MATCH <= n && IsMatch(data, q, r, n) ==>
      |Newer(p, data, seen, KeyAt(p, data, q), r, q)| >= chain
  }

  /** A chain is followed without a gap: what is not among the first n candidates has n newer strings before it. */
  lemma {:induction false} WalkFinds(p: Hashing, prev: seq<nat>, wbits: nat, data: seq<byte>, base: nat, seen: set<nat>, bound: nat,
                                     key: nat, before: nat, cur: nat, limit: nat, n: nat, r: nat)
    requires |prev| == Pow2(wbits) && LinksOk(p, prev, wbits, data, base, seen, bound) && base + limit + |prev| >= bound
    requires cur != NIL && limit <= cur && n > 0 && Newest(p, data, base, seen, key, before, cur)
    requires r in seen && base + limit < r < before && r + 3 <= |data| && KeyAt(p, data, r) == key
    ensures r - base in Walk(prev, wbits, cur, limit, n) || |Newer(p, data, seen, key, r, before)| >= n
    decreases n
  {
    hide KeyAt, Low, Pow2, LinksOk, Newest, Newer;
    NewestNot(p, data, base, seen, key, before, cur, r);
    WalkOn(prev, wbits, cur, limit, n, [], Walk(prev, wbits, cur, limit, n));
    if r < base + cur {
      Farther(p, data, seen, key, r, base + cur, before);
      var v := NextNewest(p, prev, wbits, data, base, seen, bound, key, cur);
      NewestNot(p, data, base, seen, key, base + cur, v, r);
      if n > 1 {
        WalkFinds(p, prev, wbits, data, base, seen, bound, key, base + cur, v, limit, n - 1, r);
      }
    }
  }

  /** No inserted string of the key is newer than the newest. */
  lemma NewestNot(p: Hashing, data: seq<byte>, base: nat, seen: set<nat>, key: nat, before: nat, u: nat, r: nat)
    requires Newest(p, data, base, seen, key, before, u)
    requires r in seen && base < r < before && r + 3 <= |data| && KeyAt(p, data, r) == key
    ensures r <= base + u && u != NIL && base + u < before && base + u in seen && base + u + 3 <= |data| && KeyAt(p, data, base + u) == key
  {
    hide Key;
  }

  lemma NextNewest(p: Hashing, prev: seq<nat>, wbits: nat, data: seq<byte>, base: nat, seen: set<nat>, bound: nat, key: nat, cur: nat)
    returns (v: nat)
    requires LinksOk(p, prev, wbits, data, base, seen, bound) && base + cur + |prev| >= bound
    requires base + cur in seen && base + cur + 3 <= |data| && KeyAt(p, data, base + cur) == key
    ensures |prev| == Pow2(wbits) && Low(cur, wbits) < |prev| && v == prev[Low(cur, wbits)] && Newest(p, data, base, seen, key, base + cur, v)
  {
    hide Key, Low, Pow2, Newest;
    LowBelow(cur, wbits);
    v := prev[Low(cur, wbits)];
    assert LinkOk(p, prev, wbits, data, base, seen, base + cur);
  }

  lemma Farther(p: Hashing, data: seq<byte>, seen: set<nat>, key: nat, r: nat, x: nat, before: nat)
    requires r < x < before && x in seen && x + 3 <= |data| && KeyAt(p, data, x) == key
    ensures |Newer(p, data, seen, key, r, before)| >= |Newer(p, data, seen, key, r, x)| + 1
  {
    hide Key;
    Subset(Newer(p, data, seen, key, r, x) + {x}, Newer(p, data, seen, key, r, before));
  }

  lemma {:induction false} Subset(a: set<nat>, b: set<nat>)
    requires a <= b
    ensures |a| <= |b|
    decreases a
  {
    if a != {} {
      var x :| x in a;
      Subset(a - {x}, b - {x});
    }
  }

  /** What agrees in the data agrees in the window. */
  lemma MatchAgrees(w: seq<byte>, data: seq<byte>, base: nat, a: nat, b: nat, n: nat)
    requires WindowIs(w, data, base) && IsMatch(data, base + b, base + a, n)
    ensures Agree(w, a, b, n)
  {
    forall i | b <= i < b + n ensures w[i] == w[i - (b - a)] {
      assert data[base + i] == data[base + i - (b - a)];
    }
  }

  /** If the candidates on the walk are beaten, so is every inserted string within reach. */
  lemma BeatenSearched(t: HashTable, w: seq<byte>, data: seq<byte>, base: nat, strstart: nat, cur: nat, limit: nat, chain: nat, len: nat, dist: nat)
    requires t.Chained(data, base) && WindowIs(w, data, base) && t.bound == base + strstart + 1 && len < MAX_MATCH && chain > 0
    requires cur != NIL && t.Heads(data, base, base + strstart, cur) && limit <= cur && strstart < limit + |t.prev[..]|
    requires |t.prev[..]| == Pow2(t.wbits) && Beaten(w, Walk(t.prev[..], t.wbits, cur, limit, chain), strstart, len)
    requires limit == NIL || limit + dist <= strstart
    ensures Searched(t.p, data, base, t.seen, base + strstart, len + 1, dist, chain)
  {
    hide Key, Agree, WindowIs, Walk, IsMatch, Low, Pow2, Newer, HeadsOk, LinksOk, Newest;
    var q := base + strstart;
    forall r | r in t.seen && base < r < q < r + dist && MIN_MATCH <= len + 1 && IsMatch(data, q, r, len + 1)
      ensures |Newer(t.p, data, t.seen, KeyAt(t.p, data, q), r, q)| >= chain
    {
      SameKey(t.p, data, q, r, len + 1);
      WalkFinds(t.p, t.prev[..], t.wbits, data, base, t.seen, t.bound, KeyAt(t.p, data, q), q, cur, limit, chain, r);
      MatchAgrees(w, data, base, r - base, strstart, len + 1);
      NotBeaten(w, Walk(t.prev[..], t.wbits, cur, limit, chain), strstart, len, r - base);
    }
  }

  lemma SameKey(p: Hashing, data: seq<byte>, q: nat, r: nat, n: nat)
    requires IsMatch(data, q, r, n) && MIN_MATCH <= n
    ensures q + 3 <= |data| && r + 3 <= |data| && KeyAt(p, data, r) == KeyAt(p, data, q)
  {
    hide Key;
    assert forall i :: q <= i < q + 3 ==> data[i] == data[i - (q - r)];
    assert data[q] == data[r] && data[q + 1] == data[r + 1] && data[q + 2] == data[r + 2];
  }

  /** No candidate agrees with the string on more than n bytes, of those that count. */
  ghost predicate Beaten(w: seq<byte>, candidates: seq<nat>, strstart: nat, n: nat) {
    forall i, m: nat :: 0 <= i < |candidates| && m <= MAX_MATCH && Agree(w, candidates[i], strstart, m) ==> m <= n
  }

  lemma NotBeaten(w: seq<byte>, candidates: seq<nat>, strstart: nat, n: nat, u: nat)
    requires Beaten(w, candidates, strstart, n) && n < MAX_MATCH && Agree(w, u, strstart, n + 1)
    ensures u !in candidates
  {
    hide Agree;
  }

  lemma BeatenMore(w: seq<byte>, seen: seq<nat>, cur: nat, strstart: nat, n: nat, n': nat)
    requires Beaten(w, seen, strstart, n) && n <= n' && Beaten(w, [cur], strstart, n')
    ensures Beaten(w, seen + [cur], strstart, n')
  {
    hide Agree;
    forall i, m: nat | 0 <= i < |seen + [cur]| && m <= MAX_MATCH && Agree(w, (seen + [cur])[i], strstart, m) ensures m <= n' {
      if i == |seen| {
        assert Agree(w, [cur][0], strstart, m);
      }
    }
  }

  /** How far the candidate agrees with the string, if it is further than the best so far. */
  method TryCandidate(window: array<byte>, t: HashTable, strstart: nat, cur: nat, bestLen: nat, ghost data: seq<byte>, ghost base: nat)
    returns (len: nat)
    requires t.Chained(data, base) && WindowIs(window[..], data, base) && strstart + MIN_LOOKAHEAD <= window.Length
    requires t.Candidate(data, base, base + strstart, cur) && 1 <= bestLen <= MAX_MATCH
    ensures len <= MAX_MATCH && (len > bestLen ==> Agree(window[..], cur, strstart, len))
    ensures Beaten(window[..], [cur], strstart, if len > bestLen then len else bestLen)
  {
    hide KeyAt, WindowIs, HashTable.Chained, HashTable.Candidate;
    CandidateBefore(t, data, base, base + strstart, cur);
    len := 0;
    if window[cur + bestLen] == window[strstart + bestLen] && window[cur + bestLen - 1] == window[strstart + bestLen - 1]
       && window[cur] == window[strstart] && window[cur + 1] == window[strstart + 1] {
      CandidateKey(t, data, base, base + strstart, cur);
      ThirdAgrees(t.p, window[..], data, base, cur, strstart);
      len := MatchLength(window, cur, strstart);
      if len < MAX_MATCH { MismatchAt(window[..], cur, strstart, len); }
      if len <= bestLen { Weaker(window[..], [cur], strstart, len, bestLen); }
    } else {
      Mismatch(window[..], cur, strstart, bestLen);
    }
  }

  lemma AgreeAt(w: seq<byte>, cur: nat, strstart: nat, m: nat, n: nat)
    requires Agree(w, cur, strstart, m) && n < m
    ensures w[strstart + n] == w[cur + n]
  {
    assert w[strstart + n] == w[strstart + n - (strstart - cur)];
  }

  lemma MismatchAt(w: seq<byte>, cur: nat, strstart: nat, n: nat)
    requires cur < strstart && strstart + n < |w| && w[cur + n] != w[strstart + n]
    ensures Beaten(w, [cur], strstart, n)
  {
    forall i, m: nat | 0 <= i < |[cur]| && m <= MAX_MATCH && Agree(w, [cur][i], strstart, m) ensures m <= n {
      if m > n { AgreeAt(w, cur, strstart, m, n); }
    }
  }

  /** A string that differs in one of the bytes compared first is no improvement. */
  lemma Mismatch(w: seq<byte>, cur: nat, strstart: nat, bestLen: nat)
    requires cur < strstart && strstart + MAX_MATCH < |w| && 1 <= bestLen <= MAX_MATCH
    requires !(w[cur + bestLen] == w[strstart + bestLen] && w[cur + bestLen - 1] == w[strstart + bestLen - 1]
               && w[cur] == w[strstart] && w[cur + 1] == w[strstart + 1])
    ensures Beaten(w, [cur], strstart, bestLen)
  {
    hide Beaten, Agree;
    if w[cur + bestLen] != w[strstart + bestLen] {
      MismatchAt(w, cur, strstart, bestLen);
    } else if w[cur + bestLen - 1] != w[strstart + bestLen - 1] {
      MismatchAt(w, cur, strstart, bestLen - 1);
      Weaker(w, [cur], strstart, bestLen - 1, bestLen);
    } else if w[cur] != w[strstart] {
      MismatchAt(w, cur, strstart, 0);
      Weaker(w, [cur], strstart, 0, bestLen);
    } else if w[cur + 1] != w[strstart + 1] {
      MismatchAt(w, cur, strstart, 1);
      Weaker(w, [cur], strstart, 1, bestLen);
    }
  }

  lemma Weaker(w: seq<byte>, c: seq<nat>, strstart: nat, n: nat, n': nat)
    requires Beaten(w, c, strstart, n) && n <= n'
    ensures Beaten(w, c, strstart, n')
  {}

  /** The chain length and the length that is enough, for this search. */
  function ChainLength(c: Config, prevLength: nat): nat {
    if prevLength >= c.good then c.chain / 4 else c.chain
  }

  /**
    longest_match: a match longer than prevLength, or prevLength again (cut off at the lookahead).

    No candidate on the part of the chain that is searched agrees further, unless one was found
    that is nice enough; and the chain has all strings inserted. The strings may agree beyond the
    lookahead, in bytes that are not data; the result does not count them.
   */
  method LongestMatch(window: array<byte>, t: HashTable, c: Config, strstart: nat, lookahead: nat, curMatch: nat, prevLength: nat,
                      matchStart: int, ghost data: seq<byte>, ghost base: nat)
    returns (len: nat, start: int)
    requires t.Chained(data, base) && WindowIs(window[..], data, base) && window.Length == 2 * t.prev.Length
    requires MIN_LOOKAHEAD <= t.prev.Length && strstart + MIN_LOOKAHEAD <= window.Length && 4 <= c.chain
    requires |data| == base + strstart + lookahead && t.bound == base + strstart + 1
    requires curMatch != NIL && t.Candidate(data, base, base + strstart, curMatch) && t.Heads(data, base, base + strstart, curMatch)
    requires strstart - curMatch <= t.prev.Length - MIN_LOOKAHEAD && 1 <= prevLength <= MAX_MATCH
    ensures len <= lookahead && len <= MAX_MATCH && (prevLength <= len || len == lookahead)
    ensures len > prevLength ==>
              0 <= start < strstart && strstart - start <= t.prev.Length - MIN_LOOKAHEAD &&
              base + start in t.seen && IsMatch(data, base + strstart, base + start, len)
    ensures len < lookahead && len < c.nice && len < MAX_MATCH ==>
              Searched(t.p, data, base, t.seen, base + strstart, len + 1, t.prev.Length - MIN_LOOKAHEAD, ChainLength(c, prevLength))
    ensures len < lookahead && len < c.nice ==>
              var limit := if strstart + MIN_LOOKAHEAD > t.prev.Length then strstart + MIN_LOOKAHEAD - t.prev.Length else NIL;
              |t.prev[..]| == Pow2(t.wbits) &&
              Beaten(window[..], Walk(t.prev[..], t.wbits, curMatch, limit, ChainLength(c, prevLength)), strstart, len)
  {
    hide KeyAt, HeadsOk, LinksOk, SeenBelow, WindowIs, Agree, IsMatch, Leads, Pow2, GoodHashing, Low, Beaten, Walk,
         Searched, HashTable.Chained, HashTable.Candidate, HashTable.Heads, HashTable.Shape;
    var chainLength := c.chain;
    var niceMatch := c.nice;
    var maxDist := t.prev.Length - MIN_LOOKAHEAD;
    var limit: nat := if strstart > maxDist then strstart - maxDist else NIL;
    if prevLength >= c.good { chainLength := chainLength / 4; }
    if niceMatch > lookahead { niceMatch := lookahead; }
    TableSizes(t, data, base);
    var bestLen;
    bestLen, start := Search(window, t, strstart, curMatch, limit, chainLength, niceMatch, prevLength, matchStart, data, base);
    len := if bestLen <= lookahead then bestLen else lookahead;
    if len > prevLength {
      AgreePart(window[..], start, strstart, bestLen, len);
      AgreeIsMatch(window[..], data, base, start, strstart, len);
    }
    if len < lookahead && len < c.nice && len < MAX_MATCH {
      BeatenSearched(t, window[..], data, base, strstart, curMatch, limit, chainLength, len, maxDist);
    }
  }

  /** The loop of longest_match. */
  method Search(window: array<byte>, t: HashTable, strstart: nat, curMatch: nat, limit: nat, chain: nat, niceMatch: nat, prevLength: nat,
                matchStart: int, ghost data: seq<byte>, ghost base: nat)
    returns (bestLen: nat, start: int)
    requires t.Chained(data, base) && WindowIs(window[..], data, base) && t.prev.Length == Pow2(t.wbits)
    requires strstart + MIN_LOOKAHEAD <= window.Length && t.bound == base + strstart + 1 && chain > 0
    requires curMatch != NIL && t.Candidate(data, base, base + strstart, curMatch)
    requires limit <= curMatch && strstart <= limit + t.prev.Length - MIN_LOOKAHEAD && MIN_LOOKAHEAD <= t.prev.Length
    requires 1 <= prevLength <= MAX_MATCH
    ensures prevLength <= bestLen <= MAX_MATCH
    ensures bestLen > prevLength ==> limit <= start < strstart && base + start in t.seen && Agree(window[..], start, strstart, bestLen)
    ensures bestLen < niceMatch ==> Beaten(window[..], Walk(t.prev[..], t.wbits, curMatch, limit, chain), strstart, bestLen)
  {
    hide KeyAt, HeadsOk, LinksOk, SeenBelow, WindowIs, Agree, Leads, Pow2, GoodHashing, Low, Beaten, Walk,
         HashTable.Chained, HashTable.Candidate, HashTable.Shape;
    var cur: nat, chainLength := curMatch, chain;
    bestLen, start := prevLength, matchStart;
    ghost var q, seen := base + strstart, [];
    NothingBeaten(window[..], strstart, bestLen);
    ghost var walk := Walk(t.prev[..], t.wbits, curMatch, limit, chainLength);
    assert walk == seen + walk;
    while true
      invariant cur != NIL && t.Candidate(data, base, q, cur) && limit <= cur && chainLength > 0
      invariant prevLength <= bestLen <= MAX_MATCH
      invariant bestLen > prevLength ==> limit <= start < strstart && base + start in t.seen && Agree(window[..], start, strstart, bestLen)
      invariant Beaten(window[..], seen, strstart, bestLen) && walk == seen + Walk(t.prev[..], t.wbits, cur, limit, chainLength)
      decreases cur
    {
      CandidateBefore(t, data, base, q, cur);
      ghost var before := bestLen;
      var l := TryCandidate(window, t, strstart, cur, bestLen, data, base);
      if l > bestLen {
        start, bestLen := cur, l;
        if l >= niceMatch { return; }
      }
      BeatenMore(window[..], seen, cur, strstart, before, bestLen);
      WalkOn(t.prev[..], t.wbits, cur, limit, chainLength, seen, walk);
      seen := seen + [cur];
      var next := t.Follow(cur, data, base, q);
      if next <= limit { break; }
      chainLength := chainLength - 1;
      if chainLength == 0 { break; }
      cur := next;
    }
  }

  /** The walk goes on with the next entry of the chain, or ends. */
  lemma WalkOn(prev: seq<nat>, wbits: nat, cur: nat, limit: nat, n: nat, seen: seq<nat>, walk: seq<nat>)
    requires |prev| == Pow2(wbits) && n > 0 && walk == seen + Walk(prev, wbits, cur, limit, n)
    ensures var v := prev[Low(cur, wbits)];
            walk == if v <= limit || n == 1 then seen + [cur] else seen + [cur] + Walk(prev, wbits, v, limit, n - 1)
  {}

  lemma TableSizes(t: HashTable, data: seq<byte>, base: nat)
    requires t.Chained(data, base)
    ensures t.prev.Length == Pow2(t.wbits)
  {}

  lemma NothingBeaten(w: seq<byte>, strstart: nat, n: nat)
    ensures Beaten(w, [], strstart, n)
  {}

  lemma AgreePart(w: seq<byte>, a: nat, b: nat, n: nat, m: nat)
    requires Agree(w, a, b, n) && m <= n
    ensures Agree(w, a, b, m)
  {}

  lemma CandidateBefore(t: HashTable, data: seq<byte>, base: nat, q: nat, u: nat)
    requires t.Candidate(data, base, q, u)
    ensures base + u < q && q + 3 <= |data| && base + u in t.seen
  {}

  lemma CandidateKey(t: HashTable, data: seq<byte>, base: nat, q: nat, u: nat)
    requires t.Candidate(data, base, q, u) && t.Chained(data, base)
    ensures GoodHashing(t.p) && base + u + 3 <= |data| && q + 3 <= |data| && KeyAt(t.p, data, base + u) == KeyAt(t.p, data, q)
  {}
}
