/**
  The matching loops of deflate.c over a sliding window, and deflate() itself, for raw streams.

  The ghost field data is all the input read so far; window position 0 is stream position base.
 */
module Deflate {
  import opened Options
  import opened Bits
  import opened Xors
  import opened Symbols
  import opened Reference
  import opened BlockDecoding
  import opened BlockCost
  import opened BitWriter
  import opened FlushBlock
  import opened HashChains
  import opened Matching
  import opened Coverage

  datatype Strategy = Fast | Slow(filtered: bool) | Rle | Huff

  datatype BlockState = NeedMore | BlockDone | FinishStarted | FinishDone

  const TOO_FAR: nat := 4096
  const Z_OK: int := 0
  const Z_STREAM_END: int := 1
  const Z_STREAM_ERROR: int := -2
  const Z_BUF_ERROR: int := -5
  const Z_NO_FLUSH: nat := 0
  const Z_PARTIAL_FLUSH: nat := 1
  const Z_SYNC_FLUSH: nat := 2
  const Z_FULL_FLUSH: nat := 3
  const Z_FINISH: nat := 4
  const Z_BLOCK: nat := 5

  /** configuration_table, for the levels that compress */
  function ConfigurationTable(level: nat): (c: Config)
    requires 1 <= level <= 9
    ensures MIN_MATCH <= c.lazy && 4 <= c.chain && 8 <= c.nice
  {
    match level
    case 1 => Config(4, 4, 8, 4)
    case 2 => Config(4, 5, 16, 8)
    case 3 => Config(4, 6, 32, 32)
    case 4 => Config(4, 4, 16, 16)
    case 5 => Config(8, 16, 32, 32)
    case 6 => Config(8, 16, 128, 128)
    case 7 => Config(8, 32, 128, 256)
    case 8 => Config(32, 128, 258, 1024)
    case _ => Config(32, 258, 258, 4096)
  }

  datatype Turn = GoOn | Drained | Leave

  /** A moment in the work: the data so far, input and output positions. */
  datatype Mark = Mark(data: seq<byte>, next: nat, given: seq<byte>, availOut: nat)

  class Deflater {
    const enc: Encoder
    const t: HashTable
    const window: array<byte>
    const c: Config
    const strategy: Strategy
    var strstart: nat
    var lookahead: nat
    var insert: nat             // strings before strstart still to be inserted
    var matchLength: nat
    var matchStart: int
    var prevLength: nat
    var prevMatch: int
    var matchAvailable: bool
    var blockStart: int         // negative once the start of the block has left the window
    // z_stream
    var input: seq<byte>
    var next: nat
    var availOut: nat
    var sent: nat               // bytes of pending already copied out
    var finishing: bool         // status == FINISH_STATE
    var lastFlush: int
    ghost var given: seq<byte>  // what has been copied out
    ghost var data: seq<byte>
    ghost var base: nat
    ghost var ref: State
    ghost var floor: nat        // where the last full flush was: no match reaches back over it

    ghost predicate Layout() {
      Apart() && t.Shape() && window.Length == 2 * t.prev.Length && 512 <= t.prev.Length <= 32768 && 4 <= c.chain && 8 <= c.nice
    }

    /** The hash table is not one of the compressor's other arrays. */
    ghost predicate Apart() {
      && t.head != enc.lfc && t.head != enc.ldl && t.head != enc.dfc && t.head != enc.ddl && t.head != enc.dBuf && t.head != enc.lBuf
      && t.head != enc.slfc && t.head != enc.sldl && t.head != enc.sdfc && t.head != enc.sddl
      && t.prev != enc.lfc && t.prev != enc.ldl && t.prev != enc.dfc && t.prev != enc.ddl && t.prev != enc.dBuf && t.prev != enc.lBuf
      && t.prev != enc.slfc && t.prev != enc.sldl && t.prev != enc.sdfc && t.prev != enc.sddl
    }

    ghost predicate Framed()
      reads this`data, this`base, this`floor, this`strstart, this`lookahead, window
    {
      WindowIs(window[..], data, base) && |data| == base + strstart + lookahead && floor <= base
    }

    ghost predicate Indexed()
      reads this`data, this`base, this`strstart, this`insert, t, t.head, t.prev
    {
      insert <= 2 && insert <= strstart && t.Chained(data, base) && t.bound <= base + strstart - insert
    }

    /** The running hash has taken in the next two bytes, if a string can be inserted. */
    ghost predicate HashReady()
      reads this`data, this`base, this`strstart, this`insert, t
    {
      base + strstart + 3 <= |data| ==>
        insert == 0 && Primed(t.p, t.insH, data[base + strstart], data[base + strstart + 1])
    }

    /** The output and the tallied tokens account for the data up to `done`. */
    ghost predicate Coded(done: nat)
      reads this`data, this`ref, enc, enc.w, enc.lfc, enc.dfc, enc.slfc, enc.sldl, enc.sdfc, enc.sddl, enc.dBuf, enc.lBuf
    {
      enc.Valid() && Covers(data, enc.w.Stream(), ref, enc.Tokens(), done)
    }

    /** The stream is complete, and decodes to the data up to `done`. */
    ghost predicate Closed(done: nat)
      reads this`data, this`ref, enc.w
    {
      done <= |data| && Finished(data[..done], enc.w.Stream(), ref) && |enc.w.Stream()| % 8 == 0
    }

    /** What was copied out is the beginning of the stream. */
    ghost predicate Handed()
      reads this`sent, this`given, enc.w
    {
      sent == |given| && BytesBits(given) <= enc.w.Stream() && enc.w.Valid()
    }

    /** deflateInit2 for a raw stream, and deflateReset */
    constructor (level: nat, windowBits: nat, memLevel: nat, how: Strategy, fixedOnly: bool)
      requires 1 <= level <= 9 && 9 <= windowBits <= 15 && 1 <= memLevel <= 9
      ensures Valid() && data == [] && given == [] && !finishing && strategy == how && c == ConfigurationTable(level)
      ensures fresh(enc) && fresh(t) && fresh(window)
    {
      hide Covers, Encoder.Valid, Valid, HashTable.Chained, HashTable.Shape, GoodHashing, Pow2, Layout, Framed, Indexed, HashReady, Coded, Handed;
      BufferSizes(windowBits, memLevel);
      enc := new Encoder(Pow2(memLevel + 6), fixedOnly);
      t := new HashTable(Hashing((memLevel + 7 + MIN_MATCH - 1) / MIN_MATCH, memLevel + 7), windowBits);
      window := new byte[2 * Pow2(windowBits)](_ => 0);
      c, strategy := ConfigurationTable(level), how;
      strstart, lookahead, insert, blockStart := 0, 0, 0, 0;
      matchLength, prevLength, matchAvailable, matchStart, prevMatch := MIN_MATCH - 1, MIN_MATCH - 1, false, 0, 0;
      input, next, availOut, sent, finishing, lastFlush := [], 0, 0, 0, false, Z_NO_FLUSH;
      given, data, base, ref, floor := [], [], 0, INIT, 0;
      new;
      Initial();
    }

    lemma Initial()
      requires enc.Valid() && enc.Tokens() == [] && enc.w.Stream() == [] && Apart() && t.Shape() && t.Chained([], 0) && t.bound == 0
      requires window.Length == 2 * t.prev.Length && 512 <= t.prev.Length <= 32768 && 4 <= c.chain && 8 <= c.nice
      requires data == [] && ref == INIT && strstart == 0 && blockStart == 0 && base == 0 && floor == 0 && lookahead == 0 && insert == 0 && !finishing
      requires matchLength == 2 && prevLength == 2 && !matchAvailable && enc.lastLit == 0 && 2 < enc.litBufsize <= 0x8000
      requires next == 0 && input == [] && given == [] && sent == 0
      ensures Valid()
    {
      hide Covers, Encoder.Valid, HashTable.Chained, HashTable.Shape, Apart, Valid;
      enc.Knows();
      CoversNothing();
      Started();
    }

    // ----- tallying -----

    /** The tokens tallied for the next block. */
    ghost function Tallies(): seq<Token>
      reads enc, enc.dBuf, enc.lBuf
    {
      if enc.Buffered() then enc.Tokens() else []
    }

    /** _tr_tally_lit */
    method TallyLit(b: byte, ghost done: nat) returns (flush: bool)
      requires Coded(done) && done < |data| && b == data[done] && enc.lastLit + 1 < enc.litBufsize
      modifies enc`lastLit, enc.lfc, enc.dfc, enc.dBuf, enc.lBuf
      ensures Coded(done + 1) && enc.lastLit == old(enc.lastLit) + 1 && (flush <==> enc.lastLit == enc.litBufsize - 1)
      ensures Tallies() == old(Tallies()) + [Lit(b)]
    {
      hide Covers, Encoder.Valid, Encoder.Buffered;
      enc.Knows();
      CoversLiteral(data, enc.w.Stream(), ref, enc.Tokens(), done);
      flush := enc.Tally(0, b);
      enc.Knows();
    }

    /** _tr_tally_dist */
    method TallyDist(dist: nat, lc: nat, ghost done: nat) returns (flush: bool)
      requires Coded(done) && enc.lastLit + 1 < enc.litBufsize && 1 <= dist <= MAX_DISTANCE && lc <= MAX_MATCH - MIN_MATCH
      requires floor + dist <= done && IsMatch(data, done, done - dist, lc + MIN_MATCH)
      modifies enc`lastLit, enc.lfc, enc.dfc, enc.dBuf, enc.lBuf
      ensures Coded(done + lc + MIN_MATCH) && enc.lastLit == old(enc.lastLit) + 1 && (flush <==> enc.lastLit == enc.litBufsize - 1)
      ensures Tallies() == old(Tallies()) + [Match(lc + MIN_MATCH, dist)]
    {
      hide Covers, Encoder.Valid, Encoder.Buffered, IsMatch;
      enc.Knows();
      CoversMatch(data, enc.w.Stream(), ref, enc.Tokens(), done, done - dist, lc + MIN_MATCH);
      flush := enc.Tally(dist, lc);
      enc.Knows();
    }

    // ----- input -----

    /** Move the upper half of the window down. */
    method SlideWindow()
      requires Layout() && Framed() && Indexed() && strstart >= t.prev.Length + (t.prev.Length - MIN_LOOKAHEAD)
      modifies this`strstart, this`blockStart, this`matchStart, this`base, window, t.head, t.prev
      ensures Framed() && Indexed() && (old(HashReady()) ==> HashReady())
      ensures base == old(base) + t.prev.Length && strstart == old(strstart) - t.prev.Length
      ensures blockStart == old(blockStart) - t.prev.Length && matchStart == old(matchStart) - t.prev.Length
    {
      hide HeadsOk, LinksOk, SeenBelow, Pow2;
      var wsize := t.prev.Length;
      var more := window.Length - lookahead - strstart;
      ghost var w0: seq<byte> := window[..];
      MoveDown(window, wsize, wsize - more);
      WindowMoves(w0, window[..], data, base, wsize);
      t.Slide(data, base);
      base := base + wsize;
      matchStart := matchStart - wsize;
      strstart := strstart - wsize;
      blockStart := blockStart - wsize;
    }

    /** read_buf into the window. */
    method ReadBuf(more: nat, ghost done: nat) returns (n: nat)
      requires Layout() && Framed() && Indexed() && Coded(done) && next <= |input| && strstart + lookahead + more <= window.Length
      modifies this`next, this`lookahead, this`data, window
      ensures Framed() && Indexed() && Coded(done)
      ensures n == (if |input| - old(next) <= more then |input| - old(next) else more) && next == old(next) + n
      ensures data == old(data) + input[old(next)..next]
    {
      hide Covers, Encoder.Valid, Encoder.Buffered, HashTable.Chained;
      n := |input| - next;
      if n > more { n := more; }
      ghost var piece := input[next..next + n];
      enc.Knows();
      CoversMore(data, piece, enc.w.Stream(), ref, enc.Tokens(), done);
      CopyInput(window, strstart + lookahead, input, next, n);
      WindowGrows(window[..], data, base, piece);
      t.Grow(data, piece, base);
      next := next + n;
      lookahead := lookahead + n;
      data := data + piece;
    }

    /** The end of the strings before b that can be inserted: each needs three bytes. */
    ghost function Stop(b: int): int
      reads this`data
    {
      if b + 2 <= |data| then b else |data| - 2
    }

    /** Insert the strings that could not be inserted before for lack of input. */
    method InsertPending()
      requires Layout() && Framed() && Indexed()
      modifies this`insert, t, t.head, t.prev
      ensures Indexed() && HashReady() && insert <= old(insert) && (insert == 0 || lookahead + insert < MIN_MATCH)
      ensures t.seen == old(t.seen) + Span(old(base + strstart - insert), base + strstart - insert)
    {
      hide WindowIs, HashTable.Chained, HashTable.Candidate, HashTable.Heads, Primed, Update, Pow2, Span, GoodHashing;
      ghost var from := base + strstart - insert;
      SpanNone(from);
      if lookahead + insert >= MIN_MATCH {
        var str := strstart - insert;
        InWindow(str);
        PrimeFirst(t.p, window[str], window[str + 1]);
        t.insH := window[str];
        t.insH := Update(t.p, t.insH, window[str + 1]);
        while insert > 0
          invariant insert <= strstart && str == strstart - insert && insert <= old(insert) && lookahead + insert >= MIN_MATCH
          invariant t.seen == old(t.seen) + Span(from, base + str)
          invariant t.Chained(data, base) && t.bound <= base + str
          invariant Primed(t.p, t.insH, data[base + str], data[base + str + 1])
        {
          InWindow(str);
          SpanNext(from, base + str);
          var hashHead := t.Insert(str, window[str + MIN_MATCH - 1], data, base);
          str := str + 1;
          insert := insert - 1;
          if lookahead + insert < MIN_MATCH { break; }
        }
      }
    }

    lemma InWindow(str: nat)
      requires Framed() && base + str + 3 <= |data|
      ensures str + 3 <= window.Length && forall i :: str <= i < str + 3 ==> window[i] == data[base + i]
    {}

    lemma FrameFits()
      requires Framed()
      ensures strstart + lookahead <= window.Length && |data| == base + strstart + lookahead && floor <= base
    {}

    lemma PendingBefore()
      requires Indexed()
      ensures insert <= strstart
    {
      hide HashTable.Chained;
    }

    /** A turn of fill_window's loop: read, and insert what was pending. */
    method TakeMore(more: nat, ghost done: nat, ghost data0: seq<byte>, ghost next0: nat, ghost from: nat, ghost seen0: set<nat>)
      requires Layout() && Framed() && Indexed() && Coded(done) && next < |input| && strstart + lookahead + more <= window.Length && more > 0
      requires next0 <= next && data == data0 + input[next0..next]
      requires from <= base + strstart - insert && t.seen == seen0 + Span(from, base + strstart - insert)
      modifies this`next, this`lookahead, this`data, this`insert, window, t, t.head, t.prev
      ensures Framed() && Indexed() && HashReady() && Coded(done)
      ensures old(next) < next <= |input| && data == data0 + input[next0..next]
      ensures insert <= old(insert) && (insert == 0 || lookahead + insert < MIN_MATCH)
      ensures from <= base + strstart - insert && t.seen == seen0 + Span(from, base + strstart - insert)
    {
      hide WindowIs, HashTable.Chained, HashReady, Coded, Span, Primed;
      ghost var next1, data1, mid := next, data, base + strstart - insert;
      var n := ReadBuf(more, done);
      InputJoined(data0, data1, input, next0, next1, next);
      InsertPending();
      SpanJoin(from, mid, base + strstart - insert);
    }

    /** fill_window */
    method FillWindow(ghost done: nat)
      requires Layout() && Framed() && Indexed() && Coded(done) && next <= |input| && lookahead < MIN_LOOKAHEAD
      modifies this`strstart, this`blockStart, this`matchStart, this`base, this`next, this`lookahead, this`data, this`insert,
               window, t, t.head, t.prev
      ensures Framed() && Indexed() && Coded(done) && next <= |input|
      ensures old(HashReady()) ==> HashReady()
      ensures base + strstart == old(base + strstart) && base + blockStart == old(base + blockStart)
      ensures base + matchStart == old(base + matchStart)
      ensures old(next) <= next && data == old(data) + input[old(next)..next]
      ensures strstart + MIN_LOOKAHEAD <= window.Length && (lookahead >= MIN_LOOKAHEAD || next == |input|)
      ensures strstart == old(strstart) || strstart >= 250
      ensures insert <= old(insert) && (next == old(next) || insert == 0 || lookahead + insert < MIN_MATCH)
      ensures t.seen == old(t.seen) + Span(old(base + strstart - insert), base + strstart - insert)
    {
      hide Framed, Indexed, HashReady, Coded, Span;
      PendingBefore();
      ghost var from := base + strstart - insert;
      SpanNone(from);
      ghost var data0, next0 := data, next;
      while true
        invariant Framed() && Indexed() && Coded(done) && next <= |input| && lookahead < MIN_LOOKAHEAD
        invariant old(HashReady()) ==> HashReady()
        invariant base + strstart == old(base + strstart) && base + blockStart == old(base + blockStart)
        invariant base + matchStart == old(base + matchStart)
        invariant next0 <= next && data == data0 + input[next0..next]
        invariant strstart == old(strstart) || strstart >= 250
        invariant insert <= old(insert) && (next == old(next) || insert == 0 || lookahead + insert < MIN_MATCH)
        invariant from <= base + strstart - insert && t.seen == old(t.seen) + Span(from, base + strstart - insert)
        decreases |input| - next
      {
        FrameFits();
        var more := window.Length - lookahead - strstart;
        if strstart >= t.prev.Length + (t.prev.Length - MIN_LOOKAHEAD) {
          SlideWindow();
          more := more + t.prev.Length;
        }
        if next == |input| { break; }
        TakeMore(more, done, data0, next0, from, old(t.seen));
        if lookahead >= MIN_LOOKAHEAD || next == |input| { break; }
      }
    }

    // ----- output -----

    /** flush_pending */
    method FlushPending()
      requires Handed() && enc.Valid()
      modifies this`sent, this`given, this`availOut, enc.w
      ensures enc.Valid() && enc.Tokens() == old(enc.Tokens()) && enc.w.Stream() == old(enc.w.Stream()) && enc.w.biValid <= 7
      ensures Handed() && old(given) <= given && |given| - |old(given)| == old(availOut) - availOut
      ensures availOut > 0 ==> given == enc.w.pending
      ensures old(enc.w.biValid) <= 7 ==> (availOut == 0 <==> old(|enc.w.pending| - sent >= availOut))
    {
      hide Encoder.Distinct, Encoder.Sized, Encoder.Static, LitFreqs, DistFreqs, BitsOf;
      enc.w.Flush();
      GivenPending(given, enc.w.pending, enc.w.biBuf, enc.w.biValid);
      var len := |enc.w.pending| - sent;
      if len > availOut { len := availOut; }
      given := given + enc.w.pending[sent..sent + len];
      sent := sent + len;
      availOut := availOut - len;
      assert given == enc.w.pending[..sent];
      PendingGiven(enc.w.pending, sent, enc.w.biBuf, enc.w.biValid);
    }

    /** _tr_flush_block for the block that ends at strstart. */
    method WriteBlock(last: bool)
      requires Coded(base + strstart) && Framed() && base + blockStart == |ref.out|
      requires blockStart >= 0 ==> strstart - blockStart <= 0xffff
      modifies this`ref, enc`lastLit, enc.w, enc.lfc, enc.ldl, enc.dfc, enc.ddl
      ensures enc.Valid() && enc.lastLit == 0 && old(enc.w.Stream()) <= enc.w.Stream() && |ref.out| == base + strstart
      ensures if last then Closed(base + strstart) else Coded(base + strstart)
    {
      hide Covers, Encoder.Valid, Encoder.Buffered, IsBlock, Dynamic, FixedBits, Padding, Delivers, Finished, BitsOf, WindowIs;
      enc.Knows();
      ghost var done, s, stream, tokens := base + strstart, ref, enc.w.Stream(), enc.Tokens();
      CoversSizes(data, stream, s, tokens, done);
      var storedLen := strstart - blockStart;
      var buf: Option<seq<byte>> := None;
      if blockStart >= 0 {
        BlockInWindow();
        buf := Some(window[blockStart..strstart]);
      }
      ghost var bits, dyn, opt, stat;
      var form;
      form, bits, dyn, opt, stat := enc.FlushBlock(buf, storedLen, last, data[|ref.out|..done]);
      ref := Decoded(data, stream, s, tokens, done, bits, last);
      enc.Knows();
    }

    /** FLUSH_BLOCK_ONLY */
    method FlushBlockOnly(last: bool)
      requires Coded(base + strstart) && Framed() && Handed() && base + blockStart == |ref.out|
      requires blockStart >= 0 ==> strstart - blockStart <= 0xffff
      modifies this`blockStart, this`ref, this`sent, this`given, this`availOut, enc`lastLit, enc.w, enc.lfc, enc.ldl, enc.dfc, enc.ddl
      ensures enc.Valid() && enc.lastLit == 0 && Handed() && |ref.out| == base + strstart && blockStart == strstart
      ensures if last then Closed(base + strstart) else Coded(base + strstart)
      ensures old(given) <= given && |given| - |old(given)| == old(availOut) - availOut
      ensures availOut > 0 ==> given == enc.w.pending
      ensures enc.w.biValid <= 7
    {
      hide Covers, Encoder.Valid, Encoder.Buffered, Finished, BitsOf, BytesBits, WindowIs;
      WriteBlock(last);
      blockStart := strstart;
      enc.Knows();
      FlushPending();
      enc.Knows();
    }

    lemma BlockInWindow()
      requires Framed() && blockStart >= 0 && blockStart <= strstart
      ensures strstart <= window.Length && base + strstart <= |data| && window[blockStart..strstart] == data[base + blockStart..base + strstart]
    {}

    // ----- matching -----

    /** What holds at the head of every matching loop, up to the tallied tokens reaching `done`. */
    ghost predicate Core(done: nat)
      reads this`data, this`base, this`floor, this`strstart, this`lookahead, this`insert, this`ref, this`sent, this`given, this`blockStart,
            window, t, t.head, t.prev,
            enc, enc.w, enc.lfc, enc.dfc, enc.slfc, enc.sldl, enc.sdfc, enc.sddl, enc.dBuf, enc.lBuf
    {
      Layout() && Framed() && Indexed() && Coded(done) && Handed() && base + blockStart == |ref.out|
    }

    /** The string at window position pos has been inserted, if there is input for it. */
    ghost predicate InsertedAt(pos: nat)
      reads this`data, this`base, this`insert, t, t.head, t.prev
    {
      && insert <= 2 && insert <= pos && t.Chained(data, base)
      && if base + pos + 3 <= |data| then
           insert == 0 && t.bound == base + pos + 1 && Primed(t.p, t.insH, data[base + pos + 1], data[base + pos + 2])
         else t.bound <= base + pos - insert
    }

    /** INSERT_STRING at strstart, if there is lookahead for it. */
    method InsertString() returns (hashHead: nat)
      requires Layout() && Framed() && Indexed() && HashReady()
      modifies t, t.head, t.prev
      ensures InsertedAt(strstart) && t.seen == old(t.seen) + Span(base + strstart, Stop(base + strstart + 1))
      ensures if lookahead >= MIN_MATCH then t.Heads(data, base, base + strstart, hashHead) else hashHead == NIL
      ensures hashHead != NIL ==> base + strstart + 3 <= |data| && t.Candidate(data, base, base + strstart, hashHead)
    {
      hide WindowIs, Primed, HashTable.Chained, HashTable.Candidate, HashTable.Heads, Span;
      hashHead := NIL;
      SpanOne(base + strstart);
      if lookahead >= MIN_MATCH {
        InWindow(strstart);
        hashHead := t.Insert(strstart, window[strstart + 2], data, base);
      }
    }

    lemma NextString(pos: nat)
      requires InsertedAt(pos) && strstart == pos + 1
      ensures Indexed() && HashReady()
    {
      hide Primed, HashTable.Chained;
    }

    /** Insert the string after the one at pos. */
    method InsertNext(pos: nat)
      requires Layout() && InsertedAt(pos) && WindowIs(window[..], data, base) && base + pos + 4 <= |data|
      modifies t, t.head, t.prev
      ensures InsertedAt(pos + 1) && t.seen == old(t.seen) + Span(base + pos + 1, Stop(base + pos + 2))
    {
      hide Primed, HashTable.Chained, HashTable.Candidate, HashTable.Heads, Span;
      SpanOne(base + pos + 1);
      var _ := t.Insert(pos + 1, window[pos + 1 + 2], data, base);
    }

    lemma SkipNext(pos: nat)
      requires InsertedAt(pos) && base + pos + 4 > |data|
      ensures InsertedAt(pos + 1)
    {
      hide Primed, HashTable.Chained;
      BoundIs(pos);
    }

    lemma BoundIs(pos: nat)
      requires InsertedAt(pos)
      ensures t.bound <= base + pos + 1
    {
      hide Primed, HashTable.Chained;
    }


    // ----- deflate_fast -----

    /** Nothing on the chain is near enough to be looked at: nothing is missed. */
    lemma NothingNear(q: nat, u: nat, n: nat, prevLen: nat)
      requires Layout() && t.Heads(data, base, q, u) && (u == NIL || q >= base + u + t.prev.Length - MIN_LOOKAHEAD)
      ensures Searched(t.p, data, base, t.seen, q, n, t.prev.Length - MIN_LOOKAHEAD, ChainLength(c, prevLen))
    {
      hide IsMatch, KeyAt, Newer, Apart, HashTable.Shape, ChainLength, Leads;
      forall r | r in t.seen && r < q && MIN_MATCH <= n && IsMatch(data, q, r, n)
        ensures r + 3 <= |data| && KeyAt(t.p, data, r) == KeyAt(t.p, data, q)
      {
        SameKey(t.p, data, q, r, n);
      }
    }

    /** No match for the string at stream position q is longer than len, as far as the strings inserted before count. */
    ghost predicate Longest(d: seq<byte>, b: nat, seen: set<nat>, q: nat, len: nat, prevLen: nat)
    {
      q + len >= |d| || len >= c.nice || len >= MAX_MATCH ||
      Searched(t.p, d, b, seen, q, len + 1, t.prev.Length - MIN_LOOKAHEAD, ChainLength(c, prevLen))
    }

    /** Inserting the string itself makes no difference. */
    lemma LongestSame(d: seq<byte>, b: nat, seen: set<nat>, seen': set<nat>, q: nat, len: nat, prevLen: nat)
      requires Longest(d, b, seen', q, len, prevLen)
      requires forall r: nat :: r < q ==> (r in seen <==> r in seen')
      ensures Longest(d, b, seen, q, len, prevLen)
    {
      hide IsMatch, KeyAt, ChainLength;
      if q + 3 <= |d| {
        forall r | r < q && r in seen ensures Newer(t.p, d, seen, KeyAt(t.p, d, q), r, q) == Newer(t.p, d, seen', KeyAt(t.p, d, q), r, q) {}
      }
    }

    /** The match for the string at strstart, if the chain has one. */
    method FindMatch(hashHead: nat) returns (len: nat, start: int)
      requires Layout() && Framed() && InsertedAt(strstart) && strstart + MIN_LOOKAHEAD <= window.Length && 1 <= prevLength <= MAX_MATCH
      requires hashHead != NIL && base + strstart + 3 <= |data| && t.Candidate(data, base, base + strstart, hashHead)
      requires t.Heads(data, base, base + strstart, hashHead)
      requires strstart - hashHead <= t.prev.Length - MIN_LOOKAHEAD
      ensures len <= lookahead && len <= MAX_MATCH && (prevLength <= len || len == lookahead)
      ensures len > prevLength ==> MatchAt(base + strstart, base + start, len)
      ensures Longest(data, base, t.seen, base + strstart, len, prevLength)
    {
      hide WindowIs, Primed, HashTable.Chained, HashTable.Candidate, HashTable.Heads, IsMatch, Searched, Beaten, ChainLength;
      len, start := LongestMatch(window, t, c, strstart, lookahead, hashHead, prevLength, matchStart, data, base);
    }

    /** A match for the string at stream position q that can be tallied. */
    ghost predicate MatchAt(q: int, m: int, len: nat)
      reads this`data, this`floor
    {
      floor <= m < q && q - m <= t.prev.Length - MIN_LOOKAHEAD && IsMatch(data, q, m, len) && len <= MAX_MATCH
    }

    /** The turn of the loop up to tallying: the longest match the search is to find, or else none. */
    method FastFind()
      requires Core(base + strstart) && HashReady() && matchLength < MIN_MATCH && prevLength == MIN_MATCH - 1
      requires strstart + MIN_LOOKAHEAD <= window.Length
      modifies this`matchLength, this`matchStart, t, t.head, t.prev
      ensures Core2(base + strstart) && InsertedAt(strstart)
      ensures matchLength >= MIN_MATCH ==> MatchAt(base + strstart, base + matchStart, matchLength) && matchLength <= lookahead
      ensures Longest(data, base, old(t.seen), base + strstart, if matchLength < MIN_MATCH then MIN_MATCH - 1 else matchLength, prevLength)
      ensures t.seen == old(t.seen) + Span(base + strstart, Stop(base + strstart + 1))
    {
      hide Framed, Coded, Handed, InsertedAt, HashTable.Candidate, HashTable.Heads, MatchAt, Longest, Searched, Span, HashTable.Shape;
      LookaheadIs();
      var hashHead := InsertString();
      SpanOne(base + strstart);
      ghost var len: nat := MIN_MATCH - 1;
      if hashHead != NIL && strstart - hashHead <= t.prev.Length - MIN_LOOKAHEAD {
        matchLength, matchStart := FindMatch(hashHead);
        if matchLength >= MIN_MATCH { len := matchLength; }
        if lookahead < MIN_MATCH { LongestShort(); }
      } else if lookahead >= MIN_MATCH {
        NothingNear(base + strstart, hashHead, MIN_MATCH, prevLength);
        LongestIs(MIN_MATCH - 1);
      } else {
        LongestShort();
      }
      LongestSame(data, base, old(t.seen), t.seen, base + strstart, len, prevLength);
    }

    lemma LongestIs(len: nat)
      requires Searched(t.p, data, base, t.seen, base + strstart, len + 1, t.prev.Length - MIN_LOOKAHEAD, ChainLength(c, prevLength))
      ensures Longest(data, base, t.seen, base + strstart, len, prevLength)
    {}

    /** With less than three bytes ahead there is no match to be found. */
    lemma LongestShort()
      requires |data| < base + strstart + MIN_MATCH
      ensures Longest(data, base, t.seen, base + strstart, MIN_MATCH - 1, prevLength)
    {}

    /** Core without the hash table. */
    ghost predicate Core2(done: nat)
      reads this`data, this`base, this`floor, this`strstart, this`lookahead, this`ref, this`sent, this`given, this`blockStart,
            window, enc, enc.w, enc.lfc, enc.dfc, enc.slfc, enc.sldl, enc.sdfc, enc.sddl, enc.dBuf, enc.lBuf
    {
      Layout() && Framed() && Coded(done) && Handed() && base + blockStart == |ref.out|
    }

    lemma CoreParts(done: nat)
      requires Core2(done) && Indexed()
      ensures Core(done)
    {
      hide Layout, Framed, Indexed, Coded, Handed;
    }

    /** Past the match: insert its strings if it is short, otherwise start the hash anew. */
    method FastAdvance()
      requires Layout() && Framed() && InsertedAt(strstart) && MIN_MATCH <= matchLength <= lookahead && matchLength <= MAX_MATCH
      requires strstart + MIN_LOOKAHEAD <= window.Length
      modifies this`strstart, this`lookahead, this`matchLength, t, t.head, t.prev
      ensures Framed() && Indexed() && HashReady() && matchLength == 0
      ensures strstart == old(strstart + matchLength) && strstart + lookahead == old(strstart + lookahead)
      ensures t.seen == old(t.seen) + if old(matchLength) <= c.lazy && lookahead >= MIN_MATCH
                                      then Span(old(base + strstart) + 1, base + strstart) else {}
    {
      hide WindowIs, Primed, HashTable.Chained, InsertedAt, Span;
      BoundIs(strstart);
      NothingPending(strstart);
      ghost var from := base + strstart + 1;
      SpanNone(from);
      lookahead := lookahead - matchLength;
      if matchLength <= c.lazy && lookahead >= MIN_MATCH {
        ghost var end := strstart + matchLength;
        matchLength := matchLength - 1;
        while matchLength != 0
          invariant WindowIs(window[..], data, base) && InsertedAt(strstart)
          invariant strstart + matchLength + 1 == end && |data| == base + end + lookahead
          invariant from <= base + strstart + 1 && t.seen == old(t.seen) + Span(from, base + strstart + 1)
        {
          SpanJoin(from, base + strstart + 1, base + strstart + 2);
          InsertNext(strstart);
          strstart := strstart + 1;
          matchLength := matchLength - 1;
        }
        strstart := strstart + 1;
        NextString(strstart - 1);
      } else {
        strstart := strstart + matchLength;
        matchLength := 0;
        t.insH := window[strstart];
        t.insH := Update(t.p, t.insH, window[strstart + 1]);
        HashAnew();
      }
    }

    lemma NothingPending(pos: nat)
      requires InsertedAt(pos) && base + pos + 3 <= |data|
      ensures insert == 0 && t.Chained(data, base)
    {
      hide Primed, HashTable.Chained;
    }

    lemma HashAnew()
      requires Layout() && Framed() && insert == 0 && t.Chained(data, base) && t.bound <= base + strstart
      requires strstart + 1 < window.Length && t.insH == Update(t.p, window[strstart], window[strstart + 1])
      ensures Indexed() && HashReady()
    {
      hide Primed, HashTable.Chained, Update;
      if base + strstart + 3 <= |data| {
        PrimeFirst(t.p, window[strstart], window[strstart + 1]);
      }
    }

    lemma ByteAt(pos: nat)
      requires Framed() && base + pos < |data|
      ensures pos < window.Length && window[pos] == data[base + pos]
    {}

    lemma MatchFacts(q: nat, m: int, len: nat)
      requires MatchAt(q, m, len) && Layout()
      ensures floor <= m < q && q - m <= MAX_DISTANCE && IsMatch(data, q, m, len) && len <= MAX_MATCH
    {
      hide IsMatch;
    }

    /** The strings that deflate_fast inserts when it has coded len bytes from stream position q. */
    ghost function FastInserts(q: nat, len: nat, more: nat): set<nat>
      reads this`data
    {
      Span(q, Stop(q + 1)) + if MIN_MATCH <= len <= c.lazy && more >= MIN_MATCH then Span(q + 1, q + len) else {}
    }

    /** From stream position q, the longest match that the search is to find has been coded, or the literal. */
    ghost predicate FastCoded(q: nat, len: nat, m: int, tokens: seq<Token>, seen: set<nat>)
      reads this`data, this`base, this`floor, this`strstart, this`lookahead, this`prevLength, t, enc, enc.dBuf, enc.lBuf
    {
      && len >= MIN_MATCH - 1 && Longest(data, base, seen, q, len, prevLength)
      && (len >= MIN_MATCH ==> MatchAt(q, m, len) && Tallies() == tokens + [Match(len, q - m)])
      && (len < MIN_MATCH ==> q < |data| && Tallies() == tokens + [Lit(data[q])])
      && base + strstart == q + (if len >= MIN_MATCH then len else 1)
      && t.seen == seen + FastInserts(q, len, lookahead)
    }

    /**
      One turn of the loop: the longest match that the search is to find for the string at strstart, at stream
      position m, if it has three bytes or more; otherwise the literal.
     */
    method FastTurn() returns (flush: bool, ghost len: nat, ghost m: int)
      requires Core(base + strstart) && HashReady() && matchLength < MIN_MATCH && prevLength == MIN_MATCH - 1
      requires strstart + MIN_LOOKAHEAD <= window.Length && lookahead > 0 && enc.lastLit + 1 < enc.litBufsize
      modifies this`strstart, this`lookahead, this`matchLength, this`matchStart, t, t.head, t.prev,
               enc`lastLit, enc.lfc, enc.dfc, enc.dBuf, enc.lBuf
      ensures Core(base + strstart) && HashReady() && matchLength < MIN_MATCH
      ensures strstart + lookahead == old(strstart + lookahead) && old(strstart) < strstart <= old(strstart) + MAX_MATCH
      ensures enc.lastLit < enc.litBufsize && (flush <==> enc.lastLit == enc.litBufsize - 1)
      ensures FastCoded(old(base + strstart), len, m, old(Tallies()), old(t.seen))
    {
      hide Core, WindowIs, Indexed, HashReady, Coded, Handed, InsertedAt, MatchAt, Encoder.Valid, Longest, Span, Stop;
      FastFind();
      LookaheadIs();
      len, m := if matchLength < MIN_MATCH then MIN_MATCH - 1 else matchLength, base + matchStart;
      if matchLength >= MIN_MATCH {
        MatchIs(base + strstart, m, matchLength);
        flush := CodeMatch();
      } else {
        flush := CodeLiteral();
      }
      CoreParts(base + strstart);
    }

    lemma MatchIs(q: nat, m: int, len: nat)
      requires MatchAt(q, m, len)
      ensures len <= MAX_MATCH
    {
      hide IsMatch;
    }

    /** Tally the match and go past it. */
    method CodeMatch() returns (flush: bool)
      requires Layout() && Framed() && InsertedAt(strstart) && Coded(base + strstart) && enc.lastLit + 1 < enc.litBufsize
      requires MIN_MATCH <= matchLength <= lookahead && MatchAt(base + strstart, base + matchStart, matchLength)
      requires strstart + MIN_LOOKAHEAD <= window.Length
      modifies this`strstart, this`lookahead, this`matchLength, t, t.head, t.prev, enc`lastLit, enc.lfc, enc.dfc, enc.dBuf, enc.lBuf
      ensures Framed() && Indexed() && HashReady() && Coded(base + strstart) && matchLength == 0
      ensures strstart == old(strstart + matchLength) && strstart + lookahead == old(strstart + lookahead)
      ensures enc.lastLit < enc.litBufsize && (flush <==> enc.lastLit == enc.litBufsize - 1)
      ensures Tallies() == old(Tallies()) + [Match(old(matchLength), old(strstart - matchStart))]
      ensures t.seen == old(t.seen) + if old(matchLength) <= c.lazy && lookahead >= MIN_MATCH
                                      then Span(old(base + strstart) + 1, base + strstart) else {}
    {
      hide Framed, Indexed, HashReady, Coded, InsertedAt, MatchAt, Encoder.Valid, IsMatch, Span;
      ghost var q := base + strstart;
      MatchFacts(q, base + matchStart, matchLength);
      flush := TallyDist(strstart - matchStart, matchLength - MIN_MATCH, q);
      FastAdvance();
    }

    /** Tally the literal at strstart. */
    method CodeLiteral() returns (flush: bool)
      requires Layout() && Framed() && InsertedAt(strstart) && Coded(base + strstart) && enc.lastLit + 1 < enc.litBufsize && lookahead > 0
      modifies this`strstart, this`lookahead, enc`lastLit, enc.lfc, enc.dfc, enc.dBuf, enc.lBuf
      ensures Framed() && Indexed() && HashReady() && Coded(base + strstart)
      ensures strstart == old(strstart) + 1 && lookahead == old(lookahead) - 1
      ensures enc.lastLit < enc.litBufsize && (flush <==> enc.lastLit == enc.litBufsize - 1)
      ensures old(base + strstart) < |data| && Tallies() == old(Tallies()) + [Lit(data[old(base + strstart)])]
    {
      hide WindowIs, Indexed, HashReady, Coded, InsertedAt, Encoder.Valid;
      ByteAt(strstart);
      flush := TallyLit(window[strstart], base + strstart);
      StepOver();
    }



    /** What holds between turns of deflate_fast. */
    ghost predicate FastInv()
      reads this`data, this`base, this`floor, this`strstart, this`lookahead, this`insert, this`ref, this`sent, this`given, this`blockStart,
            this`matchLength, this`matchStart, this`prevLength, this`prevMatch, this`matchAvailable, this`next, this`input,
            window, t, t.head, t.prev,
            enc, enc.w, enc.lfc, enc.dfc, enc.slfc, enc.sldl, enc.sdfc, enc.sddl, enc.dBuf, enc.lBuf
    {
      Core(base + strstart) && HashReady() && matchLength < MIN_MATCH && prevLength == MIN_MATCH - 1 && Room()
    }

    /** There is room to tally, and input not beyond its end. */
    ghost predicate Room()
      reads this`next, this`input, enc
    {
      enc.lastLit + 1 < enc.litBufsize && next <= |input|
    }

    ghost function Here(): Mark
      reads this`next, this`data, this`given, this`availOut
    {
      Mark(data, next, given, availOut)
    }

    /** Since the mark, input taken in has become data, and output handed out has stayed. */
    ghost predicate Since(m: Mark)
      reads this`input, this`next, this`data, this`given, this`availOut
    {
      && m.next <= next <= |input| && data == m.data + input[m.next..next]
      && m.given <= given && |given| - |m.given| == m.availOut - availOut
    }

    lemma SinceHere()
      requires next <= |input|
      ensures Since(Here())
    {
      assert data + input[next..next] == data;
    }

    lemma SinceInput(m: Mark, n: Mark)
      requires m.next <= n.next <= next <= |input| && n.data == m.data + input[m.next..n.next] && data == n.data + input[n.next..next]
      requires m.given <= n.given == given && |n.given| - |m.given| == m.availOut - n.availOut && availOut == n.availOut
      ensures Since(m)
    {
      InputJoined(m.data, n.data, input, m.next, n.next, next);
    }

    lemma SinceOutput(m: Mark, n: Mark)
      requires m.next <= n.next == next <= |input| && n.data == m.data + input[m.next..n.next] && data == n.data
      requires m.given <= n.given <= given && |n.given| - |m.given| == m.availOut - n.availOut && |given| - |n.given| == n.availOut - availOut
      ensures Since(m)
    {}

    /** fill_window, at the head of a loop. */
    method Fill(ghost done: nat, ghost m: Mark)
      requires Core(done) && Since(m) && lookahead < MIN_LOOKAHEAD
      modifies this`strstart, this`blockStart, this`matchStart, this`base, this`next, this`lookahead, this`data, this`insert,
               window, t, t.head, t.prev
      ensures Core(done) && Since(m) && (old(HashReady()) ==> HashReady())
      ensures base + strstart == old(base + strstart) && base + matchStart == old(base + matchStart)
      ensures old(data) <= data && next <= |input| && |input| - next + lookahead == old(|input| - next + lookahead)
      ensures strstart + MIN_LOOKAHEAD <= window.Length && (lookahead >= MIN_LOOKAHEAD || next == |input|)
      ensures strstart == old(strstart) || strstart >= 250
    {
      hide WindowIs, Indexed, HashReady, Coded, Handed;
      ghost var n := Here();
      FillWindow(done);
      SinceInput(m, n);
    }

    /** How a matching loop may end. */
    ghost predicate Ended(bstate: BlockState, flush: nat)
      reads this`availOut, this`next, this`input, this`lookahead, this`data, this`ref, this`sent, this`given, enc, enc.w
    {
      match bstate
      case NeedMore => availOut == 0 || (flush == Z_NO_FLUSH && next == |input|)
      case BlockDone => lookahead == 0 && next == |input| && enc.lastLit == 0 && flush != Z_NO_FLUSH && flush != Z_FINISH
      case FinishStarted => Closed(|data|) && lookahead == 0 && next == |input| && flush == Z_FINISH && availOut == 0 && enc.w.biValid <= 7
      case FinishDone => Closed(|data|) && lookahead == 0 && next == |input| && flush == Z_FINISH && availOut > 0 && given == enc.w.pending && enc.w.biValid <= 7
    }

    lemma ApartIs()
      requires Layout()
      ensures Apart()
    {}

    /** FLUSH_BLOCK_ONLY, at the head of a loop. */
    method FlushTurn(ghost m: Mark)
      requires Core(base + strstart) && Since(m) && (blockStart >= 0 ==> strstart - blockStart <= 0xffff)
      modifies this`blockStart, this`ref, this`sent, this`given, this`availOut, enc`lastLit, enc.w, enc.lfc, enc.ldl, enc.dfc, enc.ddl
      ensures Core(base + strstart) && Since(m) && enc.lastLit == 0 && |ref.out| == base + strstart
    {
      hide Core, Layout, Framed, Indexed, Coded, Handed, Encoder.Valid, Since;
      ghost var n := Here();
      CoreSplit(base + strstart);
      SinceFacts(m);
      FlushBlockOnly(false);
      SinceOutput(m, n);
      CoreJoin(base + strstart);
    }

    /** FLUSH_BLOCK with the last block. */
    method FlushLast(ghost m: Mark)
      requires Core(base + strstart) && Since(m) && (blockStart >= 0 ==> strstart - blockStart <= 0xffff) && lookahead == 0
      modifies this`blockStart, this`ref, this`sent, this`given, this`availOut, enc`lastLit, enc.w, enc.lfc, enc.ldl, enc.dfc, enc.ddl
      ensures Closed(|data|) && Handed() && enc.Valid() && Since(m) && (availOut > 0 ==> given == enc.w.pending) && enc.w.biValid <= 7
    {
      hide Layout, Indexed, Coded, Handed, Closed, WindowIs, Encoder.Valid;
      ghost var n := Here();
      ApartIs();
      FlushBlockOnly(true);
      SinceOutput(m, n);
    }

    /** The end of every matching loop, when all input has been tallied. */
    method EndLoop(flush: nat, ghost m: Mark) returns (bstate: BlockState)
      requires Core(base + strstart) && Since(m) && lookahead == 0 && next == |input| && flush != Z_NO_FLUSH
      requires blockStart >= 0 ==> strstart - blockStart <= 0xffff
      modifies this`blockStart, this`ref, this`sent, this`given, this`availOut, enc`lastLit, enc.w, enc.lfc, enc.ldl, enc.dfc, enc.ddl
      ensures Ended(bstate, flush) && Since(m)
      ensures bstate.NeedMore? || bstate.BlockDone? ==> Core(base + strstart) && enc.lastLit == 0
      ensures bstate.FinishStarted? || bstate.FinishDone? ==> Handed() && enc.Valid()
    {
      hide Core, Closed, Handed, Since, Encoder.Valid;
      if flush == Z_FINISH {
        FlushLast(m);
        return if availOut == 0 then FinishStarted else FinishDone;
      }
      if enc.lastLit != 0 {
        FlushTurn(m);
        if availOut == 0 { return NeedMore; }
      }
      bstate := BlockDone;
    }

    lemma CodedValid(done: nat)
      requires Coded(done)
      ensures enc.Valid()
    {
      hide Encoder.Valid, Covers;
    }

    lemma CoreFacts(done: nat)
      requires Core(done)
      ensures |data| == base + strstart + lookahead && strstart + lookahead <= window.Length && window.Length <= 65536
    {
      hide Indexed, Coded, Handed;
    }

    /** s->insert at the end of a loop: the last strings could not be inserted for lack of input. */
    method LeaveStrings(ghost done: nat)
      requires Core(done) && lookahead == 0
      modifies this`insert
      ensures Core(done) && HashReady() && insert == if strstart < 2 then strstart else 2
    {
      hide Coded, Handed, WindowIs, HeadsOk, LinksOk;
      insert := if strstart < MIN_MATCH - 1 then strstart else MIN_MATCH - 1;
    }

    /** Bytes still to be tallied. */
    function Ahead(): int
      reads this`input, this`next, this`lookahead
    {
      |input| - next + lookahead
    }

    /** What a turn of a loop says about going on. */
    ghost predicate Turned(how: Turn, flush: nat)
      reads this`availOut, this`next, this`input, this`lookahead, this`blockStart, this`strstart
    {
      match how
      case GoOn => true
      case Drained => lookahead == 0 && next == |input| && flush != Z_NO_FLUSH && (blockStart >= 0 ==> strstart - blockStart <= 0xffff)
      case Leave => availOut == 0 || (flush == Z_NO_FLUSH && next == |input|)
    }

    /** The body of deflate_fast's loop. */
    method FastStep(flush: nat, ghost m: Mark) returns (how: Turn)
      requires FastInv() && Since(m)
      modifies this`strstart, this`lookahead, this`insert, this`matchLength, this`matchStart, this`blockStart, this`base, this`data,
               this`next, this`availOut, this`sent, this`given, this`ref, window, t, t.head, t.prev,
               enc`lastLit, enc.w, enc.lfc, enc.ldl, enc.dfc, enc.ddl, enc.dBuf, enc.lBuf
      ensures FastInv() && Since(m) && Turned(how, flush) && Ahead() <= old(Ahead()) && (how.GoOn? ==> Ahead() < old(Ahead()))
    {
      hide Core, HashReady, Since;
      CoreFacts(base + strstart);
      if lookahead < MIN_LOOKAHEAD {
        Fill(base + strstart, m);
        CoreFacts(base + strstart);
        if lookahead < MIN_LOOKAHEAD && flush == Z_NO_FLUSH { return Leave; }
        if lookahead == 0 { return Drained; }
      }
      how := FastTally(m);
    }

    /** A turn, and the flush it may call for. */
    method FastTally(ghost m: Mark) returns (how: Turn)
      requires FastInv() && Since(m) && lookahead > 0 && strstart + MIN_LOOKAHEAD <= window.Length <= 65536
      modifies this`strstart, this`lookahead, this`insert, this`matchLength, this`matchStart, this`blockStart, this`base, this`data,
               this`next, this`availOut, this`sent, this`given, this`ref, window, t, t.head, t.prev,
               enc`lastLit, enc.w, enc.lfc, enc.ldl, enc.dfc, enc.ddl, enc.dBuf, enc.lBuf
      ensures FastInv() && Since(m) && !how.Drained? && (how.Leave? ==> availOut == 0) && Ahead() < old(Ahead())
    {
      hide Core, HashReady, Since, FastCoded;
      var bflush;
      ghost var len, from;
      bflush, len, from := FastTurn();
      if bflush {
        FlushTurn(m);
        if availOut == 0 { return Leave; }
      }
      how := GoOn;
    }

    method FastEnd(flush: nat, ghost m: Mark) returns (bstate: BlockState)
      requires FastInv() && Since(m) && Turned(Drained, flush)
      modifies this`insert, this`blockStart, this`ref, this`sent, this`given, this`availOut,
               enc`lastLit, enc.w, enc.lfc, enc.ldl, enc.dfc, enc.ddl
      ensures Ended(bstate, flush) && Since(m)
      ensures bstate.NeedMore? || bstate.BlockDone? ==> FastInv()
      ensures bstate.FinishStarted? || bstate.FinishDone? ==> Handed() && enc.Valid()
    {
      hide Core, HashReady, Since, Closed, Handed, Encoder.Valid;
      LeaveStrings(base + strstart);
      bstate := EndLoop(flush, m);
    }

    lemma FastRoom()
      requires FastInv()
      ensures next <= |input| && Ahead() >= 0
    {
      hide Core, HashReady;
    }

    /** deflate_fast */
    method DeflateFast(flush: nat) returns (bstate: BlockState)
      requires FastInv()
      modifies this`strstart, this`lookahead, this`insert, this`matchLength, this`matchStart, this`blockStart, this`base, this`data,
               this`next, this`availOut, this`sent, this`given, this`ref, window, t, t.head, t.prev,
               enc`lastLit, enc.w, enc.lfc, enc.ldl, enc.dfc, enc.ddl, enc.dBuf, enc.lBuf
      ensures Ended(bstate, flush) && Since(old(Here()))
      ensures bstate.NeedMore? || bstate.BlockDone? ==> FastInv()
      ensures bstate.FinishStarted? || bstate.FinishDone? ==> Handed() && enc.Valid()
    {
      hide FastInv, Core, HashReady, Since, Closed, Handed, Encoder.Valid;
      ghost var m := Here();
      FastRoom();
      SinceHere();
      var how := GoOn;
      while how.GoOn?
        invariant FastInv() && Since(m) && Turned(how, flush)
        decreases Ahead(), how.GoOn?
      {
        FastRoom();
        how := FastStep(flush, m);
      }
      if how.Leave? { return NeedMore; }
      bstate := FastEnd(flush, m);
    }


    // ----- deflate_slow -----

    /** The stream position up to which tokens have been tallied: one literal may be in suspense. */
    ghost function Tallied(): int
      reads this`base, this`strstart, this`matchAvailable
    {
      base + strstart - if matchAvailable then 1 else 0
    }

    /** The match found for the string before strstart, if any, is a match still, and not longer than what is ahead. */
    ghost predicate Suspended()
      reads this`matchAvailable, this`matchLength, this`matchStart, this`lookahead, this`strstart, this`base, this`data, this`floor
    {
      && (matchAvailable ==> strstart >= 1)
      && (matchLength == MIN_MATCH - 1 ||
          (matchAvailable && MIN_MATCH <= matchLength <= lookahead + 1 && MatchAt(base + strstart - 1, base + matchStart, matchLength)))
    }

    /** What holds between turns of deflate_slow. */
    ghost predicate SlowInv()
      reads this`data, this`base, this`floor, this`strstart, this`lookahead, this`insert, this`ref, this`sent, this`given, this`blockStart,
            this`matchLength, this`matchStart, this`prevLength, this`prevMatch, this`matchAvailable, this`next, this`input,
            window, t, t.head, t.prev,
            enc, enc.w, enc.lfc, enc.dfc, enc.slfc, enc.sldl, enc.sdfc, enc.sddl, enc.dBuf, enc.lBuf
    {
      Tallied() >= 0 && Core(Tallied()) && HashReady() && Suspended() && Room()
    }

    /** The previous match, and the one found for the string at strstart if it is longer. */
    ghost predicate TwoMatches()
      reads this`matchAvailable, this`matchLength, this`matchStart, this`prevLength, this`prevMatch, this`lookahead, this`strstart,
            this`base, this`data, this`floor
    {
      && (matchAvailable ==> strstart >= 1)
      && (prevLength == MIN_MATCH - 1 ||
          (matchAvailable && MIN_MATCH <= prevLength <= lookahead + 1 && MatchAt(base + strstart - 1, base + prevMatch, prevLength)))
      && (matchLength > prevLength ==> matchLength <= lookahead && MatchAt(base + strstart, base + matchStart, matchLength))
      && (prevLength < MIN_MATCH ==> matchLength >= MIN_MATCH - 1)
    }

    /** A match that is found but too short to be worth it: with Z_FILTERED, or three bytes far back. */
    predicate Discarded(len: nat, dist: int) {
      len <= 5 && ((strategy.Slow? && strategy.filtered) || (len == MIN_MATCH && dist > TOO_FAR))
    }

    /**
      Find the longest match for the string at strstart, discarding those not longer than the previous one.
      The search finds `found` bytes, `dist` back.
     */
    method SlowFind() returns (ghost found: nat, ghost dist: int)
      requires Layout() && Framed() && Indexed() && HashReady() && Suspended() && strstart + MIN_LOOKAHEAD <= window.Length
      modifies this`matchLength, this`matchStart, this`prevLength, this`prevMatch, t, t.head, t.prev
      ensures InsertedAt(strstart) && TwoMatches()
      ensures prevLength == old(matchLength) && prevMatch == old(matchStart) && found >= MIN_MATCH - 1
      ensures prevLength < c.lazy ==> Longest(data, base, old(t.seen), base + strstart, found, prevLength)
      ensures matchLength == if prevLength >= c.lazy || Discarded(found, dist) then MIN_MATCH - 1 else found
      ensures matchLength >= MIN_MATCH ==> dist == strstart - matchStart
      ensures t.seen == old(t.seen) + Span(base + strstart, Stop(base + strstart + 1))
    {
      hide Framed, Indexed, HashReady, InsertedAt, HashTable.Candidate, HashTable.Heads, MatchAt, Layout, Longest, Span;
      LookaheadIs();
      SpanOne(base + strstart);
      var hashHead := InsertString();
      SuspendedLength();
      prevLength, prevMatch := matchLength, matchStart;
      matchLength, matchStart, found, dist := SlowSearch(hashHead);
      if prevLength < c.lazy {
        LongestSame(data, base, old(t.seen), t.seen, base + strstart, found, prevLength);
      }
    }

    lemma SuspendedLength()
      requires Suspended()
      ensures MIN_MATCH - 1 <= matchLength <= MAX_MATCH
    {
      hide IsMatch;
    }

    method SlowSearch(hashHead: nat) returns (len: nat, start: int, ghost found: nat, ghost dist: int)
      requires Layout() && Framed() && InsertedAt(strstart) && strstart + MIN_LOOKAHEAD <= window.Length
      requires MIN_MATCH - 1 <= prevLength <= MAX_MATCH
      requires if lookahead >= MIN_MATCH then t.Heads(data, base, base + strstart, hashHead) else hashHead == NIL
      requires hashHead != NIL ==> base + strstart + 3 <= |data| && t.Candidate(data, base, base + strstart, hashHead)
      ensures len > prevLength ==> len <= lookahead && MatchAt(base + strstart, base + start, len)
      ensures prevLength < MIN_MATCH ==> len >= MIN_MATCH - 1
      ensures found >= MIN_MATCH - 1 && (prevLength < c.lazy ==> Longest(data, base, t.seen, base + strstart, found, prevLength))
      ensures len == if prevLength >= c.lazy || Discarded(found, dist) then MIN_MATCH - 1 else found
      ensures len >= MIN_MATCH ==> dist == strstart - start
    {
      hide Framed, InsertedAt, HashTable.Candidate, HashTable.Heads, MatchAt, HashTable.Shape, Apart, Longest, Searched;
      len, start := MIN_MATCH - 1, matchStart;
      found, dist := MIN_MATCH - 1, 0;
      LookaheadIs();
      if hashHead != NIL && prevLength < c.lazy && strstart - hashHead <= t.prev.Length - MIN_LOOKAHEAD {
        len, start := FindMatch(hashHead);
        found, dist := len, strstart - start;
        if len <= 5 && ((strategy.Slow? && strategy.filtered) || (len == MIN_MATCH && strstart - start > TOO_FAR)) {
          len := MIN_MATCH - 1;
        }
      } else if lookahead >= MIN_MATCH {
        if prevLength < c.lazy {
          NothingNear(base + strstart, hashHead, MIN_MATCH, prevLength);
          LongestIs(MIN_MATCH - 1);
        }
      } else {
        LongestShort();
      }
    }

    lemma LookaheadIs()
      requires Framed()
      ensures |data| == base + strstart + lookahead
    {
      hide WindowIs;
    }


    /** Insert the string at strstart, unless it is too near the end. */
    method InsertIf(pos: nat, maxInsert: int)
      requires Layout() && pos > 0 && InsertedAt(pos - 1) && WindowIs(window[..], data, base) && |data| == base + maxInsert + MIN_MATCH
      modifies t, t.head, t.prev
      ensures InsertedAt(pos) && t.seen == old(t.seen) + Span(base + pos, Stop(base + pos + 1))
    {
      hide WindowIs, Primed, HashTable.Chained, InsertedAt, Span;
      if pos <= maxInsert {
        InsertNext(pos - 1);
      } else {
        SpanOne(base + pos);
        SkipNext(pos - 1);
      }
    }

    lemma SpanStop(a: nat, b: nat)
      requires a <= b
      ensures Span(a, Stop(b + 1)) == Span(a, Stop(b)) + Span(b, Stop(b + 1))
    {
      hide Span;
      SpanOne(b);
      if b + 3 <= |data| {
        SpanJoin(a, b, b + 1);
      }
    }

    /** Insert the strings of the previous match, of which the first two are inserted already. */
    method SlowAdvance()
      requires Layout() && Framed() && InsertedAt(strstart) && MIN_MATCH <= prevLength <= lookahead + 1
      modifies this`strstart, this`lookahead, this`prevLength, this`matchLength, this`matchAvailable, t, t.head, t.prev
      ensures Framed() && Indexed() && HashReady() && !matchAvailable && matchLength == MIN_MATCH - 1
      ensures strstart == old(strstart + prevLength) - 1 && strstart + lookahead == old(strstart + lookahead)
      ensures t.seen == old(t.seen) + Span(old(base + strstart) + 1, Stop(base + strstart))
    {
      hide WindowIs, Primed, HashTable.Chained, InsertedAt, Span;
      ghost var from := base + strstart + 1;
      SpanOne(from);
      var maxInsert := strstart + lookahead - MIN_MATCH;
      ghost var end := strstart + prevLength - 1;
      lookahead := lookahead - (prevLength - 1);
      prevLength := prevLength - 2;
      while prevLength != 0
        invariant WindowIs(window[..], data, base) && InsertedAt(strstart)
        invariant strstart + prevLength + 1 == end && |data| == base + end + lookahead == base + maxInsert + MIN_MATCH
        invariant from <= base + strstart + 1 && t.seen == old(t.seen) + Span(from, Stop(base + strstart + 1))
      {
        strstart := strstart + 1;
        SpanStop(from, base + strstart);
        InsertIf(strstart, maxInsert);
        prevLength := prevLength - 1;
      }
      matchAvailable := false;
      matchLength := MIN_MATCH - 1;
      strstart := strstart + 1;
      NextString(strstart - 1);
    }

    /** The previous match is the better one: tally it. */
    method SlowMatch() returns (flush: bool)
      requires Layout() && Framed() && InsertedAt(strstart) && TwoMatches() && prevLength >= MIN_MATCH
      requires strstart >= 1 && Coded(base + strstart - 1) && enc.lastLit + 1 < enc.litBufsize
      modifies this`strstart, this`lookahead, this`prevLength, this`matchLength, this`matchAvailable, t, t.head, t.prev,
               enc`lastLit, enc.lfc, enc.dfc, enc.dBuf, enc.lBuf
      ensures Framed() && Indexed() && HashReady() && !matchAvailable && matchLength == MIN_MATCH - 1 && Coded(base + strstart)
      ensures strstart + lookahead == old(strstart + lookahead) && old(strstart) < strstart <= old(strstart) + MAX_MATCH
      ensures enc.lastLit < enc.litBufsize && (flush <==> enc.lastLit == enc.litBufsize - 1)
      ensures Tallies() == old(Tallies()) + [Match(old(prevLength), old(strstart - 1 - prevMatch))]
      ensures strstart == old(strstart + prevLength) - 1 && t.seen == old(t.seen) + Span(old(base + strstart) + 1, Stop(base + strstart))
    {
      hide Framed, Indexed, HashReady, Coded, InsertedAt, MatchAt, IsMatch, Encoder.Valid, Span, Stop;
      MatchFacts(base + strstart - 1, base + prevMatch, prevLength);
      flush := TallyDist(strstart - 1 - prevMatch, prevLength - MIN_MATCH, base + strstart - 1);
      SlowAdvance();
    }

    /** No match at the previous position, or a longer one now: tally the literal that was in suspense. */
    method SlowLiteral()
      requires Framed() && strstart >= 1 && strstart <= 0xffff && base + strstart <= |data|
      requires Coded(base + strstart - 1) && Handed() && base + blockStart == |ref.out| && enc.lastLit + 1 < enc.litBufsize
      modifies this`blockStart, this`ref, this`sent, this`given, this`availOut,
               enc`lastLit, enc.w, enc.lfc, enc.ldl, enc.dfc, enc.ddl, enc.dBuf, enc.lBuf
      ensures Coded(base + strstart) && Handed() && base + blockStart == |ref.out| && enc.lastLit + 1 < enc.litBufsize
      ensures old(given) <= given && |given| - |old(given)| == old(availOut) - availOut
    {
      hide WindowIs, Coded, Handed, Encoder.Valid;
      ByteAt(strstart - 1);
      var flush := TallyLit(window[strstart - 1], base + strstart - 1);
      if flush {
        FlushBlockOnly(false);
      }
    }

    /** Go on to the next string. */
    method StepOver()
      requires Layout() && Framed() && InsertedAt(strstart) && lookahead > 0
      modifies this`strstart, this`lookahead
      ensures Framed() && Indexed() && HashReady()
      ensures strstart == old(strstart) + 1 && lookahead == old(lookahead) - 1
    {
      hide WindowIs, Indexed, HashReady, InsertedAt;
      strstart := strstart + 1;
      lookahead := lookahead - 1;
      NextString(strstart - 1);
    }


    /** After the search: what there is to tally, and everything else as before. */
    ghost predicate Found(done: nat)
      reads this`data, this`base, this`floor, this`strstart, this`lookahead, this`insert, this`ref, this`sent, this`given, this`blockStart,
            this`matchLength, this`matchStart, this`prevLength, this`prevMatch, this`matchAvailable, this`next, this`input,
            window, t, t.head, t.prev,
            enc, enc.w, enc.lfc, enc.dfc, enc.slfc, enc.sldl, enc.sdfc, enc.sddl, enc.dBuf, enc.lBuf
    {
      Layout() && Framed() && InsertedAt(strstart) && TwoMatches() && Coded(done) && Handed() && base + blockStart == |ref.out| && Room()
    }

    method SlowSearched(ghost done: nat) returns (ghost found: nat, ghost dist: int)
      requires Core(done) && HashReady() && Suspended() && Room() && strstart + MIN_LOOKAHEAD <= window.Length
      modifies this`matchLength, this`matchStart, this`prevLength, this`prevMatch, t, t.head, t.prev
      ensures Found(done)
      ensures prevLength == old(matchLength) && prevMatch == old(matchStart) && found >= MIN_MATCH - 1
      ensures prevLength < c.lazy ==> Longest(data, base, old(t.seen), base + strstart, found, prevLength)
      ensures matchLength == if prevLength >= c.lazy || Discarded(found, dist) then MIN_MATCH - 1 else found
      ensures matchLength >= MIN_MATCH ==> dist == strstart - matchStart
      ensures t.seen == old(t.seen) + Span(base + strstart, Stop(base + strstart + 1))
    {
      hide Layout, Framed, Indexed, HashReady, Coded, Handed, Suspended, InsertedAt, TwoMatches, Longest, Span, Stop, Discarded;
      ApartIs();
      found, dist := SlowFind();
    }

    method TallyMatch(ghost m: Mark) returns (leave: bool)
      requires strstart >= 1 && Found(base + strstart - 1) && prevLength >= MIN_MATCH && Since(m) && strstart + MIN_LOOKAHEAD <= window.Length
      modifies this`strstart, this`lookahead, this`matchLength, this`blockStart, this`availOut, this`sent, this`given, this`ref,
               this`prevLength, this`matchAvailable, t, t.head, t.prev,
               enc`lastLit, enc.w, enc.lfc, enc.ldl, enc.dfc, enc.ddl, enc.dBuf, enc.lBuf
      ensures SlowInv() && Since(m) && (leave ==> availOut == 0) && Ahead() < old(Ahead())
      ensures strstart == old(strstart + prevLength) - 1 && !matchAvailable && matchLength == MIN_MATCH - 1
      ensures t.seen == old(t.seen) + Span(old(base + strstart) + 1, Stop(base + strstart))
    {
      hide Framed, Indexed, HashReady, Coded, Handed, InsertedAt, MatchAt, Since, Span, Stop;
      var bflush := SlowMatch();
      leave := false;
      if bflush {
        FlushTurn(m);
        leave := availOut == 0;
      }
    }

    method TallyPrevious(ghost m: Mark) returns (leave: bool)
      requires strstart >= 1 && Found(base + strstart - 1) && matchAvailable && Since(m) && strstart + MIN_LOOKAHEAD <= window.Length
      requires lookahead > 0 && (prevLength < MIN_MATCH || matchLength > prevLength)
      modifies this`strstart, this`lookahead, this`matchLength, this`blockStart, this`availOut, this`sent, this`given, this`ref,
               this`prevLength, this`matchAvailable, t, t.head, t.prev,
               enc`lastLit, enc.w, enc.lfc, enc.ldl, enc.dfc, enc.ddl, enc.dBuf, enc.lBuf
      ensures SlowInv() && Since(m) && (leave ==> availOut == 0) && Ahead() < old(Ahead())
      ensures strstart == old(strstart) + 1 && matchAvailable && matchLength == old(matchLength) && t.seen == old(t.seen)
    {
      hide Framed, Indexed, HashReady, Coded, Handed, InsertedAt, MatchAt;
      ghost var n := Here();
      LookaheadIs();
      SlowLiteral();
      StepOver();
      SinceOutput(m, n);
      leave := availOut == 0;
    }

    method TallyLater(ghost m: Mark)
      requires Found(base + strstart) && !matchAvailable && Since(m) && strstart + MIN_LOOKAHEAD <= window.Length
      requires lookahead > 0
      modifies this`strstart, this`lookahead, this`matchLength, this`blockStart, this`availOut, this`sent, this`given, this`ref,
               this`prevLength, this`matchAvailable, t, t.head, t.prev,
               enc`lastLit, enc.w, enc.lfc, enc.ldl, enc.dfc, enc.ddl, enc.dBuf, enc.lBuf
      ensures SlowInv() && Since(m) && Ahead() < old(Ahead())
      ensures strstart == old(strstart) + 1 && matchAvailable && matchLength == old(matchLength) && t.seen == old(t.seen)
    {
      hide Framed, Indexed, HashReady, Coded, Handed, InsertedAt, MatchAt;
      matchAvailable := true;
      StepOver();
    }


    /**
      A turn. The search for the string at strstart finds `found` bytes, `dist` back, and takes it as a match of `len`
      bytes. If the match in suspense is as long, it is coded; otherwise the literal in suspense is, if there is
      one, and the new match is in suspense.
     */
    method SlowTally(ghost m: Mark) returns (leave: bool, ghost found: nat, ghost dist: int, ghost len: nat)
      requires SlowInv() && Since(m) && lookahead > 0 && strstart + MIN_LOOKAHEAD <= window.Length
      modifies this`strstart, this`lookahead, this`matchLength, this`matchStart, this`prevMatch, this`blockStart, this`availOut, this`sent, this`given, this`ref,
               this`prevLength, this`matchAvailable, t, t.head, t.prev,
               enc`lastLit, enc.w, enc.lfc, enc.ldl, enc.dfc, enc.ddl, enc.dBuf, enc.lBuf
      ensures SlowInv() && Since(m) && (leave ==> availOut == 0) && Ahead() < old(Ahead())
      ensures var q, prev := old(base + strstart), old(matchLength);
              && found >= MIN_MATCH - 1 && (prev < c.lazy ==> Longest(data, base, old(t.seen), q, found, prev))
              && len == (if prev >= c.lazy || Discarded(found, dist) then MIN_MATCH - 1 else found)
              && (prev >= MIN_MATCH && len <= prev ==>
                    base + strstart == q + prev - 1 && !matchAvailable && matchLength == MIN_MATCH - 1 &&
                    t.seen == old(t.seen) + Span(q, Stop(q + 1)) + Span(q + 1, Stop(base + strstart)))
              && (prev < MIN_MATCH || len > prev ==>
                    base + strstart == q + 1 && matchAvailable && matchLength == len && (len >= MIN_MATCH ==> dist == q - (base + matchStart)) &&
                    t.seen == old(t.seen) + Span(q, Stop(q + 1)))
    {
      hide Core, HashReady, Suspended, Room, Since, SlowInv, Found, Longest, Span, Stop, Discarded;
      ghost var done := SlowParts();
      found, dist := SlowSearched(done);
      len := matchLength;
      FoundMatches(done);
      if prevLength >= MIN_MATCH && matchLength <= prevLength {
        leave := TallyMatch(m);
      } else if matchAvailable {
        leave := TallyPrevious(m);
      } else {
        TallyLater(m);
        leave := false;
      }
    }

    lemma SlowParts() returns (done: nat)
      requires SlowInv()
      ensures done == Tallied() && Core(done) && HashReady() && Suspended() && Room() && (matchAvailable ==> strstart >= 1) && next <= |input|
    {
      hide Core, HashReady;
      done := Tallied();
    }

    lemma FoundMatches(done: nat)
      requires Found(done)
      ensures matchAvailable ==> strstart >= 1
      ensures prevLength >= MIN_MATCH ==> matchAvailable
    {
      hide Layout, Framed, InsertedAt, Coded, Handed, MatchAt;
    }

    /** fill_window keeps the suspended match. */
    method SlowFill(ghost m: Mark)
      requires SlowInv() && Since(m) && lookahead < MIN_LOOKAHEAD
      modifies this`strstart, this`lookahead, this`insert, this`matchLength, this`matchStart, this`blockStart, this`base, this`data,
               this`next, this`availOut, this`sent, this`given, this`ref, this`prevLength, this`prevMatch, this`matchAvailable,
               window, t, t.head, t.prev, enc`lastLit, enc.w, enc.lfc, enc.ldl, enc.dfc, enc.ddl, enc.dBuf, enc.lBuf
      ensures SlowInv() && Since(m) && Ahead() == old(Ahead())
      ensures strstart + MIN_LOOKAHEAD <= window.Length && (lookahead >= MIN_LOOKAHEAD || next == |input|)
    {
      hide Core, HashReady, Since, SlowInv, Suspended, Room;
      ghost var done := SlowParts();
      ghost var q, ms, d0 := base + strstart - 1, base + matchStart, data;
      SuspendedIs();
      RoomIs();
      CoreFacts(done);
      Fill(done, m);
      CoreFacts(done);
      if matchLength >= MIN_MATCH {
        MatchStays(d0, q, ms, matchLength);
      }
      SuspendedIs();
      RoomIs();
      SlowAgain(done);
    }

    lemma RoomIs()
      ensures Room() == (enc.lastLit + 1 < enc.litBufsize && next <= |input|)
    {}

    lemma SuspendedIs()
      ensures Suspended() == ((matchAvailable ==> strstart >= 1) &&
        (matchLength == MIN_MATCH - 1 ||
          (matchAvailable && MIN_MATCH <= matchLength <= lookahead + 1 && MatchAt(base + strstart - 1, base + matchStart, matchLength))))
    {
      hide MatchAt;
    }

    lemma MatchStays(d0: seq<byte>, q: int, ms: int, len: nat)
      requires d0 <= data && floor <= ms < q && q - ms <= t.prev.Length - MIN_LOOKAHEAD && IsMatch(d0, q, ms, len) && len <= MAX_MATCH
      ensures MatchAt(q, ms, len)
    {}

    lemma SlowAgain(done: nat)
      requires Core(done) && HashReady() && Suspended() && Room() && done == Tallied()
      ensures SlowInv()
    {
      hide Core, HashReady, Suspended, Room;
    }


    /** The body of deflate_slow's loop. */
    method SlowStep(flush: nat, ghost m: Mark) returns (how: Turn)
      requires SlowInv() && Since(m)
      modifies this`strstart, this`lookahead, this`insert, this`matchLength, this`matchStart, this`blockStart, this`base, this`data,
               this`next, this`availOut, this`sent, this`given, this`ref, this`prevLength, this`prevMatch, this`matchAvailable,
               window, t, t.head, t.prev, enc`lastLit, enc.w, enc.lfc, enc.ldl, enc.dfc, enc.ddl, enc.dBuf, enc.lBuf
      ensures SlowInv() && Since(m) && Turned(how, flush) && Ahead() <= old(Ahead()) && (how.GoOn? ==> Ahead() < old(Ahead()))
    {
      hide Core, HashReady, Since, SlowInv, Suspended, Room;
      ghost var done := SlowParts();
      CoreFacts(done);
      if lookahead < MIN_LOOKAHEAD {
        SlowFill(m);
        done := SlowParts();
        CoreFacts(done);
        if lookahead < MIN_LOOKAHEAD && flush == Z_NO_FLUSH { return Leave; }
        if lookahead == 0 { return Drained; }
      }
      var leave;
      ghost var found, dist, len;
      leave, found, dist, len := SlowTally(m);
      how := if leave then Leave else GoOn;
    }

    /** After the loop: the last literal, and the end of the block. */
    method SlowEnd(flush: nat, ghost m: Mark) returns (bstate: BlockState)
      requires SlowInv() && Since(m) && Turned(Drained, flush)
      modifies this`strstart, this`lookahead, this`insert, this`matchLength, this`matchStart, this`blockStart, this`base, this`data,
               this`next, this`availOut, this`sent, this`given, this`ref, this`prevLength, this`prevMatch, this`matchAvailable,
               window, t, t.head, t.prev, enc`lastLit, enc.w, enc.lfc, enc.ldl, enc.dfc, enc.ddl, enc.dBuf, enc.lBuf
      ensures Ended(bstate, flush) && Since(m) && !matchAvailable
      ensures bstate.NeedMore? || bstate.BlockDone? ==> SlowInv()
      ensures bstate.FinishStarted? || bstate.FinishDone? ==> Handed() && enc.Valid()
    {
      hide Core, HashReady, Since, Closed, Handed, Suspended, Ended, SlowInv, Room, Encoder.Valid;
      ghost var done := SlowParts();
      CoreFacts(done);
      RoomIs();
      SuspendedIs();
      if matchAvailable {
        LastLiteral(done);
      }
      LeaveStrings(base + strstart);
      bstate := EndLoop(flush, m);
      EndedIs(bstate, flush);
      RoomIs();
      SuspendedIs();
      if bstate.NeedMore? || bstate.BlockDone? {
        SlowAgain(base + strstart);
      }
    }

    lemma EndedIs(bstate: BlockState, flush: nat)
      requires Ended(bstate, flush)
      ensures bstate.BlockDone? ==> lookahead == 0
    {
      hide Closed;
    }

    /** The literal still in suspense when the input ends. */
    method LastLiteral(ghost done: nat)
      requires Core(done) && lookahead == 0 && strstart >= 1 && done == base + strstart - 1 && enc.lastLit + 1 < enc.litBufsize
      modifies this`matchAvailable, enc`lastLit, enc.lfc, enc.dfc, enc.dBuf, enc.lBuf
      ensures Core(done + 1) && !matchAvailable && enc.lastLit < enc.litBufsize
    {
      hide WindowIs, Coded, Indexed, Handed, Encoder.Valid;
      ByteAt(strstart - 1);
      var _ := TallyLit(window[strstart - 1], done);
      matchAvailable := false;
    }

    /** deflate_slow */
    method DeflateSlow(flush: nat) returns (bstate: BlockState)
      requires SlowInv()
      modifies this`strstart, this`lookahead, this`insert, this`matchLength, this`matchStart, this`blockStart, this`base, this`data,
               this`next, this`availOut, this`sent, this`given, this`ref, this`prevLength, this`prevMatch, this`matchAvailable,
               window, t, t.head, t.prev, enc`lastLit, enc.w, enc.lfc, enc.ldl, enc.dfc, enc.ddl, enc.dBuf, enc.lBuf
      ensures Ended(bstate, flush) && Since(old(Here())) && (bstate.BlockDone? ==> !matchAvailable)
      ensures bstate.NeedMore? || bstate.BlockDone? ==> SlowInv()
      ensures bstate.FinishStarted? || bstate.FinishDone? ==> Handed() && enc.Valid()
    {
      hide SlowInv, Core, HashReady, Since, Closed, Handed, Encoder.Valid;
      ghost var m := Here();
      SlowRoom();
      SinceHere();
      var how := GoOn;
      while how.GoOn?
        invariant SlowInv() && Since(m) && Turned(how, flush)
        decreases Ahead(), how.GoOn?
      {
        SlowRoom();
        how := SlowStep(flush, m);
      }
      if how.Leave? { return NeedMore; }
      bstate := SlowEnd(flush, m);
    }

    lemma SlowRoom()
      requires SlowInv()
      ensures next <= |input| && Ahead() >= 0
    {
      hide Core, HashReady;
    }


    // ----- deflate_rle -----

    /** What holds between turns of deflate_rle. */
    ghost predicate RleInv()
      reads this`data, this`base, this`floor, this`strstart, this`lookahead, this`insert, this`ref, this`sent, this`given, this`blockStart,
            this`matchLength, this`matchStart, this`prevLength, this`prevMatch, this`matchAvailable, this`next, this`input,
            window, t, t.head, t.prev,
            enc, enc.w, enc.lfc, enc.dfc, enc.slfc, enc.sldl, enc.sdfc, enc.sddl, enc.dBuf, enc.lBuf
    {
      Core(base + strstart) && Room()
    }

    /** No strings are inserted. */
    method LeaveNone(ghost done: nat)
      requires Core(done)
      modifies this`insert
      ensures Core(done)
    {
      hide Coded, Handed, Framed, HashTable.Chained;
      insert := 0;
    }

    /** len bytes repeat the one before them; fewer than three count as none, and no more are asked for than 258 or the lookahead. */
    ghost predicate IsRun(w: seq<byte>, at: nat, more: nat, len: nat)
      requires at + MAX_MATCH < |w|
    {
      && (len == 0 || (1 <= at && MIN_MATCH <= len <= MAX_MATCH && len <= more))
      && (forall i :: at <= i < at + len ==> w[i] == w[i - 1])
      && (len < MAX_MATCH && len < more && 1 <= at ==>
            if len == 0 then more < MIN_MATCH || exists i :: at <= i < at + 3 && w[i] != w[at - 1] else w[at + len] != w[at + len - 1])
    }

    /** How many times the byte before strstart repeats. */
    method RunLength() returns (len: nat)
      requires strstart + MAX_MATCH < window.Length
      ensures IsRun(window[..], strstart, lookahead, len)
    {
      len := 0;
      if lookahead >= MIN_MATCH && strstart > 0 {
        var prev := window[strstart - 1];
        if prev == window[strstart] && prev == window[strstart + 1] && prev == window[strstart + 2] {
          len := 3;
          while len < MAX_MATCH && prev == window[strstart + len]
            invariant 3 <= len <= MAX_MATCH && forall i :: strstart - 1 <= i < strstart + len ==> window[i] == prev
          {
            len := len + 1;
          }
          if len > lookahead { len := lookahead; }
        }
      }
    }

    lemma RunIsMatch(len: nat)
      requires Framed() && 1 <= strstart && len <= lookahead && len <= MAX_MATCH
      requires forall i :: strstart <= i < strstart + len ==> window[i] == window[i - 1]
      ensures IsMatch(data, base + strstart, base + strstart - 1, len)
    {
      forall i | base + strstart <= i < base + strstart + len ensures data[i] == data[i - 1] {
        assert window[i - base] == window[i - base - 1];
      }
    }

    /** The run at this place in the window has been coded, or the literal at stream position q. */
    ghost predicate RleCoded(at: nat, more: nat, q: nat, len: nat, tokens: seq<Token>)
      reads this`data, this`strstart, window, enc, enc.dBuf, enc.lBuf
    {
      && at + MAX_MATCH < window.Length && IsRun(window[..], at, more, len) && strstart == at + (if len > 0 then len else 1)
      && q < |data| && Tallies() == tokens + [if len > 0 then Match(len, 1) else Lit(data[q])]
    }

    /** One turn: a run or a literal. */
    method RleTurn() returns (flush: bool, ghost len: nat)
      requires Core(base + strstart) && strstart + MAX_MATCH < window.Length && lookahead > 0 && enc.lastLit + 1 < enc.litBufsize
      modifies this`strstart, this`lookahead, this`matchLength, enc`lastLit, enc.lfc, enc.dfc, enc.dBuf, enc.lBuf
      ensures Core(base + strstart)
      ensures strstart + lookahead == old(strstart + lookahead) && old(strstart) < strstart <= old(strstart) + MAX_MATCH
      ensures enc.lastLit < enc.litBufsize && (flush <==> enc.lastLit == enc.litBufsize - 1)
      ensures RleCoded(old(strstart), old(lookahead), old(base + strstart), len, old(Tallies()))
    {
      hide Core, Framed, Indexed, Coded, Handed, Encoder.Valid, IsMatch, Layout;
      CoreSplit(base + strstart);
      matchLength := RunLength();
      len := matchLength;
      RunIs(window[..], strstart, lookahead, len);
      flush := RleToken();
      CoreJoin(base + strstart);
    }

    lemma RunIs(w: seq<byte>, at: nat, more: nat, len: nat)
      requires at + MAX_MATCH < |w| && IsRun(w, at, more, len)
      ensures len == 0 || (1 <= at && MIN_MATCH <= len <= MAX_MATCH && len <= more)
      ensures forall i :: at <= i < at + len ==> w[i] == w[i - 1]
    {}

    /** Tally the run found, or the literal. */
    method RleToken() returns (flush: bool)
      requires Layout() && Framed() && Indexed() && Coded(base + strstart) && lookahead > 0 && enc.lastLit + 1 < enc.litBufsize
      requires matchLength == 0 || MIN_MATCH <= matchLength <= MAX_MATCH
      requires matchLength <= lookahead && (matchLength > 0 ==> 1 <= strstart)
      requires forall i :: strstart <= i < strstart + matchLength <= window.Length ==> window[i] == window[i - 1]
      modifies this`strstart, this`lookahead, this`matchLength, enc`lastLit, enc.lfc, enc.dfc, enc.dBuf, enc.lBuf
      ensures Framed() && Indexed() && Coded(base + strstart)
      ensures strstart + lookahead == old(strstart + lookahead) && strstart == old(strstart + if matchLength > 0 then matchLength else 1)
      ensures old(base + strstart) < |data|
      ensures Tallies() == old(Tallies()) + [if old(matchLength) > 0 then Match(old(matchLength), 1) else Lit(data[old(base + strstart)])]
      ensures enc.lastLit < enc.litBufsize && (flush <==> enc.lastLit == enc.litBufsize - 1)
    {
      hide Framed, Indexed, Coded, Handed, Encoder.Valid, IsMatch, Layout;
      ghost var q := base + strstart;
      ApartIs();
      FrameFits();
      if matchLength >= MIN_MATCH {
        RunIsMatch(matchLength);
        flush := TallyDist(1, matchLength - MIN_MATCH, q);
        StepPast(matchLength);
        matchLength := 0;
      } else {
        ByteAt(strstart);
        flush := TallyLit(window[strstart], q);
        StepPast(1);
      }
    }

    lemma CoreSplit(done: nat)
      requires Core(done)
      ensures Layout() && Framed() && Indexed() && Coded(done) && Handed() && base + blockStart == |ref.out| && Apart()
    {
      hide Framed, Indexed, Coded, Handed;
    }

    lemma CoreJoin(done: nat)
      requires Layout() && Framed() && Indexed() && Coded(done) && Handed() && base + blockStart == |ref.out|
      ensures Core(done)
    {
      hide Layout, Framed, Indexed, Coded, Handed;
    }

    method StepPast(n: nat)
      requires Framed() && Indexed() && n <= lookahead
      modifies this`strstart, this`lookahead
      ensures Framed() && Indexed() && strstart == old(strstart) + n && lookahead == old(lookahead) - n
    {
      hide WindowIs, HashTable.Chained;
      lookahead := lookahead - n;
      strstart := strstart + n;
    }

    /** The body of deflate_rle's loop. */
    method RleStep(flush: nat, ghost m: Mark) returns (how: Turn)
      requires RleInv() && Since(m)
      modifies this`strstart, this`lookahead, this`insert, this`matchLength, this`matchStart, this`blockStart, this`base, this`data,
               this`next, this`availOut, this`sent, this`given, this`ref, window, t, t.head, t.prev,
               enc`lastLit, enc.w, enc.lfc, enc.ldl, enc.dfc, enc.ddl, enc.dBuf, enc.lBuf
      ensures RleInv() && Since(m) && Turned(how, flush) && Ahead() <= old(Ahead()) && (how.GoOn? ==> Ahead() < old(Ahead()))
    {
      hide Core, Since;
      CoreFacts(base + strstart);
      if lookahead <= MAX_MATCH {
        Fill(base + strstart, m);
        CoreFacts(base + strstart);
        if lookahead <= MAX_MATCH && flush == Z_NO_FLUSH { return Leave; }
        if lookahead == 0 { return Drained; }
      }
      how := RleTally(m);
    }

    method RleTally(ghost m: Mark) returns (how: Turn)
      requires RleInv() && Since(m) && lookahead > 0 && strstart + MAX_MATCH < window.Length <= 65536
      modifies this`strstart, this`lookahead, this`insert, this`matchLength, this`matchStart, this`blockStart, this`base, this`data,
               this`next, this`availOut, this`sent, this`given, this`ref, window, t, t.head, t.prev,
               enc`lastLit, enc.w, enc.lfc, enc.ldl, enc.dfc, enc.ddl, enc.dBuf, enc.lBuf
      ensures RleInv() && Since(m) && !how.Drained? && (how.Leave? ==> availOut == 0) && Ahead() < old(Ahead())
    {
      hide Core, Since, RleCoded;
      var bflush;
      ghost var len;
      bflush, len := RleTurn();
      if bflush {
        FlushTurn(m);
        if availOut == 0 { return Leave; }
      }
      how := GoOn;
    }

    method RleEnd(flush: nat, ghost m: Mark) returns (bstate: BlockState)
      requires RleInv() && Since(m) && Turned(Drained, flush)
      modifies this`insert, this`blockStart, this`ref, this`sent, this`given, this`availOut,
               enc`lastLit, enc.w, enc.lfc, enc.ldl, enc.dfc, enc.ddl
      ensures Ended(bstate, flush) && Since(m)
      ensures bstate.NeedMore? || bstate.BlockDone? ==> RleInv()
      ensures bstate.FinishStarted? || bstate.FinishDone? ==> Handed() && enc.Valid()
    {
      hide Core, Since, Closed, Handed, Encoder.Valid;
      LeaveNone(base + strstart);
      bstate := EndLoop(flush, m);
    }

    lemma RleRoom()
      requires RleInv()
      ensures next <= |input| && Ahead() >= 0
    {
      hide Core;
    }

    /** deflate_rle */
    method DeflateRle(flush: nat) returns (bstate: BlockState)
      requires RleInv()
      modifies this`strstart, this`lookahead, this`insert, this`matchLength, this`matchStart, this`blockStart, this`base, this`data,
               this`next, this`availOut, this`sent, this`given, this`ref, window, t, t.head, t.prev,
               enc`lastLit, enc.w, enc.lfc, enc.ldl, enc.dfc, enc.ddl, enc.dBuf, enc.lBuf
      ensures Ended(bstate, flush) && Since(old(Here()))
      ensures bstate.NeedMore? || bstate.BlockDone? ==> RleInv()
      ensures bstate.FinishStarted? || bstate.FinishDone? ==> Handed() && enc.Valid()
    {
      hide RleInv, Core, Since, Closed, Handed, Encoder.Valid;
      ghost var m := Here();
      RleRoom();
      SinceHere();
      var how := GoOn;
      while how.GoOn?
        invariant RleInv() && Since(m) && Turned(how, flush)
        decreases Ahead(), how.GoOn?
      {
        RleRoom();
        how := RleStep(flush, m);
      }
      if how.Leave? { return NeedMore; }
      bstate := RleEnd(flush, m);
    }

    // ----- deflate_huff -----

    /** What holds between turns of deflate_huff: every token of the block is one byte. */
    ghost predicate HuffInv()
      reads this`data, this`base, this`floor, this`strstart, this`lookahead, this`insert, this`ref, this`sent, this`given, this`blockStart,
            this`matchLength, this`matchStart, this`prevLength, this`prevMatch, this`matchAvailable, this`next, this`input,
            window, t, t.head, t.prev,
            enc, enc.w, enc.lfc, enc.dfc, enc.slfc, enc.sldl, enc.sdfc, enc.sddl, enc.dBuf, enc.lBuf
    {
      Core(base + strstart) && Room() && |ref.out| + enc.lastLit == base + strstart && enc.litBufsize <= 0x8000
    }

    lemma AllFlushed()
      requires Core(base + strstart) && enc.lastLit == 0
      ensures |ref.out| == base + strstart
    {
      hide Layout, Framed, Indexed, Handed;
      NoneTallied();
    }

    lemma NoneTallied()
      requires Coded(base + strstart) && enc.lastLit == 0
      ensures |ref.out| == base + strstart
    {
      hide Encoder.Valid, Covers;
      enc.Knows();
      assert enc.Tokens() == [];
      NothingMore(data, enc.w.Stream(), ref, base + strstart);
    }

    /** One turn: a literal. */
    method HuffTurn() returns (flush: bool)
      requires Core(base + strstart) && lookahead > 0 && enc.lastLit + 1 < enc.litBufsize
      modifies this`strstart, this`lookahead, this`matchLength, enc`lastLit, enc.lfc, enc.dfc, enc.dBuf, enc.lBuf
      ensures Core(base + strstart) && strstart == old(strstart) + 1 && lookahead == old(lookahead) - 1
      ensures enc.lastLit == old(enc.lastLit) + 1 && (flush <==> enc.lastLit == enc.litBufsize - 1)
      ensures old(base + strstart) < |data| && Tallies() == old(Tallies()) + [Lit(data[old(base + strstart)])]
    {
      hide Core, Layout, Framed, Indexed, Coded, Handed, Encoder.Valid;
      CoreSplit(base + strstart);
      LookaheadIs();
      matchLength := 0;
      ByteAt(strstart);
      flush := TallyLit(window[strstart], base + strstart);
      StepPast(1);
      CoreJoin(base + strstart);
    }

    /** The body of deflate_huff's loop. */
    method HuffStep(flush: nat, ghost m: Mark) returns (how: Turn)
      requires HuffInv() && Since(m)
      modifies this`strstart, this`lookahead, this`insert, this`matchLength, this`matchStart, this`blockStart, this`base, this`data,
               this`next, this`availOut, this`sent, this`given, this`ref, window, t, t.head, t.prev,
               enc`lastLit, enc.w, enc.lfc, enc.ldl, enc.dfc, enc.ddl, enc.dBuf, enc.lBuf
      ensures HuffInv() && Since(m) && Turned(how, flush) && Ahead() <= old(Ahead()) && (how.GoOn? ==> Ahead() < old(Ahead()))
    {
      hide Core, Since;
      if lookahead == 0 {
        BlockFits();
        Fill(base + strstart, m);
        BlockFits();
        if lookahead == 0 {
          return if flush == Z_NO_FLUSH then Leave else Drained;
        }
      }
      how := HuffTally(m);
    }

    lemma BlockFits()
      requires HuffInv()
      ensures base + blockStart == |ref.out| && strstart - blockStart == enc.lastLit
    {
      hide Layout, Framed, Indexed, Coded, Handed;
    }

    method HuffTally(ghost m: Mark) returns (how: Turn)
      requires HuffInv() && Since(m) && lookahead > 0
      modifies this`strstart, this`lookahead, this`insert, this`matchLength, this`matchStart, this`blockStart, this`base, this`data,
               this`next, this`availOut, this`sent, this`given, this`ref, window, t, t.head, t.prev,
               enc`lastLit, enc.w, enc.lfc, enc.ldl, enc.dfc, enc.ddl, enc.dBuf, enc.lBuf
      ensures HuffInv() && Since(m) && !how.Drained? && (how.Leave? ==> availOut == 0) && Ahead() < old(Ahead())
    {
      hide Core, Since;
      var bflush := HuffTurn();
      LinkIs(base + strstart);
      if bflush {
        FlushTurn(m);
        if availOut == 0 { return Leave; }
      }
      how := GoOn;
    }

    lemma LinkIs(done: nat)
      requires Core(done)
      ensures base + blockStart == |ref.out|
    {
      hide Layout, Framed, Indexed, Coded, Handed;
    }

    method HuffEnd(flush: nat, ghost m: Mark) returns (bstate: BlockState)
      requires HuffInv() && Since(m) && Turned(Drained, flush)
      modifies this`insert, this`blockStart, this`ref, this`sent, this`given, this`availOut,
               enc`lastLit, enc.w, enc.lfc, enc.ldl, enc.dfc, enc.ddl
      ensures Ended(bstate, flush) && Since(m)
      ensures bstate.NeedMore? || bstate.BlockDone? ==> HuffInv()
      ensures bstate.FinishStarted? || bstate.FinishDone? ==> Handed() && enc.Valid()
    {
      hide Core, Since, Closed, Handed, Encoder.Valid;
      LeaveNone(base + strstart);
      bstate := EndLoop(flush, m);
      if bstate.NeedMore? || bstate.BlockDone? {
        AllFlushed();
      }
    }

    lemma HuffRoom()
      requires HuffInv()
      ensures next <= |input| && Ahead() >= 0
    {
      hide Core;
    }

    /** deflate_huff */
    method DeflateHuff(flush: nat) returns (bstate: BlockState)
      requires HuffInv()
      modifies this`strstart, this`lookahead, this`insert, this`matchLength, this`matchStart, this`blockStart, this`base, this`data,
               this`next, this`availOut, this`sent, this`given, this`ref, window, t, t.head, t.prev,
               enc`lastLit, enc.w, enc.lfc, enc.ldl, enc.dfc, enc.ddl, enc.dBuf, enc.lBuf
      ensures Ended(bstate, flush) && Since(old(Here()))
      ensures bstate.NeedMore? || bstate.BlockDone? ==> HuffInv()
      ensures bstate.FinishStarted? || bstate.FinishDone? ==> Handed() && enc.Valid()
    {
      hide HuffInv, Core, Since, Closed, Handed, Encoder.Valid;
      ghost var m := Here();
      HuffRoom();
      SinceHere();
      var how := GoOn;
      while how.GoOn?
        invariant HuffInv() && Since(m) && Turned(how, flush)
        decreases Ahead(), how.GoOn?
      {
        HuffRoom();
        how := HuffStep(flush, m);
      }
      if how.Leave? { return NeedMore; }
      bstate := HuffEnd(flush, m);
    }


    // ----- deflate() -----

    /** What holds between calls while the stream is not finished. */
    ghost predicate Working()
      reads this`data, this`base, this`floor, this`strstart, this`lookahead, this`insert, this`ref, this`sent, this`given, this`blockStart,
            this`matchLength, this`matchStart, this`prevLength, this`prevMatch, this`matchAvailable, this`next, this`input,
            window, t, t.head, t.prev,
            enc, enc.w, enc.lfc, enc.dfc, enc.slfc, enc.sldl, enc.sdfc, enc.sddl, enc.dBuf, enc.lBuf
    {
      match strategy
      case Fast => FastInv()
      case Slow(_) => SlowInv()
      case Rle => RleInv()
      case Huff => HuffInv()
    }

    /** What holds between calls once the last block is written. */
    ghost predicate Finishing()
      reads this`data, this`ref, this`sent, this`given, this`lookahead, enc, enc.w, enc.lfc, enc.dfc, enc.slfc, enc.sldl,
            enc.sdfc, enc.sddl, enc.dBuf, enc.lBuf
    {
      Closed(|data|) && Handed() && enc.Valid() && enc.w.biValid <= 7 && lookahead == 0
    }

    ghost predicate Valid()
      reads this`finishing, this`data, this`base, this`floor, this`strstart, this`lookahead, this`insert, this`ref, this`sent, this`given, this`blockStart,
            this`matchLength, this`matchStart, this`prevLength, this`prevMatch, this`matchAvailable, this`next, this`input,
            window, t, t.head, t.prev,
            enc, enc.w, enc.lfc, enc.dfc, enc.slfc, enc.sldl, enc.sdfc, enc.sddl, enc.dBuf, enc.lBuf
    {
      next <= |input| && if finishing then Finishing() else Working()
    }

    /** The matching loop of the strategy. */
    method Compress(flush: nat) returns (bstate: BlockState)
      requires Working()
      modifies this`strstart, this`lookahead, this`insert, this`matchLength, this`matchStart, this`blockStart, this`base, this`data,
               this`next, this`availOut, this`sent, this`given, this`ref, this`prevLength, this`prevMatch, this`matchAvailable,
               window, t, t.head, t.prev, enc`lastLit, enc.w, enc.lfc, enc.ldl, enc.dfc, enc.ddl, enc.dBuf, enc.lBuf
      ensures Ended(bstate, flush) && Since(old(Here()))
      ensures bstate.NeedMore? || bstate.BlockDone? ==> Working()
      ensures bstate.BlockDone? && strategy.Slow? ==> !matchAvailable
      ensures bstate.FinishStarted? || bstate.FinishDone? ==> Handed() && enc.Valid()
    {
      hide FastInv, SlowInv, RleInv, HuffInv, Ended, Since, Handed, Encoder.Valid;
      match strategy {
        case Fast => bstate := DeflateFast(flush);
        case Slow(_) => bstate := DeflateSlow(flush);
        case Rle => bstate := DeflateRle(flush);
        case Huff => bstate := DeflateHuff(flush);
      }
    }


    /** After a completed block: an empty block to align the output, and for a full flush forgetting the history. */
    method Align(flush: nat)
      requires Core(base + strstart) && lookahead == 0 && enc.lastLit == 0
      modifies this`ref, this`strstart, this`blockStart, this`insert, this`base, this`floor, t, t.head, enc.w
      ensures Core(base + strstart) && enc.lastLit == 0
      ensures flush != Z_PARTIAL_FLUSH && flush != Z_BLOCK ==> |enc.w.Stream()| % 8 == 0
      ensures enc.w.Stream() == old(enc.w.Stream()) + if flush == Z_PARTIAL_FLUSH then FixedBits(false, []) else if flush == Z_BLOCK then []
                                                      else StoredBits(|old(enc.w.Stream())|, false, [])
      ensures if flush == Z_FULL_FLUSH then t.seen == {} && floor == |data| else t.seen == old(t.seen) && floor == old(floor)
    {
      hide Layout, Framed, Indexed, Coded, Handed, StoredBits, FixedBits;
      CoreSplit(base + strstart);
      LookaheadIs();
      if flush == Z_PARTIAL_FLUSH {
        EmptyBlock(true);
      } else if flush != Z_BLOCK {
        EmptyBlock(false);
        if flush == Z_FULL_FLUSH {
          NoneTallied();
          Forget();
        }
      }
    }

    /** _tr_align or an empty stored block */
    method EmptyBlock(fixed: bool)
      requires Coded(base + strstart) && Handed() && enc.lastLit == 0 && base + blockStart == |ref.out|
      modifies this`ref, enc.w
      ensures Coded(base + strstart) && Handed() && base + blockStart == |ref.out| && (!fixed ==> |enc.w.Stream()| % 8 == 0)
      ensures enc.w.Stream() == old(enc.w.Stream()) + if fixed then FixedBits(false, []) else StoredBits(|old(enc.w.Stream())|, false, [])
    {
      hide Covers, Encoder.Valid, Encoder.Buffered, BitsOf, BytesBits, StoredBits, FixedBits;
      enc.Knows();
      ghost var done, stream := base + strstart, enc.w.Stream();
      assert enc.Tokens() == [];
      if fixed {
        enc.Align();
        ref := EmptyCovered(data, stream, ref, done, FixedBits(false, []));
      } else {
        enc.StoreNothing();
        ref := EmptyCovered(data, stream, ref, done, StoredBits(|stream|, false, []));
      }
      enc.Knows();
    }

    /** CLEAR_HASH, and start again at the beginning of the window. */
    method Forget()
      requires Layout() && Framed() && Indexed() && lookahead == 0 && base + blockStart == |ref.out| == base + strstart
      modifies this`strstart, this`blockStart, this`insert, this`base, this`floor, t, t.head
      ensures Framed() && Indexed() && base + strstart == old(base + strstart) && base + blockStart == |ref.out|
      ensures t.seen == {} && floor == |data|
    {
      hide HeadsOk, LinksOk;
      if lookahead == 0 {
        base := base + strstart;
        strstart := 0;
        blockStart := 0;
        insert := 0;
      }
      floor := base;
      t.Clear(data, base);
    }

    /** Up to where tokens have been tallied. */
    ghost function Upto(): int
      reads this`base, this`strstart, this`matchAvailable
    {
      if strategy.Slow? then Tallied() else base + strstart
    }

    /** What the matching loops need besides Core. */
    ghost predicate Rest()
      reads this`data, this`base, this`floor, this`strstart, this`lookahead, this`insert, this`ref, this`sent, this`given, this`blockStart,
            this`matchLength, this`matchStart, this`prevLength, this`prevMatch, this`matchAvailable, this`next, this`input,
            t, enc
    {
      && Room()
      && (strategy.Fast? ==> HashReady() && matchLength < MIN_MATCH && prevLength == MIN_MATCH - 1)
      && (strategy.Slow? ==> HashReady() && Suspended())
      && (strategy.Huff? ==> |ref.out| + enc.lastLit == base + strstart && enc.litBufsize <= 0x8000)
    }

    lemma WorkingIs()
      ensures Working() == (Upto() >= 0 && Core(Upto()) && Rest())
    {
      hide Core, HashReady, Suspended;
    }

    /** Starting a call. */
    method SetBuffers(inp: seq<byte>, room: nat)
      requires Valid()
      modifies this`input, this`next, this`availOut
      ensures Valid() && input == inp && next == 0 && availOut == room
    {
      hide Core, HashReady, Suspended, Closed, Handed, Working, Finishing;
      WorkingIs();
      RestIs();
      input, next, availOut := inp, 0, room;
      RestIs();
      WorkingIs();
    }

    lemma RestIs()
      ensures Rest() == (enc.lastLit + 1 < enc.litBufsize && next <= |input| &&
        (strategy.Fast? ==> HashReady() && matchLength < MIN_MATCH && prevLength == MIN_MATCH - 1) &&
        (strategy.Slow? ==> HashReady() && Suspended()) &&
        (strategy.Huff? ==> |ref.out| + enc.lastLit == base + strstart && enc.litBufsize <= 0x8000))
    {
      hide HashReady, Suspended;
    }

    lemma SinceTrans(m: Mark, n: Mark)
      requires m.next <= n.next <= |input| && n.data == m.data + input[m.next..n.next] && Since(n)
      requires m.given <= n.given && |n.given| - |m.given| == m.availOut - n.availOut
      ensures Since(m)
    {
      InputJoined(m.data, n.data, input, m.next, n.next, next);
    }

    /** flush_pending at the start of a call. */
    method FlushMore(ghost m: Mark)
      requires Valid() && Since(m)
      modifies this`sent, this`given, this`availOut, enc.w
      ensures Valid() && Since(m) && (finishing && availOut > 0 ==> given == enc.w.pending)
      ensures finishing ==> (availOut == 0 <==> old(|enc.w.pending| - sent >= availOut))
    {
      hide Working, Finishing, Finished, Encoder.Valid, HashReady, Suspended;
      ghost var n := Here();
      if finishing {
        FlushEnd();
      } else {
        FlushWork();
      }
      SinceOutput(m, n);
    }

    method FlushEnd()
      requires Finishing()
      modifies this`sent, this`given, this`availOut, enc.w
      ensures Finishing() && (availOut > 0 ==> given == enc.w.pending)
      ensures old(given) <= given && |given| - |old(given)| == old(availOut) - availOut
      ensures availOut == 0 <==> old(|enc.w.pending| - sent >= availOut)
    {
      hide Finished, BitsOf, BytesBits, Encoder.Valid;
      FlushPending();
    }

    method FlushWork()
      requires Working()
      modifies this`sent, this`given, this`availOut, enc.w
      ensures Working()
      ensures old(given) <= given && |given| - |old(given)| == old(availOut) - availOut
      ensures enc.w.Stream() == old(enc.w.Stream()) && (availOut > 0 ==> given == enc.w.pending) && enc.w.biValid <= 7
    {
      hide Working, Layout, Framed, Indexed, Handed, HashReady, Suspended, Covers, Encoder.Valid, Encoder.Buffered;
      WorkingIs();
      RestIs();
      enc.Knows();
      FlushPending();
      enc.Knows();
      RestIs();
      WorkingIs();
    }

    /** The matching loop, and what follows a completed block. */
    method CompressMore(flush: nat, ghost m: Mark) returns (leave: bool)
      requires Valid() && !finishing && Since(m)
      modifies this`finishing, this`floor, this`strstart, this`lookahead, this`insert, this`matchLength, this`matchStart, this`blockStart, this`base, this`data,
               this`next, this`availOut, this`sent, this`given, this`ref, this`prevLength, this`prevMatch, this`matchAvailable,
               window, t, t.head, t.prev, enc`lastLit, enc.w, enc.lfc, enc.ldl, enc.dfc, enc.ddl, enc.dBuf, enc.lBuf
      ensures Valid() && Since(m)
      ensures leave ==> availOut == 0 || (flush == Z_NO_FLUSH && next == |input|)
      ensures !leave ==> next == |input| && flush != Z_NO_FLUSH && (flush == Z_FINISH <==> finishing)
      ensures !leave && finishing ==> availOut > 0 && given == enc.w.pending
      ensures !leave && flush in {Z_SYNC_FLUSH, Z_FULL_FLUSH} ==> Synced()
      ensures floor == old(floor) || (flush == Z_FULL_FLUSH && floor == |data|)
      ensures !leave && flush == Z_FULL_FLUSH ==> t.seen == {} && floor == |data|
    {
      hide Working, Finished, Closed, Handed, Encoder.Valid, Since, Ended, Synced;
      ghost var n := Here();
      SinceFacts(m);
      var bstate := Compress(flush);
      EndedFacts(bstate, flush);
      SinceTrans(m, n);
      SinceFacts(m);
      leave := bstate.NeedMore? || bstate.FinishStarted?;
      if bstate.FinishStarted? || bstate.FinishDone? {
        finishing := true;
      } else if bstate.BlockDone? {
        leave := AlignMore(flush, m);
      }
    }

    lemma SinceFacts(m: Mark)
      requires Since(m)
      ensures m.next <= next <= |input| && data == m.data + input[m.next..next] && m.given <= given && |given| - |m.given| == m.availOut - availOut
    {}

    lemma EndedFacts(bstate: BlockState, flush: nat)
      requires Ended(bstate, flush)
      ensures match bstate
              case NeedMore => availOut == 0 || (flush == Z_NO_FLUSH && next == |input|)
              case BlockDone => lookahead == 0 && next == |input| && enc.lastLit == 0 && flush != Z_NO_FLUSH && flush != Z_FINISH
              case FinishStarted => Closed(|data|) && lookahead == 0 && flush == Z_FINISH && availOut == 0 && enc.w.biValid <= 7
              case FinishDone => Closed(|data|) && lookahead == 0 && next == |input| && flush == Z_FINISH && availOut > 0
                                 && given == enc.w.pending && enc.w.biValid <= 7
    {
      hide Closed;
    }

    /** The flush marker after a completed block. */
    method AlignMore(flush: nat, ghost m: Mark) returns (leave: bool)
      requires Working() && Since(m) && lookahead == 0 && enc.lastLit == 0 && (strategy.Slow? ==> !matchAvailable)
      modifies this`ref, this`strstart, this`blockStart, this`insert, this`base, this`floor, this`sent, this`given, this`availOut, t, t.head, enc.w
      ensures Working() && Since(m) && next == old(next) && (leave <==> availOut == 0)
      ensures !leave && flush != Z_PARTIAL_FLUSH && flush != Z_BLOCK ==> Synced()
      ensures if flush == Z_FULL_FLUSH then t.seen == {} && floor == |data| else t.seen == old(t.seen) && floor == old(floor)
    {
      hide Working, Core, Since, HashReady, Suspended, Synced, StoredBits, FixedBits, Rest, MatchAt;
      WorkingIs();
      RestIs();
      SinceFacts(m);
      ghost var n := Here();
      PlainFacts();
      Align(flush);
      AlignedRest();
      WorkingIs();
      FlushWork();
      SinceOutput(m, n);
      leave := availOut == 0;
      if !leave && flush != Z_PARTIAL_FLUSH && flush != Z_BLOCK {
        WorkingIs();
        SyncedIs();
      }
    }

    /** All the data so far can be decoded from what was handed out. */
    ghost predicate Synced()
      reads this`data, this`ref, this`given
    {
      Delivers(BytesBits(given), ref) && ref.mode == Type && !ref.last && ref.out == data
    }

    lemma SyncedIs()
      requires Core(base + strstart) && lookahead == 0 && enc.lastLit == 0 && given == enc.w.pending
      requires enc.w.biValid <= 7 && |enc.w.Stream()| % 8 == 0
      ensures Synced()
    {
      hide Layout, Framed, Indexed, Handed, Coded, Delivers;
      CoreFacts(base + strstart);
      NoneTallied();
      NoneTalliedOut();
      AlignedStream(enc.w);
    }

    lemma NoneTalliedOut()
      requires Coded(base + strstart) && |ref.out| == base + strstart == |data|
      ensures Delivers(enc.w.Stream(), ref) && ref.mode == Type && !ref.last && ref.out == data
    {
      hide Encoder.Valid, Delivers;
      enc.Knows();
      assert data[..|data|] == data;
    }


    /** The state of the matching between blocks. */
    ghost predicate Plain()
      reads this`data, this`base, this`strstart, this`lookahead, this`insert, this`ref, this`sent, this`given, this`blockStart,
            this`matchLength, this`matchStart, this`prevLength, this`prevMatch, this`matchAvailable, this`next, this`input, enc
    {
      && enc.litBufsize > 1 && next <= |input|
      && (strategy.Fast? ==> matchLength < MIN_MATCH && prevLength == MIN_MATCH - 1)
      && (strategy.Slow? ==> !matchAvailable && matchLength == MIN_MATCH - 1)
      && (strategy.Huff? ==> enc.litBufsize <= 0x8000)
    }

    lemma PlainFacts()
      requires Rest() && (strategy.Slow? ==> !matchAvailable)
      ensures Plain() && Upto() == base + strstart
    {
      hide HashReady, MatchAt;
    }

    lemma AlignedRest()
      requires Core(base + strstart) && Plain() && lookahead == 0 && enc.lastLit == 0
      ensures Rest() && Upto() == base + strstart
    {
      hide Core, MatchAt, Primed;
      CoreFacts(base + strstart);
      AllFlushed();
    }

    /** With nothing left to hand out, the bytes handed out are the whole stream. */
    lemma AllGiven()
      requires Finishing() && given == enc.w.pending
      ensures Finished(data, BytesBits(given), ref)
    {
      hide Finished, BytesBits, Encoder.Valid;
      assert data[..|data|] == data;
      AlignedStream(enc.w);
    }

    /** Nothing pending. */
    lemma NothingPendingIs()
      requires Finishing() && |enc.w.pending| == sent
      ensures given == enc.w.pending
    {
      hide Finished, Encoder.Valid;
      GivenPending(given, enc.w.pending, enc.w.biBuf, enc.w.biValid);
    }

    /** Pending output is handed out first. */
    method FlushFirst(flush: nat, oldFlush: int, ghost m: Mark) returns (stop: bool, ret: int)
      requires Valid() && Since(m) && availOut > 0
      modifies this`sent, this`given, this`availOut, enc.w
      ensures Valid() && Since(m)
      ensures var p := old(|enc.w.pending| - sent);
              && (stop && ret == Z_BUF_ERROR <==>
                    (p == 0 && next == |input| && Rank(flush) <= Rank(oldFlush) && flush != Z_FINISH) ||
                    (finishing && next != |input| && p < old(availOut)))
              && (stop && ret == Z_OK ==> p != 0 && availOut == 0) && (stop ==> ret in {Z_OK, Z_BUF_ERROR})
      ensures !stop && finishing ==> given == enc.w.pending && next == |input|
    {
      hide Working, Finishing, Since, Encoder.Valid;
      stop, ret := true, Z_BUF_ERROR;
      if |enc.w.pending| != sent {
        FlushMore(m);
        if availOut == 0 { return true, Z_OK; }
      } else if |input| - next == 0 && Rank(flush) <= Rank(oldFlush) && flush != Z_FINISH {
        return;
      } else if finishing {
        NothingPendingIs();
      }
      stop := finishing && |input| - next != 0;
    }

    /** Compress, unless everything has been done. */
    method CompressRest(flush: nat, ghost m: Mark) returns (ret: int)
      requires Valid() && Since(m) && (finishing ==> given == enc.w.pending && next == |input| && flush == Z_FINISH)
      modifies this`finishing, this`floor, this`strstart, this`lookahead, this`insert, this`matchLength, this`matchStart, this`blockStart, this`base, this`data,
               this`next, this`availOut, this`sent, this`given, this`ref, this`prevLength, this`prevMatch, this`matchAvailable,
               window, t, t.head, t.prev, enc`lastLit, enc.w, enc.lfc, enc.ldl, enc.dfc, enc.ddl, enc.dBuf, enc.lBuf
      ensures Valid() && Since(m)
      ensures ret == Z_STREAM_END ==> Finished(data, BytesBits(given), ref) && next == |input|
      ensures ret == Z_OK ==> availOut == 0 || (flush != Z_FINISH && next == |input|)
      ensures ret == Z_OK && availOut > 0 && flush in {Z_SYNC_FLUSH, Z_FULL_FLUSH} ==> Synced()
      ensures ret in {Z_OK, Z_STREAM_END}
      ensures floor == old(floor) || (flush == Z_FULL_FLUSH && floor == |data|)
      ensures ret == Z_OK && availOut > 0 && flush == Z_FULL_FLUSH ==> t.seen == {} && floor == |data|
    {
      hide Working, Finishing, Finished, Since, Encoder.Valid, BytesBits, Synced;
      if finishing { FinishingAhead(); }
      SinceFacts(m);
      if |input| - next != 0 || lookahead != 0 || (flush != Z_NO_FLUSH && !finishing) {
        var leave := CompressMore(flush, m);
        if leave { return Z_OK; }
      }
      if flush != Z_FINISH { return Z_OK; }
      AllGiven();
      ret := Z_STREAM_END;
    }

    /**
      A call that is refused with Z_BUF_ERROR: there is no room; or there is nothing to do, the flush asking for no
      more than the one before; or there is input after the end.
     */
    predicate Refuses(inp: seq<byte>, room: nat, flush: nat)
      reads this`finishing, this`sent, this`lastFlush, enc, enc.w
    {
      (finishing ==> flush == Z_FINISH) &&
      (room == 0 ||
       (|enc.w.pending| == sent && inp == [] && flush != Z_FINISH && Rank(flush) <= Rank(lastFlush)) ||
       (finishing && inp != [] && |enc.w.pending| - sent < room))
    }

    /** deflate(): compress what is given and what is buffered, as far as the output goes. */
    method Deflate(inp: seq<byte>, room: nat, flush: nat) returns (ret: int)
      requires Valid() && flush <= Z_BLOCK
      modifies this`input, this`finishing, this`floor, this`lastFlush, this`strstart, this`lookahead, this`insert, this`matchLength, this`matchStart, this`blockStart, this`base, this`data,
               this`next, this`availOut, this`sent, this`given, this`ref, this`prevLength, this`prevMatch, this`matchAvailable,
               window, t, t.head, t.prev, enc`lastLit, enc.w, enc.lfc, enc.ldl, enc.dfc, enc.ddl, enc.dBuf, enc.lBuf
      ensures Valid()
      ensures next <= |inp| && data == old(data) + inp[..next]
      ensures old(given) <= given && |given| - |old(given)| == room - availOut
      ensures ret == Z_STREAM_ERROR <==> old(finishing) && flush != Z_FINISH
      ensures ret == Z_STREAM_END ==> Finished(data, BytesBits(given), ref) && next == |inp|
      ensures ret == Z_BUF_ERROR <==> old(Refuses(inp, room, flush))
      ensures ret == Z_OK ==> availOut == 0 || (flush != Z_FINISH && next == |inp|)
      ensures ret == Z_OK && availOut > 0 && flush in {Z_SYNC_FLUSH, Z_FULL_FLUSH} ==> Synced()
      ensures ret in {Z_OK, Z_STREAM_END, Z_STREAM_ERROR, Z_BUF_ERROR}
      ensures lastFlush == if ret == Z_STREAM_ERROR || room == 0 then old(lastFlush) else if ret == Z_OK && availOut == 0 then -1 else flush
      ensures floor == old(floor) || (flush == Z_FULL_FLUSH && floor == |data|)
      ensures ret == Z_OK && availOut > 0 && flush == Z_FULL_FLUSH ==> t.seen == {} && floor == |data|
    {
      hide Valid, Finished, Since, BytesBits, Synced;
      SetBuffers(inp, room);
      ghost var m := Here();
      SinceHere();
      SinceFacts(m);
      if finishing && flush != Z_FINISH { return Z_STREAM_ERROR; }
      if availOut == 0 { return Z_BUF_ERROR; }
      var oldFlush := lastFlush;
      lastFlush := flush;
      var stop;
      stop, ret := FlushFirst(flush, oldFlush, m);
      if !stop {
        ret := CompressRest(flush, m);
      }
      SinceFacts(m);
      if ret == Z_OK && availOut == 0 { lastFlush := -1; }
    }

    /** A new stream is ready for its first call. */
    lemma Started()
      requires Layout() && Framed() && Indexed() && HashReady() && Coded(0) && Handed()
      requires data == [] && ref.out == [] && strstart == 0 && blockStart == 0 && base == 0 && lookahead == 0 && !finishing
      requires matchLength == 2 && prevLength == 2 && !matchAvailable && enc.lastLit == 0 && 2 < enc.litBufsize <= 0x8000
      requires next == 0 && input == []
      ensures Valid()
    {
      hide Layout, Framed, Indexed, HashReady, Coded, Handed, Core, MatchAt, Working;
      CoreJoin(0);
      WorkingIs();
    }

    /** The output so far: its beginning has been handed out, and it decodes to a beginning of the data. */
    lemma Output()
      requires Valid()
      ensures Delivers(enc.w.Stream(), ref) && BytesBits(given) <= enc.w.Stream() && ref.out <= data
      ensures ref.mode.Done? || (ref.mode == Type && !ref.last)
    {
      hide Layout, Framed, Indexed, HashReady, Suspended, Encoder.Valid, Working, Core, Delivers;
      if !finishing {
        WorkingIs();
        CoreSplit(Upto());
        CodedOutput(Upto());
      }
    }

    lemma CodedOutput(done: nat)
      requires Coded(done)
      ensures Delivers(enc.w.Stream(), ref) && ref.out <= data && ref.mode == Type && !ref.last
    {
      hide Encoder.Valid, Delivers;
      CodedValid(done);
      enc.Knows();
    }

    lemma FinishingAhead()
      requires Valid() && finishing
      ensures lookahead == 0
    {
      hide Closed, Encoder.Valid;
    }

  }

  /** The numbers from a up to b. */
  ghost function Span(a: nat, b: int): set<nat>
    decreases b - a
  {
    if b <= a then {} else Span(a, b - 1) + {b - 1}
  }

  lemma SpanNone(a: nat)
    ensures Span(a, a) == {}
  {}

  lemma SpanOne(a: nat)
    ensures Span(a, a + 1) == {a} && forall b: int :: b <= a ==> Span(a, b) == {}
  {
    assert Span(a, a) == {};
  }

  lemma SpanNext(a: nat, b: nat)
    requires a <= b
    ensures Span(a, b + 1) == Span(a, b) + {b}
  {}

  lemma {:induction false} SpanJoin(a: nat, b: nat, c: int)
    requires a <= b <= c
    ensures Span(a, c) == Span(a, b) + Span(b, c)
    decreases c
  {
    if b < c {
      SpanJoin(a, b, c - 1);
    }
  }

  /** The window after its upper part has been moved down. */
  lemma WindowMoves(w: seq<byte>, w': seq<byte>, data: seq<byte>, base: nat, wsize: nat)
    requires WindowIs(w, data, base) && |w'| == |w| == 2 * wsize && |data| - base >= wsize
    requires forall i :: 0 <= i < |data| - base - wsize ==> w'[i] == w[wsize + i]
    ensures WindowIs(w', data, base + wsize)
  {
    forall i | 0 <= i < |data| - (base + wsize) ensures w'[i] == data[base + wsize + i] {
      assert w[wsize + i] == data[base + (wsize + i)];
    }
  }

  lemma WindowGrows(w: seq<byte>, data: seq<byte>, base: nat, piece: seq<byte>)
    requires WindowIs(w, data, base) && |data| - base + |piece| <= |w| && w[|data| - base..|data| - base + |piece|] == piece
    ensures WindowIs(w, data + piece, base)
  {
    var n := |data| - base;
    forall i | 0 <= i < |data + piece| - base ensures w[i] == (data + piece)[base + i] {
      if i >= n {
        assert w[n..n + |piece|][i - n] == piece[i - n];
      }
    }
  }

  method MoveDown(window: array<byte>, wsize: nat, n: nat)
    requires n <= wsize && wsize + n <= window.Length
    modifies window
    ensures forall i :: 0 <= i < n ==> window[i] == old(window[wsize + i])
  {
    forall i | 0 <= i < n {
      window[i] := window[wsize + i];
    }
  }

  lemma InputJoined(d0: seq<byte>, d1: seq<byte>, input: seq<byte>, n0: nat, n1: nat, n2: nat)
    requires n0 <= n1 <= n2 <= |input| && d1 == d0 + input[n0..n1]
    ensures d1 + input[n1..n2] == d0 + input[n0..n2]
  {
    assert input[n0..n1] + input[n1..n2] == input[n0..n2];
  }

  method CopyInput(window: array<byte>, at: nat, input: seq<byte>, next: nat, n: nat)
    requires at + n <= window.Length && next + n <= |input|
    modifies window
    ensures window[at..at + n] == input[next..next + n]
    ensures forall i :: 0 <= i < at ==> window[i] == old(window[i])
  {
    forall i | 0 <= i < n {
      window[at + i] := input[next + i];
    }
  }

  lemma PrimeFirst(p: Hashing, a: byte, b: byte)
    requires GoodHashing(p)
    ensures Primed(p, Update(p, a, b), a, b)
  {
    UpdateFirst(p, a);
    assert Update(p, Update(p, 0, a), b) == Update(p, a, b);
  }

  lemma UpdateFirst(p: Hashing, a: byte)
    requires GoodHashing(p)
    ensures Update(p, 0, a) == a
  {
    ShlZero(p.shift);
    Pow2Values();
    Pow2Mono(8, p.bits);
    XorSwap(0, a);
    XorNone(a);
    LowSmall(a, p.bits);
  }

  /** Where the decoder is after the block, or after the end of the stream. */
  lemma Decoded(data: seq<byte>, stream: seq<bool>, s: State, tokens: seq<Token>, done: nat, bits: seq<bool>, last: bool)
    returns (t: State)
    requires Covers(data, stream, s, tokens, done) && |s.out| <= done <= |data|
    requires IsBlock(bits, |stream|, last, data[|s.out|..done], tokens)
    ensures t.out == data[..done]
    ensures !last ==> Covers(data, stream + bits, t, [], done)
    ensures last ==> var all := stream + bits + BitsOf(0, Padding(|stream + bits|)); Finished(data[..done], all, t) && |all| % 8 == 0
  {
    hide Covers, IsBlock, Delivers, BitsOf;
    t := CoversBlock(data, stream, s, tokens, done, bits, last);
    if last {
      t := DeliverEnd(stream + bits, t);
    }
  }

  lemma NothingMore(data: seq<byte>, stream: seq<bool>, s: State, done: nat)
    requires Covers(data, stream, s, [], done)
    ensures |s.out| == done
  {
    hide Delivers;
  }

  lemma AlignedStream(w: Writer)
    requires w.biValid <= 7 && |w.Stream()| % 8 == 0
    ensures w.Stream() == BytesBits(w.pending)
  {
    hide BytesBits, BitsOf;
    BitsOfNone(0);
    assert |w.Stream()| == 8 * |w.pending| + w.biValid;
    WholeBytes(|w.pending|, w.biValid);
    assert BytesBits(w.pending) + [] == BytesBits(w.pending);
  }

  lemma WholeBytes(n: nat, v: nat)
    requires v <= 7 && (8 * n + v) % 8 == 0
    ensures v == 0
  {}

  /** RANK */
  function Rank(f: int): int {
    2 * f - if f > 4 then 9 else 0
  }

  /** The flush values by how much they ask for; -1 stands for a call that ran out of room. */
  const FLUSHES: seq<int> := [-1, Z_NO_FLUSH as int, Z_BLOCK as int, Z_PARTIAL_FLUSH as int, Z_SYNC_FLUSH as int, Z_FULL_FLUSH as int,
                              Z_FINISH as int]

  /** RANK puts the flush values in that order, and no two on one level. */
  lemma RankOrder(i: nat, j: nat)
    requires i < |FLUSHES| && j < |FLUSHES|
    ensures Rank(FLUSHES[i]) <= Rank(FLUSHES[j]) <==> i <= j
  {}

  /** An empty block changes nothing that was said. */
  lemma EmptyCovered(data: seq<byte>, stream: seq<bool>, s: State, done: nat, bits: seq<bool>) returns (t: State)
    requires Covers(data, stream, s, [], done) && (bits == StoredBits(|stream|, false, []) || bits == FixedBits(false, []))
    ensures Covers(data, stream + bits, t, [], done) && |t.out| == |s.out|
  {
    hide Covers, StoredBits, FixedBits;
    NothingMore(data, stream, s, done);
    CoversSizes(data, stream, s, [], done);
    assert data[|s.out|..done] == [];
    assert IsBlock(bits, |stream|, false, [], []);
    t := CoversBlock(data, stream, s, [], done, bits, false);
    CoversSizes(data, stream, s, [], done);
  }

  lemma BufferSizes(windowBits: nat, memLevel: nat)
    requires 9 <= windowBits <= 15 && 1 <= memLevel <= 9
    ensures 128 <= Pow2(memLevel + 6) <= 0x8000 && 512 <= Pow2(windowBits) <= 32768
    ensures GoodHashing(Hashing((memLevel + 7 + MIN_MATCH - 1) / MIN_MATCH, memLevel + 7))
  {
    hide Pow2;
    Pow2Values();
    Pow2Mono(7, memLevel + 6);
    Pow2Mono(memLevel + 6, 15);
    Pow2Mono(9, windowBits);
    Pow2Mono(windowBits, 15);
  }

  lemma CoversSizes(data: seq<byte>, stream: seq<bool>, s: State, tokens: seq<Token>, done: nat)
    requires Covers(data, stream, s, tokens, done)
    ensures |s.out| <= done <= |data|
  {
    hide Delivers, AllFitting, Expand;
  }

  lemma {:induction false} BytesPrefix(a: seq<byte>, b: seq<byte>)
    requires |a| <= |b| && BytesBits(a) <= BytesBits(b)
    ensures a <= b
  {
    hide BitsOf, BytesBits;
    if a != [] {
      var a1, b1 := a[1..], b[1..];
      BytesBitsHead(a);
      BytesBitsHead(b);
      HeadBits(BitsOf(a[0], 8), BytesBits(a1), BitsOf(b[0], 8), BytesBits(b1));
      ByteOfBits(a[0], b[0]);
      BytesPrefix(a1, b1);
      assert a == [a[0]] + a1 && b == [b[0]] + b1;
    }
  }

  lemma HeadBits(a: seq<bool>, x: seq<bool>, b: seq<bool>, y: seq<bool>)
    requires |a| == |b| && a + x <= b + y
    ensures a == b && x <= y
  {
    assert (a + x)[..|a|] == a && (b + y)[..|a|] == b;
    assert (a + x)[|a|..] == x && (b + y)[|a|..] == y;
    assert (b + y)[..|a| + |x|] == a + x;
  }

  lemma ByteOfBits(a: byte, b: byte)
    requires BitsOf(a, 8) == BitsOf(b, 8)
    ensures a == b
  {
    ValueOfBitsOf(a, 8);
    ValueOfBitsOf(b, 8);
    Pow2Values();
    LowSmall(a, 8);
    LowSmall(b, 8);
  }

  /** With fewer than 8 bits in the bit buffer, what was copied out is still in pending. */
  lemma GivenPending(given: seq<byte>, pending: seq<byte>, buf: nat, valid: nat)
    requires BytesBits(given) <= BytesBits(pending) + BitsOf(buf, valid) && valid <= 7
    ensures given <= pending
  {
    hide BitsOf, BytesBits;
    assert |given| <= |pending|;
    BytesPrefix(given, pending);
  }

  lemma PendingGiven(pending: seq<byte>, sent: nat, buf: nat, valid: nat)
    requires sent <= |pending|
    ensures BytesBits(pending[..sent]) <= BytesBits(pending) + BitsOf(buf, valid)
  {
    hide BitsOf;
    assert pending == pending[..sent] + pending[sent..];
    BytesBitsConcat(pending[..sent], pending[sent..]);
  }
}
