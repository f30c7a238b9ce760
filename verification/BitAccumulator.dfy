/**
  The accumulator macros of inflate.c (PULLBYTE, NEEDBITS, DROPBITS), its code-reading loops, and what its
  scalar fields say about the state of the reference decoder.
 */
module BitAccumulator {
  import opened Bits
  import opened DecodeTable
  import opened Reference
  import opened Runs
  import opened BitReader
  import opened InflateSteps

  datatype InflateMode =
    TYPE | STORED | COPY | TABLE | LENLENS | CODELENS | LEN | LENEXT | DIST | DISTEXT | MATCH | LIT | CHECK | DONE | BAD

  /** Transitions that use neither input nor output go down in this order. */
  function Order0(m: InflateMode): nat {
    match m
    case COPY => 9 case LENLENS => 8 case CODELENS => 7 case LENEXT => 6 case DISTEXT => 5
    case TYPE => 4 case LEN => 4 case STORED => 4 case TABLE => 4 case DIST => 4 case MATCH => 4 case LIT => 4
    case CHECK => 2 case DONE => 1 case BAD => 1
  }

  /** The scalar fields of inflate_state that say what is being decoded. */
  datatype Fields =
    Fields(mode: InflateMode, last: bool, length: nat, offset: nat, extra: nat, nlen: nat, ndist: nat, ncode: nat, have: nat)

  /** The reference mode that the fields and the length array stand for. */
  ghost predicate Stands(f: Fields, lens: seq<nat>, m: Mode) {
    match f.mode
    case TYPE => m == Type
    case STORED => m == Stored
    case COPY => m == Copy(f.length)
    case TABLE => m == Table
    case LENLENS => |lens| == 320 && m.LenLens? && m == LenLens(f.nlen, f.ndist, f.ncode, m.got) && |m.got| == f.have <= 19 &&
                    forall i :: 0 <= i < f.have ==> lens[Order()[i]] == m.got[i]
    case CODELENS => f.have <= |lens| && m.CodeLens? && m == CodeLens(f.nlen, f.ndist, m.bl, lens[..f.have])
    case LEN => m == Len
    case LENEXT => m == LenExt(f.length, f.extra)
    case DIST => m == Dist(f.length)
    case DISTEXT => m == DistExt(f.length, f.offset, f.extra)
    case MATCH => m == Mode.Copying(f.length, f.offset)
    case LIT => f.length < 256 && m == Literal(f.length)
    case CHECK => m == Done
    case DONE => m == Done
    case BAD => m == Bad
  }

  predicate InBody(m: Mode) {
    m.Len? || m.LenExt? || m.Dist? || m.DistExt? || m.Copying? || m.Literal?
  }

  /** The tables are those of the codes in force. */
  ghost predicate TablesFor(s: State, lt: seq<Entry>, lroot: nat, dt: seq<Entry>, droot: nat) {
    && (InBody(s.mode) ==> TableFor(lt, lroot, s.llens, Lens) && TableFor(dt, droot, s.dlens, Dists))
    && (s.mode.CodeLens? ==> TableFor(lt, lroot, s.mode.bl, Codes))
  }

  /** The lookup, where the table allows it. */
  ghost function Peek(t: seq<Entry>, root: nat, hold: nat): Entry {
    if Pow2(root) <= |t| && (forall i :: 0 <= i < Pow2(root) && IsLink(t[i]) ==> t[i].val + Pow2(t[i].op) <= |t|)
    then Lookup(t, root, hold) else INVALID
  }

  lemma PeekIs(t: seq<Entry>, root: nat, lens: seq<nat>, kind: CodeType, hold: nat)
    requires TableFor(t, root, lens, kind)
    ensures Pow2(root) <= |t|
    ensures forall i :: 0 <= i < Pow2(root) && IsLink(t[i]) ==> t[i].val + Pow2(t[i].op) <= |t|
    ensures Peek(t, root, hold) == Lookup(t, root, hold)
  {}

  /** Fewer than 8 bits are left over, unless the machine is waiting for more. */
  ghost predicate Tight(f: Fields, hold: nat, bits: nat, lt: seq<Entry>, lroot: nat, dt: seq<Entry>, droot: nat) {
    match f.mode
    case COPY => bits == 0
    case CHECK => bits == 0
    case DONE => bits == 0
    case STORED => bits < 32
    case TABLE => bits < 14
    case CODELENS => bits < 8 || (f.have < f.nlen + f.ndist &&
                       var e := Peek(lt, lroot, hold); bits < e.bits + CountBits(e.val))
    case LEN => bits < 8 || bits < Peek(lt, lroot, hold).bits
    case DIST => bits < 8 || bits < Peek(dt, droot, hold).bits
    case DISTEXT => bits < 8 || bits < f.extra
    case BAD => true
    case _ => bits < 8
  }

  // ----- the registers of inflate() -----

  /** next_in, hold and bits as inflate() keeps them in local variables. */
  datatype Registers = Registers(next: nat, hold: nat, bits: nat)

  /** The input read so far, in all calls. */
  function ReadSoFar(fed: seq<byte>, input: seq<byte>, next: nat): seq<byte> {
    if next <= |input| then fed + input[..next] else fed
  }

  /** The registers are where the reference is. */
  ghost predicate Reads(fed: seq<byte>, input: seq<byte>, r: Registers, s: State) {
    r.next <= |input| && At(ReadSoFar(fed, input, r.next), s) && Unread(ReadSoFar(fed, input, r.next), s.pos, r.hold, r.bits)
  }

  /** Bits of input not yet used, counting those in the accumulator. */
  function UnseenOf(input: seq<byte>, r: Registers): int {
    r.bits + 8 * (|input| - r.next)
  }

  /** PULLBYTE */
  method PullByte(ghost fed: seq<byte>, input: seq<byte>, r: Registers, ghost s: State) returns (r': Registers)
    requires Reads(fed, input, r, s) && r.next < |input|
    ensures Reads(fed, input, r', s) && r'.next == r.next + 1 && r'.bits == r.bits + 8
    ensures Low(r'.hold, r.bits) == r.hold
  {
    hide At, Unread, Shl, Low;
    var b := input[r.next];
    r' := Registers(r.next + 1, r.hold + Shl(b, r.bits), r.bits + 8);
    ghost var before := fed + input[..r.next];
    assert fed + input[..r.next + 1] == before + [b];
    AtMore(before, [b], s);
    UnreadPull(before, s.pos, r.hold, r.bits, b);
    UnreadSmall(before, s.pos, r.hold, r.bits);
    LowAddShl(r.hold, b, r.bits);
    LowSmall(r.hold, r.bits);
  }

  /** NEEDBITS */
  method NeedBits(ghost fed: seq<byte>, input: seq<byte>, r: Registers, n: nat, ghost s: State) returns (ok: bool, r': Registers)
    requires Reads(fed, input, r, s)
    ensures Reads(fed, input, r', s) && UnseenOf(input, r') == UnseenOf(input, r) && r.bits <= r'.bits
    ensures ok ==> n <= r'.bits && (r' == r || r'.bits < n + 8)
    ensures !ok ==> r'.next == |input| && r'.bits < n
    ensures Low(r'.hold, r.bits) == r.hold
  {
    hide At, Unread, Low, ReadSoFar;
    HoldSmall(fed, input, r, s);
    LowSmall(r.hold, r.bits);
    r' := r;
    while r'.bits < n
      invariant Reads(fed, input, r', s) && UnseenOf(input, r') == UnseenOf(input, r) && r.bits <= r'.bits
      invariant r' == r || r'.bits < n + 8
      invariant Low(r'.hold, r.bits) == r.hold
      decreases |input| - r'.next
    {
      if r'.next == |input| { return false, r'; }
      ghost var q := r';
      r' := PullByte(fed, input, r', s);
      LowLow(r'.hold, r.bits, q.bits);
    }
    ok := true;
  }

  lemma HoldSmall(fed: seq<byte>, input: seq<byte>, r: Registers, s: State)
    requires Reads(fed, input, r, s)
    ensures r.hold < Pow2(r.bits) && r.next <= |input| && s.pos + r.bits == 8 * |ReadSoFar(fed, input, r.next)| && Ok(s)
    ensures r.bits % 8 == Padding(s.pos)
  {
    hide Reaches, Ok, BytesBits, BitsOf, Pow2, Padding;
    PadIs(|ReadSoFar(fed, input, r.next)|, s.pos, r.bits);
  }

  lemma ReadsPos(fed: seq<byte>, input: seq<byte>, r: Registers, s: State)
    requires Reads(fed, input, r, s)
    ensures r.next <= |input| && s.pos + r.bits == 8 * (|fed| + r.next)
  {
    hide At, BytesBits, BitsOf, Pow2;
  }

  lemma PadIs(n: nat, pos: nat, bits: nat)
    requires pos + bits == 8 * n
    ensures bits % 8 == Padding(pos)
  {}

  /** DROPBITS */
  function Dropped(r: Registers, n: nat): Registers
    requires n <= r.bits
  {
    Registers(r.next, Shr(r.hold, n), r.bits - n)
  }

  /** A step that the bits in the accumulator decide, and the registers once its bits are dropped. */
  lemma Stepped(fed: seq<byte>, input: seq<byte>, r: Registers, s: State, to: State, n: nat)
    requires Reads(fed, input, r, s) && Step(s, BitsOf(r.hold, r.bits)) == Go(to, n)
    ensures n <= r.bits && Reads(fed, input, Dropped(r, n), to) && to.pos == s.pos + n
  {
    hide At, Step, BitsOf, Shr, ReadSoFar, Unread;
    StepPos(s, BitsOf(r.hold, r.bits));
    var bytes := ReadSoFar(fed, input, r.next);
    UnreadIs(bytes, s.pos, r.hold, r.bits);
    AtStep(bytes, s);
    UnreadDrop(bytes, s.pos, r.hold, r.bits, n);
  }

  lemma DropNothing(r: Registers)
    ensures Dropped(r, 0) == r
  {}

  /**
    The decoding loops of the CODELENS, LEN and DIST states: pull bytes until the entry for the
    code at the front is certain. A root entry that links to a sub-table is followed; no distance
    entry has operation 0, so one test for a link serves for both tables.
   */
  method NextCode(ghost fed: seq<byte>, input: seq<byte>, r: Registers, ghost s: State,
                  table: array<Entry>, root: nat, ghost lens: seq<nat>, ghost kind: CodeType)
    returns (found: bool, r': Registers, here: Entry)
    requires Reads(fed, input, r, s) && TableFor(table[..], root, lens, kind)
    requires r.bits < 8 || r.bits < Peek(table[..], root, r.hold).bits
    ensures Reads(fed, input, r', s) && UnseenOf(input, r') == UnseenOf(input, r) && r.bits <= r'.bits
    ensures found ==> here == Peek(table[..], root, r'.hold) && 1 <= here.bits <= r'.bits < here.bits + 8
    ensures !found ==> r'.next == |input| && r'.bits < Peek(table[..], root, r'.hold).bits
  {
    hide At, Unread, Low, Shr, TableFor, Peek, Lookup, Pow2, ReadSoFar;
    ghost var t: seq<Entry> := table[..];
    found, r', here := FirstLevel(fed, input, r, s, table, root, lens, kind);
    if found && IsLink(here) {
      found, r', here := SecondLevel(fed, input, r', s, table, root, lens, kind, here);
    }
    if found {
      PeekIs(t, root, lens, kind, r'.hold);
      TableEntryBits(t, root, lens, kind, r'.hold);
    }
  }

  method FirstLevel(ghost fed: seq<byte>, input: seq<byte>, r: Registers, ghost s: State,
                    table: array<Entry>, root: nat, ghost lens: seq<nat>, ghost kind: CodeType)
    returns (found: bool, r': Registers, here: Entry)
    requires Reads(fed, input, r, s) && TableFor(table[..], root, lens, kind)
    requires r.bits < 8 || r.bits < Peek(table[..], root, r.hold).bits
    ensures Reads(fed, input, r', s) && UnseenOf(input, r') == UnseenOf(input, r) && r.bits <= r'.bits
    ensures Pow2(root) <= table.Length && r'.bits < Peek(table[..], root, r'.hold).bits + 8
    ensures found ==> here == table[Low(r'.hold, root)] && here.bits <= r'.bits
    ensures found && !IsLink(here) ==> here == Peek(table[..], root, r'.hold)
    ensures !found ==> r'.next == |input| && r'.bits < Peek(table[..], root, r'.hold).bits
  {
    hide At, Unread, Low, Shr, TableFor, Peek, Lookup, Pow2, ReadSoFar;
    ghost var t: seq<Entry> := table[..];
    TableShape(t, root, lens, kind);
    PeekIs(t, root, lens, kind, r.hold);
    TableEntryBits(t, root, lens, kind, r.hold);
    r' := r;
    here := table[Low(r'.hold, root)];
    LookupFirst(t, root, r'.hold);
    while here.bits > r'.bits
      invariant Reads(fed, input, r', s) && UnseenOf(input, r') == UnseenOf(input, r) && r.bits <= r'.bits
      invariant here == t[Low(r'.hold, root)] && here.bits <= Lookup(t, root, r'.hold).bits
      invariant !IsLink(here) ==> here == Lookup(t, root, r'.hold)
      invariant Peek(t, root, r'.hold) == Lookup(t, root, r'.hold) && r'.bits < Lookup(t, root, r'.hold).bits + 8
      decreases |input| - r'.next
    {
      if r'.next == |input| { return false, r', here; }
      ghost var q := r';
      HoldSmall(fed, input, q, s);
      r' := PullByte(fed, input, r', s);
      StillNeeded(t, root, lens, kind, q.hold, q.bits, r'.hold);
      PeekIs(t, root, lens, kind, r'.hold);
      here := table[Low(r'.hold, root)];
      LookupFirst(t, root, r'.hold);
    }
    found := true;
  }

  method SecondLevel(ghost fed: seq<byte>, input: seq<byte>, r: Registers, ghost s: State,
                     table: array<Entry>, root: nat, ghost lens: seq<nat>, ghost kind: CodeType, last: Entry)
    returns (found: bool, r': Registers, here: Entry)
    requires Reads(fed, input, r, s) && TableFor(table[..], root, lens, kind) && Pow2(root) <= table.Length
    requires last == table[Low(r.hold, root)] && IsLink(last) && last.bits <= r.bits < Peek(table[..], root, r.hold).bits + 8
    ensures Reads(fed, input, r', s) && UnseenOf(input, r') == UnseenOf(input, r) && r.bits <= r'.bits
    ensures found ==> here == Peek(table[..], root, r'.hold) && here.bits <= r'.bits < here.bits + 8
    ensures !found ==> r'.next == |input| && r'.bits < Peek(table[..], root, r'.hold).bits
  {
    hide At, Unread, Low, Shr, TableFor, Peek, Lookup, Pow2, ReadSoFar;
    ghost var t: seq<Entry> := table[..];
    TableShape(t, root, lens, kind);
    PeekIs(t, root, lens, kind, r.hold);
    r' := r;
    ShrLow(r'.hold, last.bits, last.bits + last.op);
    LookupSecond(t, root, r'.hold);
    here := table[last.val + Shr(Low(r'.hold, last.bits + last.op), last.bits)];
    while last.bits + here.bits > r'.bits
      invariant Reads(fed, input, r', s) && UnseenOf(input, r') == UnseenOf(input, r) && r.bits <= r'.bits
      invariant Peek(t, root, r'.hold) == Lookup(t, root, r'.hold) == here.(bits := last.bits + here.bits)
      invariant last == t[Low(r'.hold, root)] && r'.bits < Lookup(t, root, r'.hold).bits + 8
      decreases |input| - r'.next
    {
      if r'.next == |input| { return false, r', here; }
      ghost var q := r';
      HoldSmall(fed, input, q, s);
      r' := PullByte(fed, input, r', s);
      LowLow(r'.hold, root, q.bits);
      StillNeeded(t, root, lens, kind, q.hold, q.bits, r'.hold);
      PeekIs(t, root, lens, kind, r'.hold);
      ShrLow(r'.hold, last.bits, last.bits + last.op);
      LookupSecond(t, root, r'.hold);
      here := table[last.val + Shr(Low(r'.hold, last.bits + last.op), last.bits)];
    }
    here := here.(bits := last.bits + here.bits);
    found := true;
  }

  /** The fields stand for the state s of the reference. */
  ghost predicate Good(f: Fields, lens: seq<nat>, r: Registers, s: State, lt: seq<Entry>, lroot: nat, dt: seq<Entry>, droot: nat) {
    TablesFor(s, lt, lroot, dt, droot) && Stands(f, lens, s.mode) && f.last == s.last && Tight(f, r.hold, r.bits, lt, lroot, dt, droot)
  }

  /** BYTEBITS and NEEDBITS(32): exactly the two lengths are then in the accumulator. */
  method StoredHeader(ghost fed: seq<byte>, input: seq<byte>, r0: Registers, ghost s0: State)
    returns (ok: bool, r: Registers, ghost s: State)
    requires Reads(fed, input, r0, s0) && s0.mode == Stored && r0.bits < 32
    ensures Reads(fed, input, r, s) && UnseenOf(input, r) <= UnseenOf(input, r0)
    ensures s == s0.(pos := s.pos) && Padding(s.pos) == 0 && r.hold < Pow2(r.bits)
    ensures ok ==> r.bits == 32
    ensures !ok ==> r.next == |input| && r.bits < 32
  {
    hide Reads, Padding, Low, Shr, Pow2;
    r, s := r0, s0;
    if r.bits % 8 != 0 {
      ToByte(fed, input, r, s);
      s := s0.(pos := s0.pos + Padding(s0.pos));
      r := Dropped(r, r.bits % 8);
    } else {
      HoldSmall(fed, input, r, s);
    }
    ok, r := NeedBits(fed, input, r, 32, s);
    HoldSmall(fed, input, r, s);
  }

  /** BYTEBITS */
  lemma ToByte(fed: seq<byte>, input: seq<byte>, r: Registers, s: State)
    requires Reads(fed, input, r, s) && s.mode == Stored && r.bits % 8 != 0
    ensures Reads(fed, input, Dropped(r, r.bits % 8), s.(pos := s.pos + Padding(s.pos))) && Padding(s.pos + Padding(s.pos)) == 0
  {
    hide Reads, Step, BitsOf, Shr, Low, Padding;
    HoldSmall(fed, input, r, s);
    StoredAlign(s, r.hold, r.bits);
    Stepped(fed, input, r, s, s.(pos := s.pos + Padding(s.pos)), r.bits % 8);
    Padded(s.pos);
  }

  lemma Padded(pos: nat)
    ensures Padding(pos + Padding(pos)) == 0
  {}

  /** The length of a stored block, checked against its complement. */
  method StoredLength(ghost fed: seq<byte>, input: seq<byte>, r0: Registers, ghost s0: State)
    returns (ok: bool, bad: bool, length: nat, r: Registers, ghost s: State)
    requires Reads(fed, input, r0, s0) && s0.mode == Stored && r0.bits < 32
    ensures Reads(fed, input, r, s) && UnseenOf(input, r) <= UnseenOf(input, r0)
    ensures s == s0.(mode := s.mode, pos := s.pos)
    ensures !ok ==> s.mode == Stored && r.next == |input| && r.bits < 32 && Step(s, BitsOf(r.hold, r.bits)).Stuck?
    ensures ok ==> s.mode == if bad then Bad else Copy(length)
    ensures ok && !bad ==> r.bits == 0 && UnseenOf(input, r) < UnseenOf(input, r0)
  {
    hide Reads, Step, BitsOf, Shr, Low, Padding;
    ok, r, s := StoredHeader(fed, input, r0, s0);
    StoredLengths(s, r.hold, r.bits);
    length := Low(r.hold, 16);
    bad := length != 0xffff - Shr(r.hold, 16);
    if ok {
      ghost var to := if bad then s.(mode := Bad) else s.(mode := Copy(length), pos := s.pos + 32);
      Stepped(fed, input, r, s, to, if bad then 0 else 32);
      DropNothing(r);
      s := to;
      if !bad { r := Dropped(r, 32); }
    }
  }

  /** Input bytes copied to the output are input read. */
  lemma StoredMove(fed: seq<byte>, input: seq<byte>, r: Registers, s: State, n: nat, copy: nat)
    requires Reads(fed, input, r, s) && s.mode == Copy(n) && r.bits == 0 && copy <= n && r.next + copy <= |input|
    ensures Reads(fed, input, r.(next := r.next + copy),
                  s.(mode := Copy(n - copy), pos := s.pos + 8 * copy, out := s.out + input[r.next..r.next + copy]))
  {
    hide At, Unread;
    var data, before := input[r.next..r.next + copy], fed + input[..r.next];
    UnreadSize(before, s.pos, r.hold, 0);
    AtStored(before, s, n, data);
    assert before + data == fed + input[..r.next + copy];
    NothingUnread(before, before + data, s.pos, s.pos + 8 * copy, r.hold);
  }

  lemma TwoBits(v: nat)
    ensures Low(v, 2) < 4
  {}

  lemma LowNothing(v: nat)
    ensures Low(v, 0) == 0
  {}

  lemma NothingUnread(before: seq<byte>, after: seq<byte>, pos: nat, pos': nat, hold: nat)
    requires Unread(before, pos, hold, 0) && pos' == 8 * |after|
    ensures Unread(after, pos', hold, 0)
  {}

  lemma UnreadSmall(input: seq<byte>, pos: nat, hold: nat, bits: nat)
    requires Unread(input, pos, hold, bits)
    ensures hold < Pow2(bits)
  {}

  lemma UnreadSize(input: seq<byte>, pos: nat, hold: nat, bits: nat)
    requires Unread(input, pos, hold, bits)
    ensures pos + bits == 8 * |input|
  {}

  lemma UnreadIs(input: seq<byte>, pos: nat, hold: nat, bits: nat)
    requires Unread(input, pos, hold, bits)
    ensures pos <= 8 * |input| && BytesBits(input)[pos..] == BitsOf(hold, bits)
  {}

  lemma LookupFirst(t: seq<Entry>, root: nat, hold: nat)
    requires Pow2(root) <= |t|
    requires forall i :: 0 <= i < Pow2(root) && IsLink(t[i]) ==> t[i].val + Pow2(t[i].op) <= |t|
    ensures var e := t[Low(hold, root)];
            Lookup(t, root, hold).bits >= e.bits && (!IsLink(e) ==> Lookup(t, root, hold) == e)
  {}

  lemma LookupSecond(t: seq<Entry>, root: nat, hold: nat)
    requires Pow2(root) <= |t| && IsLink(t[Low(hold, root)])
    requires forall i :: 0 <= i < Pow2(root) && IsLink(t[i]) ==> t[i].val + Pow2(t[i].op) <= |t|
    ensures var e := t[Low(hold, root)];
            e.val + Low(Shr(hold, e.bits), e.op) < |t| &&
            var f := t[e.val + Low(Shr(hold, e.bits), e.op)];
            Lookup(t, root, hold) == f.(bits := e.bits + f.bits)
  {}

  /** The code of the LEN state, its bits dropped. */
  method LenCode(ghost fed: seq<byte>, input: seq<byte>, r0: Registers, ghost s: State, table: array<Entry>, root: nat)
    returns (found: bool, here: Entry, r: Registers)
    requires Reads(fed, input, r0, s) && s.mode == Len && TableFor(table[..], root, s.llens, Lens)
    requires r0.bits < 8 || r0.bits < Peek(table[..], root, r0.hold).bits
    ensures found ==> Reads(fed, input, r, LenNext(s, here)) && r.bits < 8 && UnseenOf(input, r) < UnseenOf(input, r0)
    ensures found && here.op == 0 ==> here.val < 256
    ensures !found ==> Reads(fed, input, r, s) && r.next == |input| && r.bits < Peek(table[..], root, r.hold).bits
    ensures !found ==> Step(s, BitsOf(r.hold, r.bits)).Stuck?
  {
    hide Reads, Step, BitsOf, TableFor, Peek, Lookup, Low, Shr, Ok, HasBit, Pow2;
    found, r, here := NextCode(fed, input, r0, s, table, root, s.llens, Lens);
    HoldSmall(fed, input, r, s);
    PeekIs(table[..], root, s.llens, Lens, r.hold);
    if found {
      LenByTable(s, table[..], root, r.hold, r.bits);
      Stepped(fed, input, r, s, LenNext(s, here), here.bits);
      r := Dropped(r, here.bits);
    } else {
      LenMore(s, table[..], root, r.hold, r.bits);
    }
  }

  /** The code of the DIST state, its bits dropped. */
  method DistCodeRead(ghost fed: seq<byte>, input: seq<byte>, r0: Registers, ghost s: State, ghost len: nat, table: array<Entry>, root: nat)
    returns (found: bool, here: Entry, r: Registers)
    requires Reads(fed, input, r0, s) && s.mode == Dist(len) && TableFor(table[..], root, s.dlens, Dists)
    requires r0.bits < 8 || r0.bits < Peek(table[..], root, r0.hold).bits
    ensures found ==> Reads(fed, input, r, DistNext(s, len, here)) && r.bits < 8 && UnseenOf(input, r) < UnseenOf(input, r0)
    ensures !found ==> Reads(fed, input, r, s) && r.next == |input| && r.bits < Peek(table[..], root, r.hold).bits
    ensures !found ==> Step(s, BitsOf(r.hold, r.bits)).Stuck?
  {
    hide Reads, Step, BitsOf, TableFor, Peek, Lookup, Low, Shr, Ok, HasBit, Pow2;
    found, r, here := NextCode(fed, input, r0, s, table, root, s.dlens, Dists);
    HoldSmall(fed, input, r, s);
    PeekIs(table[..], root, s.dlens, Dists, r.hold);
    if found {
      DistByTable(s, len, table[..], root, r.hold, r.bits);
      Stepped(fed, input, r, s, DistNext(s, len, here), here.bits);
      r := Dropped(r, here.bits);
    } else {
      DistMore(s, table[..], root, r.hold, r.bits);
    }
  }

  /** The 14 bits of the TABLE state. */
  method TableCounts(ghost fed: seq<byte>, input: seq<byte>, r0: Registers, ghost s: State) returns (ok: bool, h: nat, r: Registers)
    requires Reads(fed, input, r0, s) && s.mode == Table && r0.bits < 14
    ensures ok ==> Reads(fed, input, r, TableNext(s, h)) && r.bits < 8 && UnseenOf(input, r) < UnseenOf(input, r0)
    ensures !ok ==> Reads(fed, input, r, s) && r.next == |input| && r.bits < 14 && Step(s, BitsOf(r.hold, r.bits)).Stuck?
  {
    hide Reads, Step, BitsOf, Low, Shr, TableNext;
    ok, r := NeedBits(fed, input, r0, 14, s);
    h := r.hold;
    TableStep(s, r.hold, r.bits);
    if ok {
      Stepped(fed, input, r, s, TableNext(s, h), 14);
      r := Dropped(r, 14);
    }
  }

  /** The three bits of a block header. */
  method BlockHeader(ghost fed: seq<byte>, input: seq<byte>, r0: Registers, ghost s: State) returns (ok: bool, h: nat, r: Registers)
    requires Reads(fed, input, r0, s) && s.mode == Type && !s.last && r0.bits < 8
    ensures ok ==> Reads(fed, input, r, TypeNext(s, h)) && r.bits < 8 && UnseenOf(input, r) < UnseenOf(input, r0)
    ensures !ok ==> Reads(fed, input, r, s) && r.next == |input| && r.bits < 8 && Step(s, BitsOf(r.hold, r.bits)).Stuck?
  {
    hide Reads, Step, BitsOf, Low, Shr, TypeNext;
    ok, r := NeedBits(fed, input, r0, 3, s);
    h := r.hold;
    TypeHeader(s, r.hold, r.bits);
    if ok {
      Stepped(fed, input, r, s, TypeNext(s, h), 3);
      r := Dropped(r, 3);
    }
  }

  /** The padding after the last block. */
  lemma EndOfBlocks(fed: seq<byte>, input: seq<byte>, r: Registers, s: State)
    requires Reads(fed, input, r, s) && s.mode == Type && s.last && r.bits < 8
    ensures Reads(fed, input, Dropped(r, r.bits % 8), s.(mode := Done, pos := s.pos + Padding(s.pos))) && r.bits % 8 == r.bits
  {
    hide Reads, Step, BitsOf, Shr, Padding;
    HoldSmall(fed, input, r, s);
    TypeEnd(s, r.hold, r.bits);
    Stepped(fed, input, r, s, s.(mode := Done, pos := s.pos + Padding(s.pos)), r.bits % 8);
  }
}
