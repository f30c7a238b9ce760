/**
  inflate() of inflate.c and inflate_fast() of inffast.c, for raw streams: a resumable machine over
  a bit accumulator and a circular window.

  The ghost field ref is the state of the reference decoder that the machine's fields stand for;
  every method keeps it reachable on the input read so far.
 */
module Inflate {
  import opened Bits
  import opened Canonical
  import opened DecodeTable
  import opened InflateTable
  import opened Symbols
  import opened Reference
  import opened Runs
  import opened BitReader
  import opened Copying
  import opened InflateSteps
  import opened Window
  import opened BitAccumulator
  import opened ReadLengths
  import opened InflateFast

  const WBITS: nat := 15
  const WSIZE: nat := 32768
  const Z_OK: int := 0
  const Z_STREAM_END: int := 1
  const Z_DATA_ERROR: int := -3
  const Z_BUF_ERROR: int := -5

  /** The decoder at s, the end of whose input is x, cannot go on. */
  ghost predicate Waits(x: seq<byte>, s: State) {
    s.pos <= 8 * |x| && Step(s, BytesBits(x)[s.pos..]).Stuck?
  }

  class Inflater {
    const win: SlidingWindow
    const lens: array<nat>
    const codes: array<Entry>      // state->codes: the code length code, then the literal/length code
    const dcodes: array<Entry>     // the distance code after it
    const lenfix: array<Entry>     // the fixed tables
    const distfix: array<Entry>
    var mode: InflateMode
    var last: bool
    var hold: nat
    var bits: nat
    var length: nat
    var offset: nat
    var extra: nat
    var nlen: nat
    var ndist: nat
    var ncode: nat
    var have: nat
    var lencode: array<Entry>
    var distcode: array<Entry>
    var lenbits: nat
    var distbits: nat
    // z_stream
    var input: seq<byte>           // next_in and avail_in at the call, and how far it has been read
    var next: nat
    var output: array<byte>        // next_out and avail_out at the call, and how far it has been written
    var put: nat

    ghost var fed: seq<byte>       // the input read by earlier calls
    ghost var hist: seq<byte>      // the output written by earlier calls
    ghost var ref: State

    function Fs(): Fields
      reads this
    {
      Fields(mode, last, length, offset, extra, nlen, ndist, ncode, have)
    }

    /** Sizes, and that no two objects are the same. */
    ghost predicate Shape()
      reads this`lencode, this`distcode, this`output
    {
      && lens.Length == 320 && codes.Length == ENOUGH_LENS && dcodes.Length == ENOUGH_DISTS
      && codes != dcodes && codes != lenfix && codes != distfix && dcodes != lenfix && dcodes != distfix
      && lencode in {codes, lenfix} && distcode in {dcodes, distfix}
      && output != win.window && win.wbits == WBITS
    }

    ghost predicate FixedOk()
      reads lenfix, distfix
    {
      TableFor(lenfix[..], 9, FixedLens(), Lens) && TableFor(distfix[..], 5, FixedDists(), Dists)
    }

    /** LOAD */
    function Load(): Registers
      reads this`next, this`hold, this`bits
    {
      Registers(next, hold, bits)
    }

    /** The accumulator is where the reference is. */
    ghost predicate Reading()
      reads this`next, this`input, this`fed, this`hold, this`bits, this`ref
    {
      Reads(fed, input, Load(), ref)
    }

    ghost predicate Wrote(out: seq<byte>)
      reads this`put, this`output, this`hist, output
    {
      put <= output.Length && out == hist + output[..put]
    }

    /** The window holds the end of the history. */
    ghost predicate Windowed()
      reads this`hist, win, win.window
    {
      win.Valid() && win.History() == LastN(hist, WSIZE)
    }

    /** Fields and registers that would stand for the state s of the reference. */
    ghost predicate MeaningOf(f: Fields, r: Registers, s: State)
      reads lens, this`lencode, this`distcode, this`lenbits, this`distbits, lencode, distcode
    {
      Good(f, lens[..], r, s, lencode[..], lenbits, distcode[..], distbits)
    }

    ghost predicate Meaning()
      reads this, lens, lencode, distcode
    {
      MeaningOf(Fs(), Load(), ref)
    }

    /** All but the accumulator and the mode; `out` is what has been written so far, in all calls. */
    ghost predicate Rest(out: seq<byte>)
      reads this`lencode, this`distcode, this`output, this`put, this`hist, output, lenfix, distfix, win, win.window
    {
      Shape() && FixedOk() && Windowed() && Wrote(out)
    }

    /** What holds at the head of inflate()'s loop. */
    ghost predicate Active()
      reads this, win, win.window, lens, codes, dcodes, lenfix, distfix, lencode, distcode, output
    {
      Rest(ref.out) && Reading() && Meaning()
    }

    /** What holds between calls. */
    ghost predicate Idle()
      reads this, win, win.window, lens, codes, dcodes, lenfix, distfix, lencode, distcode
    {
      && Shape() && FixedOk() && Meaning()
      && At(fed, ref) && Unread(fed, ref.pos, hold, bits)
      && win.Valid() && (mode != BAD ==> win.History() == LastN(ref.out, WSIZE))
    }

    /** Bits of input not yet used, counting those in the accumulator. */
    function Unseen(): int
      reads this
    {
      UnseenOf(input, Load())
    }

    function Left(): int
      reads this
    {
      output.Length - put
    }

    twostate predicate Progress()
      reads this
    {
      Unseen() < old(Unseen()) ||
      (Unseen() == old(Unseen()) && (Left() < old(Left()) || (Left() == old(Left()) && Order0(mode) < old(Order0(mode)))))
    }

    /** Why the machine may stop: it is finished, it needs input that is not there, or the output is full. */
    ghost predicate Waiting()
      reads this`mode, this`next, this`input, this`ref, this`hold, this`bits, this`put, this`output
    {
      || mode == DONE || mode == BAD
      || (next == |input| && mode != CHECK && Step(ref, BitsOf(hold, bits)).Stuck?)
      || (put == output.Length && (mode == COPY || mode == MATCH || mode == LIT))
    }

    /** inflateInit2 for a raw stream, and inflateReset */
    constructor ()
      ensures Idle() && fed == [] && ref == INIT && mode == TYPE
      ensures fresh(win) && fresh(win.window) && fresh(lens) && fresh(codes) && fresh(dcodes)
    {
      hide TableFor, LastN, FixedLens, FixedDists, Idle, MeaningOf, At, Unread;
      var lf, df := MakeFixed();
      lenfix, distfix := lf, df;
      lens, codes, dcodes := new nat[320], new Entry[ENOUGH_LENS], new Entry[ENOUGH_DISTS];
      win := new SlidingWindow(WBITS);
      output := new byte[0];
      mode, last, hold, bits := TYPE, false, 0, 0;
      length, offset, extra, nlen, ndist, ncode, have := 0, 0, 0, 0, 0, 0, 0;
      lencode, distcode, lenbits, distbits := codes, dcodes, 0, 0;
      input, next, put := [], 0, 0;
      fed, hist, ref := [], [], INIT;
      new;
      Fresh();
    }

    lemma Fresh()
      requires Shape() && FixedOk() && win.Valid() && win.History() == [] && fed == [] && ref == INIT
      requires mode == TYPE && !last && hold == 0 && bits == 0
      ensures Idle()
    {
      hide TableFor, LastN, At, Unread, MeaningOf, Shape, FixedOk;
      AtStart();
      MeansType(Fs(), Load(), ref);
      assert LastN<byte>([], WSIZE) == [];
    }

    // ----- the states of inflate() -----

    lemma Know()
      requires Active()
      ensures Rest(ref.out) && Reading() && Meaning() && next <= |input| && put <= output.Length
    {
      hide At, Unread, Shape, FixedOk, Windowed, MeaningOf, ReadSoFar;
    }

    /** The tables of the block being decoded. */
    ghost predicate BodyTables(ll: seq<nat>, dl: seq<nat>)
      reads this`lencode, this`distcode, this`lenbits, this`distbits, lencode, distcode
    {
      TableFor(lencode[..], lenbits, ll, Lens) && TableFor(distcode[..], distbits, dl, Dists)
    }

    // What MeaningOf is in each mode.

    lemma MeansType(f: Fields, r: Registers, s: State)
      requires f.mode in {TYPE, STORED, TABLE, BAD, CHECK, DONE}
      ensures MeaningOf(f, r, s) == (f.last == s.last &&
                (f.mode == TYPE ==> s.mode == Type && r.bits < 8) && (f.mode == STORED ==> s.mode == Stored && r.bits < 32) &&
                (f.mode == TABLE ==> s.mode == Table && r.bits < 14) && (f.mode == BAD ==> s.mode == Bad) &&
                (f.mode == CHECK || f.mode == DONE ==> s.mode == Done && r.bits == 0))
    {
      hide TableFor, Peek;
    }

    lemma MeansCopy(f: Fields, r: Registers, s: State)
      requires f.mode == COPY
      ensures MeaningOf(f, r, s) == (f.last == s.last && s.mode == Copy(f.length) && r.bits == 0)
    {
      hide TableFor, Peek;
    }

    lemma MeansLen(f: Fields, r: Registers, s: State)
      requires f.mode == LEN
      ensures MeaningOf(f, r, s) == (f.last == s.last && s.mode == Len && BodyTables(s.llens, s.dlens) &&
                (r.bits < 8 || r.bits < Peek(lencode[..], lenbits, r.hold).bits))
    {
      hide TableFor, Peek;
    }

    lemma MeansLenExt(f: Fields, r: Registers, s: State)
      requires f.mode == LENEXT
      ensures MeaningOf(f, r, s) ==
              (f.last == s.last && s.mode == LenExt(f.length, f.extra) && BodyTables(s.llens, s.dlens) && r.bits < 8)
    {
      hide TableFor, Peek;
    }

    lemma MeansDist(f: Fields, r: Registers, s: State)
      requires f.mode == DIST
      ensures MeaningOf(f, r, s) == (f.last == s.last && s.mode == Dist(f.length) && BodyTables(s.llens, s.dlens) &&
                (r.bits < 8 || r.bits < Peek(distcode[..], distbits, r.hold).bits))
    {
      hide TableFor, Peek;
    }

    lemma MeansDistExt(f: Fields, r: Registers, s: State)
      requires f.mode == DISTEXT
      ensures MeaningOf(f, r, s) == (f.last == s.last && s.mode == DistExt(f.length, f.offset, f.extra) &&
                BodyTables(s.llens, s.dlens) && (r.bits < 8 || r.bits < f.extra))
    {
      hide TableFor, Peek;
    }

    lemma MeansMatch(f: Fields, r: Registers, s: State)
      requires f.mode == MATCH
      ensures MeaningOf(f, r, s) == (f.last == s.last && s.mode == Mode.Copying(f.length, f.offset) &&
                BodyTables(s.llens, s.dlens) && r.bits < 8)
    {
      hide TableFor, Peek;
    }

    lemma MeansLit(f: Fields, r: Registers, s: State)
      requires f.mode == LIT
      ensures MeaningOf(f, r, s) == (f.last == s.last && f.length < 256 && s.mode == Literal(f.length) &&
                BodyTables(s.llens, s.dlens) && r.bits < 8)
    {
      hide TableFor, Peek;
    }

    lemma MeansLenLens(f: Fields, r: Registers, s: State)
      requires f.mode == LENLENS
      ensures MeaningOf(f, r, s) == (f.last == s.last && s.mode.LenLens? && s.mode == LenLens(f.nlen, f.ndist, f.ncode, s.mode.got) &&
                r.bits < 8 && lens.Length == 320 && |s.mode.got| == f.have <= 19 &&
                forall i :: 0 <= i < f.have ==> lens[Order()[i]] == s.mode.got[i])
    {
      hide TableFor, Peek, Order;
    }

    lemma MeansCodeLens(f: Fields, r: Registers, s: State)
      requires f.mode == CODELENS
      ensures MeaningOf(f, r, s) == (f.last == s.last && f.have <= lens.Length && s.mode.CodeLens? &&
                s.mode == CodeLens(f.nlen, f.ndist, s.mode.bl, lens[..f.have]) && TableFor(lencode[..], lenbits, s.mode.bl, Codes) &&
                (r.bits < 8 || (f.have < f.nlen + f.ndist &&
                   var e := Peek(lencode[..], lenbits, r.hold); r.bits < e.bits + CountBits(e.val))))
    {
      hide TableFor, Peek;
    }

    /** RESTORE: registers, fields, and the state of the reference they now stand for. */
    method Commit(r: Registers, f: Fields, ghost to: State)
      requires Rest(to.out) && Reads(fed, input, r, to) && MeaningOf(f, r, to)
      modifies this`next, this`hold, this`bits, this`ref, this`mode, this`last, this`length, this`offset, this`extra,
               this`nlen, this`ndist, this`ncode, this`have
      ensures Active() && Load() == r && Fs() == f && ref == to
    {
      hide Rest, MeaningOf, Reads, Active;
      SetFields(r, f, to);
      Settled(r, f, to);
    }

    method SetFields(r: Registers, f: Fields, ghost to: State)
      modifies this`next, this`hold, this`bits, this`ref, this`mode, this`last, this`length, this`offset, this`extra,
               this`nlen, this`ndist, this`ncode, this`have
      ensures Load() == r && Fs() == f && ref == to
    {
      next, hold, bits := r.next, r.hold, r.bits;
      mode, last, length, offset, extra := f.mode, f.last, f.length, f.offset, f.extra;
      nlen, ndist, ncode, have := f.nlen, f.ndist, f.ncode, f.have;
      ref := to;
    }

    lemma Settled(r: Registers, f: Fields, to: State)
      requires Rest(to.out) && Reads(fed, input, r, to) && MeaningOf(f, r, to)
      requires Load() == r && Fs() == f && ref == to
      ensures Active()
    {
      hide Rest, MeaningOf, Reads;
    }

    /** TYPE: the header of a block, or the end after the last one. */
    method DoType() returns (leave: bool)
      requires Active() && mode == TYPE
      modifies this`next, this`hold, this`bits, this`ref, this`mode, this`last, this`length, this`offset, this`extra,
               this`nlen, this`ndist, this`ncode, this`have,
               this`lencode, this`distcode, this`lenbits, this`distbits
      ensures Active() && (leave ==> Waiting()) && (!leave ==> Progress())
      ensures !leave && mode == LEN ==> bits < 8
    {
      hide Active, Rest, MeaningOf, BodyTables, Reads, Step, BitsOf, TableFor, Low, Shr, Padding, FixedLens, FixedDists;
      Know();
      MeansType(Fs(), Load(), ref);
      var f, r := Fs(), Load();
      if f.last {
        EndOfBlocks(fed, input, r, ref);
        ghost var to := ref.(mode := Done, pos := ref.pos + Padding(ref.pos));
        r, f := Dropped(r, r.bits % 8), f.(mode := CHECK);
        MeansType(f, r, to);
        Commit(r, f, to);
        return false;
      }
      var ok, h;
      ok, h, r := BlockHeader(fed, input, r, ref);
      if ok {
        NextBlock(f, r, h);
      } else {
        MeansType(f, r, ref);
        Commit(r, f, ref);
      }
      leave := !ok;
    }

    /** The kind of block in the header h. */
    method NextBlock(f0: Fields, r: Registers, h: nat)
      requires Rest(ref.out) && Reads(fed, input, r, TypeNext(ref, h)) && r.bits < 8 && f0.mode == TYPE && ref.mode == Type
      modifies this`next, this`hold, this`bits, this`ref, this`mode, this`last, this`length, this`offset, this`extra,
               this`nlen, this`ndist, this`ncode, this`have,
               this`lencode, this`distcode, this`lenbits, this`distbits
      ensures Active() && Load() == r
    {
      hide Active, Rest, MeaningOf, BodyTables, Reads, TableFor, Low, Shr, FixedLens, FixedDists;
      TwoBits(Shr(h, 1));
      var kind := Low(Shr(h, 1), 2);
      var f := f0.(last := Low(h, 1) == 1);
      ghost var to := TypeNext(ref, h);
      if kind == 1 {
        UseFixed();
        f := f.(mode := LEN);
        MeansLen(f, r, to);
      } else {
        f := f.(mode := if kind == 0 then STORED else if kind == 2 then TABLE else BAD);
        MeansType(f, r, to);
      }
      Commit(r, f, to);
    }

    /** fixedtables */
    method UseFixed()
      requires Rest(ref.out)
      modifies this`lencode, this`distcode, this`lenbits, this`distbits
      ensures Rest(ref.out) && BodyTables(FixedLens(), FixedDists())
    {
      hide TableFor, FixedLens, FixedDists, Windowed, Wrote;
      lencode, lenbits := lenfix, 9;
      distcode, distbits := distfix, 5;
    }

    /** STORED: skip to the byte boundary and read the length twice. */
    method DoStored() returns (leave: bool)
      requires Active() && mode == STORED
      modifies this`next, this`hold, this`bits, this`ref, this`mode, this`last, this`length, this`offset, this`extra,
               this`nlen, this`ndist, this`ncode, this`have
      ensures Active() && (leave ==> Waiting()) && (!leave ==> Progress())
      ensures !leave && mode == LEN ==> bits < 8
    {
      hide Active, Rest, MeaningOf, BodyTables, Reads, Step, BitsOf, TableFor, Peek, Lookup, Low, Shr, Ok, Padding;
      Know();
      MeansType(Fs(), Load(), ref);
      var f := Fs();
      ghost var to;
      var ok, bad, length, r;
      ok, bad, length, r, to := StoredLength(fed, input, Load(), ref);
      leave := !ok;
      if ok && !bad {
        f := f.(mode := COPY, length := length);
        MeansCopy(f, r, to);
      } else {
        f := f.(mode := if ok then BAD else STORED);
        MeansType(f, r, to);
      }
      Commit(r, f, to);
    }

    /** COPY: bytes of a stored block, straight from input to output. */
    method DoCopy() returns (leave: bool)
      requires Active() && mode == COPY
      modifies this`next, this`hold, this`bits, this`ref, this`mode, this`last, this`length, this`offset, this`extra,
               this`nlen, this`ndist, this`ncode, this`have,
               this`put, output
      ensures Active() && (leave ==> Waiting()) && (!leave ==> Progress())
      ensures !leave && mode == LEN ==> bits < 8
    {
      hide Active, Rest, MeaningOf, BodyTables, Reads, Step, BitsOf, TableFor, Peek, Lookup, Low, Shr, Ok;
      Know();
      MeansCopy(Fs(), Load(), ref);
      var f, r := Fs(), Load();
      var copy := f.length;
      if copy == 0 {
        StepZero(ref, BitsOf(r.hold, r.bits));
        Stepped(fed, input, r, ref, ref.(mode := Type), 0);
        DropNothing(r);
        f := f.(mode := TYPE);
        MeansType(f, r, ref.(mode := Type));
        Commit(r, f, ref.(mode := Type));
        return false;
      }
      if copy > |input| - r.next { copy := |input| - r.next; }
      if copy > output.Length - put { copy := output.Length - put; }
      if copy == 0 {
        CopyStuck(ref, r.hold);
        return true;
      }
      var data := input[r.next..r.next + copy];
      StoredMove(fed, input, r, ref, f.length, copy);
      PutBytes(data, ref.out);
      ghost var to := ref.(mode := Copy(f.length - copy), pos := ref.pos + 8 * copy, out := ref.out + data);
      r, f := r.(next := r.next + copy), f.(length := f.length - copy);
      MeansCopy(f, r, to);
      Commit(r, f, to);
      leave := false;
    }

    /** Write bytes to the output. */
    method PutBytes(data: seq<byte>, ghost out: seq<byte>)
      requires Rest(out) && put + |data| <= output.Length
      modifies this`put, output
      ensures Rest(out + data) && put == old(put) + |data|
    {
      hide FixedOk, LastN, Windowed;
      ghost var written: seq<byte> := output[..put];
      forall i | 0 <= i < |data| {
        output[put + i] := data[i];
      }
      put := put + |data|;
      assert output[..put] == written + data;
      assert hist + (written + data) == hist + written + data;
    }

    /** LIT: a literal byte. */
    method DoLit() returns (leave: bool)
      requires Active() && mode == LIT
      modifies this`next, this`hold, this`bits, this`ref, this`mode, this`last, this`length, this`offset, this`extra,
               this`nlen, this`ndist, this`ncode, this`have,
               this`put, output
      ensures Active() && (leave ==> Waiting()) && (!leave ==> Progress())
      ensures !leave && mode == LEN ==> bits < 8
    {
      hide Active, Rest, MeaningOf, BodyTables, Reads, Step, BitsOf, TableFor, Peek, Lookup, Low, Shr, Ok;
      Know();
      MeansLit(Fs(), Load(), ref);
      if put == output.Length { return true; }
      var f, r := Fs(), Load();
      ghost var to := ref.(mode := Len, out := ref.out + [f.length]);
      LiteralStep(ref, f.length, BitsOf(r.hold, r.bits));
      Stepped(fed, input, r, ref, to, 0);
      DropNothing(r);
      PutBytes([f.length], ref.out);
      f := f.(mode := LEN);
      MeansLen(f, r, to);
      Commit(r, f, to);
      leave := false;
    }

    /** CHECK: a raw stream has no trailer. */
    method DoCheck() returns (leave: bool)
      requires Active() && mode == CHECK
      modifies this`next, this`hold, this`bits, this`ref, this`mode, this`last, this`length, this`offset, this`extra,
               this`nlen, this`ndist, this`ncode, this`have
      ensures Active() && !leave && Progress()
      ensures mode == LEN ==> bits < 8
    {
      hide Active, Rest, MeaningOf, BodyTables, Reads, Step, BitsOf, TableFor, Peek, Lookup, Low, Shr, Ok;
      Know();
      MeansType(Fs(), Load(), ref);
      var f, r := Fs().(mode := DONE), Load();
      MeansType(f, r, ref);
      Commit(r, f, ref);
      leave := false;
    }

    /** TABLE: the three counts of a dynamic block. */
    method DoTable() returns (leave: bool)
      requires Active() && mode == TABLE
      modifies this`next, this`hold, this`bits, this`ref, this`mode, this`last, this`length, this`offset, this`extra,
               this`nlen, this`ndist, this`ncode, this`have
      ensures Active() && (leave ==> Waiting()) && (!leave ==> Progress())
      ensures !leave && mode == LEN ==> bits < 8
    {
      hide Active, Rest, MeaningOf, BodyTables, Reads, Step, BitsOf, TableFor, Low, Shr, Order;
      Know();
      MeansType(Fs(), Load(), ref);
      var f := Fs();
      var ok, h, r := TableCounts(fed, input, Load(), ref);
      leave := !ok;
      if ok {
        TableRead(f, r, h);
      } else {
        MeansType(f, r, ref);
        Commit(r, f, ref);
      }
    }

    /** The three counts in h. */
    method TableRead(f0: Fields, r: Registers, h: nat)
      requires Rest(ref.out) && Reads(fed, input, r, TableNext(ref, h)) && r.bits < 8 && f0.last == ref.last
      modifies this`next, this`hold, this`bits, this`ref, this`mode, this`last, this`length, this`offset, this`extra,
               this`nlen, this`ndist, this`ncode, this`have
      ensures Active() && Load() == r
    {
      hide Active, Rest, MeaningOf, Reads, Low, Shr, Order;
      ghost var to := TableNext(ref, h);
      var f := f0.(nlen := Low(h, 5) + 257, ndist := Low(Shr(h, 5), 5) + 1, ncode := Low(Shr(h, 10), 4) + 4);
      if f.nlen > L_CODES || f.ndist > D_CODES {
        f := f.(mode := BAD);
        MeansType(f, r, to);
      } else {
        f := f.(mode := LENLENS, have := 0);
        ShapeLens(ref.out);
        MeansLenLens(f, r, to);
      }
      Commit(r, f, to);
    }

    lemma ShapeLens(out: seq<byte>)
      requires Rest(out)
      ensures lens.Length == 320 && codes.Length == ENOUGH_LENS && dcodes.Length == ENOUGH_DISTS
    {}

    /** LENLENS: the lengths of the code length code, and its table. */
    method DoLenLens() returns (leave: bool)
      requires Active() && mode == LENLENS
      modifies this`next, this`hold, this`bits, this`ref, this`mode, this`last, this`length, this`offset, this`extra,
               this`nlen, this`ndist, this`ncode, this`have,
               this`lencode, this`lenbits, lens, codes
      ensures Active() && (leave ==> Waiting()) && (!leave ==> Progress())
      ensures !leave && mode == LEN ==> bits < 8
    {
      hide Active, Rest, MeaningOf, BodyTables, Reads, Step, BitsOf, TableFor, Peek, Lookup, Low, Shr, Ok, Acceptable, Unpermute, Holds, Order;
      Know();
      MeansLenLens(Fs(), Load(), ref);
      HoldsIs(lens[..], ref.mode.got);
      var f := Fs();
      ghost var s;
      var ok, have, r;
      ok, have, r, s := CodeLengthLens(fed, input, Load(), ref, lens, f.ncode, f.have);
      f := f.(have := have);
      if !ok {
        HoldsIs(lens[..], s.mode.got);
        MeansLenLens(f, r, s);
        Commit(r, f, s);
        return true;
      }
      FinishLenLens(f, r, s);
      leave := false;
    }

    /** All lengths are there: build the table of the code length code. */
    method FinishLenLens(f0: Fields, r: Registers, ghost s: State)
      requires Rest(s.out) && Reads(fed, input, r, s) && f0.mode == LENLENS && f0.last == s.last && r.bits < 8
      requires s.mode.LenLens? && s.mode == LenLens(f0.nlen, f0.ndist, f0.ncode, s.mode.got) && |s.mode.got| >= f0.ncode
      requires lens.Length == 320 && lens[..19] == Unpermute(s.mode.got) && forall i :: 0 <= i < |s.mode.got| ==> s.mode.got[i] <= 7
      modifies this`next, this`hold, this`bits, this`ref, this`mode, this`last, this`length, this`offset, this`extra,
               this`nlen, this`ndist, this`ncode, this`have,
               this`lencode, this`lenbits, codes
      ensures Active() && Load() == r && Order0(mode) < Order0(LENLENS)
    {
      hide Active, Rest, MeaningOf, BodyTables, Reads, Step, BitsOf, TableFor, Peek, Lookup, Low, Shr, Ok, Acceptable, Unpermute;
      ghost var got := s.mode.got;
      var ret := BuildCodes(got, s.out);
      LenLensEnd(s, s.mode.nlen, s.mode.ndist, s.mode.ncode, got, BitsOf(r.hold, r.bits));
      ghost var to := if ret == 0 then s.(mode := CodeLens(f0.nlen, f0.ndist, Unpermute(got), [])) else s.(mode := Bad);
      Stepped(fed, input, r, s, to, 0);
      DropNothing(r);
      var f := if ret != 0 then f0.(mode := BAD) else f0.(mode := CODELENS, have := 0);
      if ret != 0 {
        MeansType(f, r, to);
      } else {
        MeansCodeLens(f, r, to);
      }
      Commit(r, f, to);
    }

    lemma HoldsIs(l: seq<nat>, got: seq<nat>)
      ensures Holds(l, got) == (|l| == 320 && |got| <= 19 && forall i :: 0 <= i < |got| ==> l[Order()[i]] == got[i])
    {
      hide Order;
    }

    /** The table of the code length code. */
    method BuildCodes(ghost got: seq<nat>, ghost out: seq<byte>) returns (ret: int)
      requires Rest(out) && lens.Length == 320 && lens[..19] == Unpermute(got)
      requires forall i :: 0 <= i < |got| ==> got[i] <= 7
      modifies this`lencode, this`lenbits, codes
      ensures Rest(out) && ret in {0, -1} && (ret == 0 <==> Acceptable(Codes, Unpermute(got)))
      ensures ret == 0 ==> TableFor(lencode[..], lenbits, Unpermute(got), Codes)
    {
      hide Rest, Acceptable, TableFor;
      CodesApart(out);
      Pow2Values();
      var root;
      ret, root := InflateTable.InflateTable(Codes, lens[..19], 7, codes);
      lencode, lenbits := codes, root;
      NewCodes(out);
    }

    twostate lemma NewCodes(out: seq<byte>)
      requires old(Rest(out)) && lencode in {codes, lenfix} && distcode in {dcodes, distfix}
      requires output == old(output) && put == old(put) && hist == old(hist)
      requires unchanged(lenfix) && unchanged(distfix) && unchanged(win) && unchanged(win.window) && unchanged(output)
      ensures Rest(out)
    {
      hide TableFor, LastN;
    }

    lemma CodesApart(out: seq<byte>)
      requires Rest(out)
      ensures codes != dcodes && codes != lenfix && codes != distfix && dcodes != lenfix && dcodes != distfix
      ensures codes.Length == ENOUGH_LENS && dcodes.Length == ENOUGH_DISTS && lencode in {codes, lenfix} && distcode in {dcodes, distfix}
    {
      hide TableFor, LastN;
    }

    /** CODELENS: the code lengths and the tables of a dynamic block. */
    method DoCodeLens() returns (leave: bool)
      requires Active() && mode == CODELENS
      modifies this`next, this`hold, this`bits, this`ref, this`mode, this`last, this`length, this`offset, this`extra,
               this`nlen, this`ndist, this`ncode, this`have,
               this`lencode, this`lenbits, this`distcode, this`distbits, lens, codes, dcodes
      ensures Active() && (leave ==> Waiting()) && (!leave ==> Progress())
      ensures !leave && mode == LEN ==> bits < 8
    {
      hide Active, Rest, MeaningOf, BodyTables, Reads, Step, BitsOf, TableFor, Peek, Lookup, Low, Shr, Ok, Acceptable;
      Know();
      MeansCodeLens(Fs(), Load(), ref);
      ShapeLens(ref.out);
      LengthsOk(fed, input, Load(), ref);
      var f := Fs();
      ghost var s;
      var how, have, r;
      how, have, r, s := ReadCodeLens(fed, input, Load(), ref, lens, lencode, lenbits, f.nlen + f.ndist, f.have);
      leave := how.Starved?;
      if how.AllRead? {
        FinishCodeLens(f.(have := have), r, s);
      } else {
        StopCodeLens(leave, f.(have := have), r, s);
      }
    }

    /** Input has run out, or a repeat is invalid. */
    method StopCodeLens(starved: bool, f0: Fields, r: Registers, ghost s: State)
      requires Rest(s.out) && Reads(fed, input, r, s) && f0.mode == CODELENS && f0.last == s.last && lens.Length == 320
      requires !starved ==> s.mode == Bad
      requires starved ==> f0.have < f0.nlen + f0.ndist && f0.have <= 320 && s.mode.CodeLens?
                           && s.mode == CodeLens(f0.nlen, f0.ndist, s.mode.bl, lens[..f0.have])
                           && TableFor(lencode[..], lenbits, s.mode.bl, Codes) && r.bits < EntrySpan(Peek(lencode[..], lenbits, r.hold))
      modifies this`next, this`hold, this`bits, this`ref, this`mode, this`last, this`length, this`offset, this`extra,
               this`nlen, this`ndist, this`ncode, this`have
      ensures Active() && Load() == r && ref == s && mode == if starved then CODELENS else BAD
    {
      hide Active, Rest, MeaningOf, Reads, TableFor, Peek;
      var f := f0;
      if starved {
        MeansCodeLens(f, r, s);
      } else {
        f := f.(mode := BAD);
        MeansType(f, r, s);
      }
      Commit(r, f, s);
    }

    /** All lengths are there: build the tables. */
    method FinishCodeLens(f0: Fields, r: Registers, ghost s: State)
      requires Rest(s.out) && Reads(fed, input, r, s) && f0.mode == CODELENS && f0.last == s.last && r.bits < 8 && lens.Length == 320
      requires f0.have == f0.nlen + f0.ndist <= 320 && s.mode.CodeLens? && s.mode == CodeLens(f0.nlen, f0.ndist, s.mode.bl, lens[..f0.have])
      modifies this`next, this`hold, this`bits, this`ref, this`mode, this`last, this`length, this`offset, this`extra,
               this`nlen, this`ndist, this`ncode, this`have,
               this`lencode, this`lenbits, this`distcode, this`distbits, codes, dcodes
      ensures Active() && Load() == r && (mode == LEN || mode == BAD)
    {
      hide Active, Rest, MeaningOf, BodyTables, Reads, Step, BitsOf, TableFor, Peek, Lookup, Low, Shr, Ok, Acceptable, Pow2, ValidLens;
      LengthsOk(fed, input, r, s);
      CodeLensFinished(fed, input, r, s);
      BlUsable(s);
      assert lens[..f0.have][..f0.nlen] == lens[..f0.nlen] && lens[..f0.have][f0.nlen..] == lens[f0.nlen..f0.have];
      var bad := BuildTables(f0.nlen, f0.ndist, s.out);
      ghost var to := if bad then s.(mode := Bad) else s.(mode := Len, llens := lens[..f0.nlen], dlens := lens[f0.nlen..f0.have]);
      var f := f0.(mode := if bad then BAD else LEN);
      if bad {
        MeansType(f, r, to);
      } else {
        MeansLen(f, r, to);
      }
      Commit(r, f, to);
    }

    /** The tables of a dynamic block, unless there is no end-of-block code or a set of lengths is invalid. */
    method BuildTables(nlen: nat, ndist: nat, ghost out: seq<byte>) returns (bad: bool)
      requires Rest(out) && lens.Length == 320 && 257 <= nlen <= L_CODES && 1 <= ndist <= D_CODES
      requires ValidLens(lens[..nlen + ndist])
      modifies this`lencode, this`lenbits, this`distcode, this`distbits, codes, dcodes
      ensures Rest(out)
      ensures !bad <==> (lens[256] != 0 && Acceptable(Lens, lens[..nlen]) && Acceptable(Dists, lens[nlen..nlen + ndist]))
      ensures !bad ==> BodyTables(lens[..nlen], lens[nlen..nlen + ndist])
    {
      hide Rest, Acceptable, TableFor;
      CodesApart(out);
      if lens[256] == 0 { return true; }
      var ll, dl := lens[..nlen], lens[nlen..nlen + ndist];
      assert forall i :: 0 <= i < |dl| ==> dl[i] == lens[..nlen + ndist][nlen + i];
      var ret, root := InflateTable.InflateTable(Lens, ll, 9, codes);
      lencode, lenbits := codes, root;
      NewCodes(out);
      if ret != 0 { return true; }
      ret, root := InflateTable.InflateTable(Dists, dl, 6, dcodes);
      distcode, distbits := dcodes, root;
      NewCodes(out);
      bad := ret != 0;
    }

    /** LEN without the fast loop: the next literal/length code. */
    method DoLen() returns (leave: bool)
      requires Active() && mode == LEN
      modifies this`next, this`hold, this`bits, this`ref, this`mode, this`last, this`length, this`offset, this`extra,
               this`nlen, this`ndist, this`ncode, this`have
      ensures Active() && (leave ==> Waiting()) && (!leave ==> Progress())
      ensures !leave && mode == LEN ==> bits < 8
    {
      hide Active, Rest, MeaningOf, BodyTables, Reads, Step, BitsOf, TableFor, Peek, HasBit, LenNext, Pow2, Shr, Low;
      Know();
      MeansLen(Fs(), Load(), ref);
      TablesAre(ref.llens, ref.dlens);
      var f := Fs();
      var found, here, r := LenCode(fed, input, Load(), ref, lencode, lenbits);
      leave := !found;
      if found {
        LenDecoded(f, r, here);
      } else {
        StayLen(f, r);
      }
    }

    /** The code is not complete yet. */
    method StayLen(f: Fields, r: Registers)
      requires Rest(ref.out) && Reads(fed, input, r, ref) && f.mode == LEN && ref.mode == Len && f.last == ref.last
      requires BodyTables(ref.llens, ref.dlens) && r.bits < Peek(lencode[..], lenbits, r.hold).bits
      modifies this`next, this`hold, this`bits, this`ref, this`mode, this`last, this`length, this`offset, this`extra,
               this`nlen, this`ndist, this`ncode, this`have
      ensures Active() && Load() == r && Fs() == f && ref == old(ref)
    {
      hide Active, Rest, MeaningOf, BodyTables, Reads, Peek;
      MeansLen(f, r, ref);
      Commit(r, f, ref);
    }

    /** What the code says: a literal, the end of the block, an error or a length. */
    method LenDecoded(f0: Fields, r: Registers, here: Entry)
      requires Rest(ref.out) && Reads(fed, input, r, LenNext(ref, here)) && r.bits < 8 && (here.op == 0 ==> here.val < 256)
      requires f0.last == ref.last && BodyTables(ref.llens, ref.dlens)
      modifies this`next, this`hold, this`bits, this`ref, this`mode, this`last, this`length, this`offset, this`extra,
               this`nlen, this`ndist, this`ncode, this`have
      ensures Active() && Load() == r
    {
      hide Active, Rest, MeaningOf, BodyTables, Reads, TableFor, HasBit;
      ghost var to := LenNext(ref, here);
      var f := f0.(length := here.val);
      if here.op == 0 {
        f := f.(mode := LIT);
        MeansLit(f, r, to);
      } else if HasBit(here.op, 5) {
        f := f.(mode := TYPE);
        MeansType(f, r, to);
      } else if HasBit(here.op, 6) {
        f := f.(mode := BAD);
        MeansType(f, r, to);
      } else {
        f := f.(mode := LENEXT, extra := here.op % 16);
        MeansLenExt(f, r, to);
      }
      Commit(r, f, to);
    }

    lemma TablesAre(ll: seq<nat>, dl: seq<nat>)
      requires BodyTables(ll, dl)
      ensures TableFor(lencode[..], lenbits, ll, Lens) && TableFor(distcode[..], distbits, dl, Dists)
    {}

    /** LENEXT: the extra bits of a length. */
    method DoLenExt() returns (leave: bool)
      requires Active() && mode == LENEXT
      modifies this`next, this`hold, this`bits, this`ref, this`mode, this`last, this`length, this`offset, this`extra,
               this`nlen, this`ndist, this`ncode, this`have
      ensures Active() && (leave ==> Waiting()) && (!leave ==> Progress())
      ensures !leave && mode == LEN ==> bits < 8
    {
      hide Active, Rest, MeaningOf, BodyTables, Reads, Step, BitsOf, TableFor, Peek, Lookup, Low, Shr, Ok;
      Know();
      MeansLenExt(Fs(), Load(), ref);
      OkLenExt();
      var f := Fs();
      var ok, r := NeedBits(fed, input, Load(), f.extra, ref);
      LenExtStep(ref, f.length, f.extra, r.hold, r.bits);
      if !ok {
        MeansLenExt(f, r, ref);
        Commit(r, f, ref);
        return true;
      }
      ghost var to := ref.(mode := Dist(f.length + Low(r.hold, f.extra)), pos := ref.pos + f.extra);
      Stepped(fed, input, r, ref, to, f.extra);
      f, r := f.(mode := DIST, length := f.length + Low(r.hold, f.extra)), Dropped(r, f.extra);
      MeansDist(f, r, to);
      Commit(r, f, to);
      leave := false;
    }

    lemma OkLenExt()
      requires Reading() && ref.mode.LenExt?
      ensures ref.mode.extra <= 5
    {}

    /** DIST: the distance code. */
    method DoDist() returns (leave: bool)
      requires Active() && mode == DIST
      modifies this`next, this`hold, this`bits, this`ref, this`mode, this`last, this`length, this`offset, this`extra,
               this`nlen, this`ndist, this`ncode, this`have
      ensures Active() && (leave ==> Waiting()) && (!leave ==> Progress())
      ensures !leave && mode == LEN ==> bits < 8
    {
      hide Active, Rest, MeaningOf, BodyTables, Reads, Step, BitsOf, TableFor, Peek, HasBit, DistNext, Pow2, Shr, Low;
      Know();
      MeansDist(Fs(), Load(), ref);
      TablesAre(ref.llens, ref.dlens);
      var f := Fs();
      var found, here, r := DistCodeRead(fed, input, Load(), ref, f.length, distcode, distbits);
      leave := !found;
      if found {
        DistDecoded(f, r, here);
      } else {
        StayDist(f, r);
      }
    }

    /** The code is not complete yet. */
    method StayDist(f: Fields, r: Registers)
      requires Rest(ref.out) && Reads(fed, input, r, ref) && f.mode == DIST && ref.mode == Dist(f.length) && f.last == ref.last
      requires BodyTables(ref.llens, ref.dlens) && r.bits < Peek(distcode[..], distbits, r.hold).bits
      modifies this`next, this`hold, this`bits, this`ref, this`mode, this`last, this`length, this`offset, this`extra,
               this`nlen, this`ndist, this`ncode, this`have
      ensures Active() && Load() == r && Fs() == f && ref == old(ref)
    {
      hide Active, Rest, MeaningOf, BodyTables, Reads, Peek;
      MeansDist(f, r, ref);
      Commit(r, f, ref);
    }

    /** What the code says: an error or a distance. */
    method DistDecoded(f0: Fields, r: Registers, here: Entry)
      requires Rest(ref.out) && Reads(fed, input, r, DistNext(ref, f0.length, here)) && r.bits < 8
      requires f0.last == ref.last && BodyTables(ref.llens, ref.dlens)
      modifies this`next, this`hold, this`bits, this`ref, this`mode, this`last, this`length, this`offset, this`extra,
               this`nlen, this`ndist, this`ncode, this`have
      ensures Active() && Load() == r
    {
      hide Active, Rest, MeaningOf, BodyTables, Reads, TableFor, HasBit;
      ghost var to := DistNext(ref, f0.length, here);
      var f := f0;
      if HasBit(here.op, 6) {
        f := f.(mode := BAD);
        MeansType(f, r, to);
      } else {
        f := f.(mode := DISTEXT, offset := here.val, extra := here.op % 16);
        MeansDistExt(f, r, to);
      }
      Commit(r, f, to);
    }

    /** DISTEXT: the extra bits of a distance. */
    method DoDistExt() returns (leave: bool)
      requires Active() && mode == DISTEXT
      modifies this`next, this`hold, this`bits, this`ref, this`mode, this`last, this`length, this`offset, this`extra,
               this`nlen, this`ndist, this`ncode, this`have
      ensures Active() && (leave ==> Waiting()) && (!leave ==> Progress())
      ensures !leave && mode == LEN ==> bits < 8
    {
      hide Active, Rest, MeaningOf, BodyTables, Reads, Step, BitsOf, TableFor, Peek, Lookup, Low, Shr, Ok;
      Know();
      MeansDistExt(Fs(), Load(), ref);
      var f := Fs();
      var ok, r := NeedBits(fed, input, Load(), f.extra, ref);
      DistExtStep(ref, f.length, f.offset, f.extra, r.hold, r.bits);
      if !ok {
        MeansDistExt(f, r, ref);
        Commit(r, f, ref);
        return true;
      }
      ghost var to := ref.(mode := Mode.Copying(f.length, f.offset + Low(r.hold, f.extra)), pos := ref.pos + f.extra);
      Stepped(fed, input, r, ref, to, f.extra);
      f, r := f.(mode := MATCH, offset := f.offset + Low(r.hold, f.extra)), Dropped(r, f.extra);
      MeansMatch(f, r, to);
      Commit(r, f, to);
      leave := false;
    }

    // ----- matches -----

    /** The byte d places back from the first byte this call wrote is in the window. */
    lemma FromHistory(out: seq<byte>, d: nat)
      requires Rest(out) && 1 <= d <= win.whave
      ensures win.wnext < win.wsize && d <= win.wsize && win.IndexBack(d) < win.window.Length && |out| >= put + d
      ensures win.window[win.IndexBack(d)] == out[|out| - put - d]
    {
      hide FixedOk, LastN, Held;
      win.HistoryAt(d);
      InHistory(hist, output[..put], d);
    }

    /** A distance past the bytes this call wrote and the window reaches back past all output. */
    lemma Reachable(out: seq<byte>, dist: nat)
      requires Rest(out) && dist <= MAX_DISTANCE
      ensures dist <= put + win.whave <==> dist <= |out|
      ensures win.wnext <= win.wsize
    {
      hide TableFor;
    }

    lemma FromOutputAt(out: seq<byte>, dist: nat)
      requires Rest(out) && 1 <= dist <= put
      ensures dist <= |out| && out[|out| - dist] == output[put - dist]
    {
      hide FixedOk, Windowed, Shape;
      AtEnd(hist, output[..put], dist);
    }

    /** Copy n bytes of a match from the window, starting at `from`, which is `dist - put` back. */
    method CopyFromWindow(from: nat, n: nat, ghost dist: nat, ghost out: seq<byte>)
      requires Rest(out) && put < dist && dist - put <= win.whave && win.wnext < win.wsize && put + n <= output.Length
      requires from == win.IndexBack(dist - put) && n <= dist - put && from + n <= win.wsize
      modifies this`put, output
      ensures dist <= |out| && Rest(CopyMatch(out, n, dist)) && put == old(put) + n
    {
      hide Rest, LastN, TableFor;
      FromHistory(out, dist - put);
      ghost var put0, d := put, dist - put;
      var k := 0;
      while k < n
        invariant k <= n && put == put0 + k && Rest(CopyMatch(out, k, dist))
      {
        ghost var now := CopyMatch(out, k, dist);
        FromHistory(now, d - k);
        CopySnoc(out, k, dist);
        PutBytes([win.window[from + k]], now);
        k := k + 1;
      }
    }

    /** Copy n bytes of a match from the output, which may be bytes of the match itself. */
    method CopyFromOutput(dist: nat, n: nat, ghost out: seq<byte>)
      requires Rest(out) && 1 <= dist <= put && put + n <= output.Length
      modifies this`put, output
      ensures dist <= |out| && Rest(CopyMatch(out, n, dist)) && put == old(put) + n
    {
      hide Rest, LastN, TableFor;
      FromOutputAt(out, dist);
      ghost var put0 := put;
      var k, from := 0, put - dist;
      while k < n
        invariant k <= n && put == put0 + k && from == put - dist && Rest(CopyMatch(out, k, dist))
      {
        ghost var now := CopyMatch(out, k, dist);
        FromOutputAt(now, dist);
        CopySnoc(out, k, dist);
        PutBytes([output[from]], now);
        k, from := k + 1, from + 1;
      }
    }

    /** MATCH: as many bytes of the match as the output has room for, from the window or from the output. */
    method DoMatch() returns (leave: bool)
      requires Active() && mode == MATCH
      modifies this`next, this`hold, this`bits, this`ref, this`mode, this`last, this`length, this`offset, this`extra,
               this`nlen, this`ndist, this`ncode, this`have,
               this`put, output
      ensures Active() && (leave ==> Waiting()) && (!leave ==> Progress())
      ensures !leave && mode == LEN ==> bits < 8
    {
      hide Active, Rest, MeaningOf, BodyTables, Reads, Step, BitsOf, TableFor, Peek, Lookup, Low, Shr, Ok, CopyMatch;
      Know();
      MeansMatch(Fs(), Load(), ref);
      if put == output.Length { return true; }
      var f, r := Fs(), Load();
      MatchRange(fed, input, r, ref);
      var bad, copy := CopyPart(f.offset, f.length, ref.out);
      leave := false;
      if bad {
        ghost var to := ref.(mode := Bad);
        TooFarStep(ref, f.length, f.offset, BitsOf(r.hold, r.bits));
        Stepped(fed, input, r, ref, to, 0);
        DropNothing(r);
        f := f.(mode := BAD);
        MeansType(f, r, to);
        Commit(r, f, to);
      } else {
        ghost var to := Copied(ref, f.length, f.offset, copy);
        MatchCopied(fed, input, r, ref, f.length, f.offset, copy);
        f := f.(length := f.length - copy);
        if f.length == 0 {
          f := f.(mode := LEN);
          MeansLen(f, r, to);
        } else {
          MeansMatch(f, r, to);
        }
        Commit(r, f, to);
      }
    }

    /** The bytes of a match that the output has room for and that lie in one piece. */
    method CopyPart(dist: nat, len: nat, ghost out: seq<byte>) returns (bad: bool, copy: nat)
      requires Rest(out) && 1 <= dist <= MAX_DISTANCE && 1 <= len && put < output.Length
      modifies this`put, output
      ensures bad <==> dist > |out|
      ensures bad ==> Rest(out) && put == old(put)
      ensures !bad ==> 1 <= copy <= len && put == old(put) + copy && Rest(CopyMatch(out, copy, dist))
    {
      hide Rest, CopyMatch, LastN, TableFor;
      Reachable(out, dist);
      bad := false;
      if dist > put {
        copy := dist - put;
        if copy > win.whave { return true, 0; }
        FromHistory(out, copy);
        var from := win.IndexBack(copy);
        if copy > win.wnext { copy := copy - win.wnext; }
        if copy > len { copy := len; }
        if copy > output.Length - put { copy := output.Length - put; }
        CopyFromWindow(from, copy, dist, out);
      } else {
        copy := len;
        if copy > output.Length - put { copy := output.Length - put; }
        CopyFromOutput(dist, copy, out);
      }
    }

    // ----- inflate_fast() -----

    /** The bytes of a match that come from the window; the rest is then at `from` or in the output. */
    method FastWindow(dist: nat, len: nat, ghost out: seq<byte>) returns (left: nat, inWindow: bool, from: nat)
      requires Rest(out) && put < dist && dist - put <= win.whave && 1 <= len && put + len <= output.Length
      modifies this`put, output
      ensures dist <= |out| && left <= len && put == old(put) + len - left && Rest(CopyMatch(out, len - left, dist))
      ensures inWindow ==> put < dist && dist - put <= win.whave && win.wnext < win.wsize && from == win.IndexBack(dist - put)
                           && left <= dist - put && from + left <= win.wsize
      ensures !inWindow ==> dist <= put
    {
      hide Rest, CopyMatch, LastN, TableFor;
      FromHistory(out, dist - put);
      CopyNone(out, dist);
      var op := dist - put;
      left, inWindow := len, true;
      if win.wnext == 0 {
        from := win.wsize - op;
        if op < left {
          CopyFromWindow(from, op, dist, out);
          left, inWindow := left - op, false;
        }
      } else if win.wnext < op {
        from := win.wsize + win.wnext - op;
        op := op - win.wnext;
        if op < left {
          CopyFromWindow(from, op, dist, out);
          left, from := left - op, 0;
          if win.wnext < left {
            CopySplit(out, op, win.wnext, dist);
            op := win.wnext;
            CopyFromWindow(from, op, dist, CopyMatch(out, len - left, dist));
            left, inWindow := left - op, false;
          }
        }
      } else {
        from := win.wnext - op;
        if op < left {
          CopyFromWindow(from, op, dist, out);
          left, inWindow := left - op, false;
        }
      }
    }

    lemma CopyNone(out: seq<byte>, dist: nat)
      requires 1 <= dist <= |out|
      ensures CopyMatch(out, 0, dist) == out
    {}

    /** Bytes by threes; no match is shorter than three. */
    method CopyDirect(dist: nat, len: nat, ghost out: seq<byte>)
      requires Rest(out) && 1 <= dist <= put && put + len <= output.Length && 3 <= len
      modifies this`put, output
      ensures dist <= |out| && Rest(CopyMatch(out, len, dist)) && put == old(put) + len
    {
      hide Rest, CopyMatch, LastN, TableFor;
      ghost var put0 := put;
      CopyFromOutput(dist, 3, out);
      var left := len - 3;
      while left > 2
        invariant left <= len && put == put0 + len - left && Rest(CopyMatch(out, len - left, dist))
      {
        CopySplit(out, len - left, 3, dist);
        CopyFromOutput(dist, 3, CopyMatch(out, len - left, dist));
        left := left - 3;
      }
      CopySplit(out, len - left, left, dist);
      CopyFromOutput(dist, left, CopyMatch(out, len - left, dist));
    }

    /** The whole match. */
    method FastMatch(dist: nat, len: nat, ghost out: seq<byte>) returns (bad: bool)
      requires Rest(out) && 1 <= dist <= MAX_DISTANCE && 3 <= len && put + len <= output.Length
      modifies this`put, output
      ensures bad <==> dist > |out|
      ensures bad ==> Rest(out) && put == old(put)
      ensures !bad ==> put == old(put) + len && Rest(CopyMatch(out, len, dist))
    {
      hide Rest, CopyMatch, LastN, TableFor;
      Reachable(out, dist);
      if dist > put {
        if dist - put > win.whave { return true; }
        var left, inWindow, from := FastWindow(dist, len, out);
        CopySplit(out, len - left, left, dist);
        if inWindow {
          CopyFromWindow(from, left, dist, CopyMatch(out, len - left, dist));
        } else {
          CopyFromOutput(dist, left, CopyMatch(out, len - left, dist));
        }
      } else {
        CopyDirect(dist, len, out);
      }
      bad := false;
    }

    /** One turn of the fast loop. */
    method FastTurn(r0: Registers, ghost s0: State, ghost floor: nat) returns (m: InflateMode, r: Registers, ghost s: State)
      requires Rest(s0.out) && BodyTables(s0.llens, s0.dlens) && Ahead(fed, input, r0, s0, floor) && s0.mode == Len
      requires r0.bits <= 30 && r0.next + 6 <= |input| && put + 258 <= output.Length
      modifies this`put, output
      ensures Rest(s.out) && BodyTables(s.llens, s.dlens) && Ahead(fed, input, r, s, floor) && s.last == s0.last
      ensures r.bits <= 30 && r.next <= r0.next + 6 && put <= old(put) + 258 && s.pos > s0.pos
      ensures r0.bits < Peek(lencode[..], lenbits, r0.hold).bits ==> s.pos > s0.pos + r0.bits
      ensures m in {LEN, TYPE, BAD} && s.mode == if m == LEN then Len else if m == TYPE then Type else Bad
    {
      hide Rest, BodyTables, Ahead, Step, BitsOf, TableFor, Peek, CopyMatch, Ok;
      TablesAre(s0.llens, s0.dlens);
      var piece;
      piece, r, s := FastPiece(fed, input, r0, s0, floor, lencode, lenbits, distcode, distbits);
      match piece {
        case Byte(b) =>
          AheadLiteral(fed, input, r, s, floor, b);
          PutBytes([b], s.out);
          s := s.(mode := Len, out := s.out + [b]);
          m := LEN;
        case Pair(len, dist) =>
          PairRange(fed, input, r, s, floor);
          var bad := FastMatch(dist, len, s.out);
          if bad {
            AheadTooFar(fed, input, r, s, floor, len, dist);
            s := s.(mode := Bad);
            m := BAD;
          } else {
            AheadCopied(fed, input, r, s, floor, len, dist);
            s := Copied(s, len, dist, len);
            m := LEN;
          }
        case End =>
          m := TYPE;
        case Wrong =>
          m := BAD;
      }
    }

    /** inflate_fast() */
    method Fast()
      requires Active() && mode == LEN && next + 6 <= |input| && put + 258 <= output.Length
      modifies this`next, this`hold, this`bits, this`ref, this`mode, this`last, this`length, this`offset, this`extra,
               this`nlen, this`ndist, this`ncode, this`have,
               this`put, output
      ensures Active() && Progress() && bits < 8 && mode in {LEN, TYPE, BAD}
    {
      hide Active, Rest, MeaningOf, BodyTables, Reads, Ahead, TableFor, Peek, Ok;
      Know();
      MeansLen(Fs(), Load(), ref);
      LookupBits();
      var f := Fs();
      var m, r;
      ghost var s;
      m, r, s := FastLoop(Load(), ref);
      f := f.(mode := m);
      if m == LEN {
        MeansLen(f, r, s);
      } else {
        MeansType(f, r, s);
      }
      Commit(r, f, s);
    }

    /** The loop of inflate_fast(), and giving back what was read too far. */
    method FastLoop(r0: Registers, ghost s0: State) returns (m: InflateMode, r: Registers, ghost s: State)
      requires Rest(s0.out) && BodyTables(s0.llens, s0.dlens) && Reads(fed, input, r0, s0) && s0.mode == Len
      requires r0.bits < 8 || r0.bits < Peek(lencode[..], lenbits, r0.hold).bits
      requires r0.bits < 15 && r0.next + 6 <= |input| && put + 258 <= output.Length
      modifies this`put, output
      ensures Rest(s.out) && BodyTables(s.llens, s.dlens) && Reads(fed, input, r, s) && s.last == s0.last
      ensures r.bits < 8 && UnseenOf(input, r) < UnseenOf(input, r0)
      ensures m in {LEN, TYPE, BAD} && s.mode == if m == LEN then Len else if m == TYPE then Type else Bad
    {
      hide Rest, BodyTables, Reads, Ahead, Peek, Ok, Pow2, UnseenOf;
      ghost var floor := |fed| + r0.next;
      AheadStart(fed, input, r0, s0);
      m, r, s := FastTurn(r0, s0, floor);
      m, r, s := FastTurns(m, r, s, floor);
      FarEnough(fed, input, r0, s0, r, s);
      r := GiveBack(fed, input, r, s, floor);
    }

    /** Further turns while there is input and room for one. */
    method FastTurns(m0: InflateMode, r0: Registers, ghost s0: State, ghost floor: nat) returns (m: InflateMode, r: Registers, ghost s: State)
      requires Rest(s0.out) && BodyTables(s0.llens, s0.dlens) && Ahead(fed, input, r0, s0, floor) && r0.bits <= 30
      requires m0 in {LEN, TYPE, BAD} && s0.mode == if m0 == LEN then Len else if m0 == TYPE then Type else Bad
      modifies this`put, output
      ensures Rest(s.out) && BodyTables(s.llens, s.dlens) && Ahead(fed, input, r, s, floor) && s.last == s0.last && s.pos >= s0.pos
      ensures m in {LEN, TYPE, BAD} && s.mode == if m == LEN then Len else if m == TYPE then Type else Bad
    {
      hide Rest, BodyTables, Ahead, Peek, Ok, Pow2;
      m, r, s := m0, r0, s0;
      AheadFacts(fed, input, r, s, floor);
      while m == LEN && r.next + 6 <= |input| && put + 258 <= output.Length
        invariant Rest(s.out) && BodyTables(s.llens, s.dlens) && Ahead(fed, input, r, s, floor) && s.last == s0.last
        invariant r.bits <= 30 && s0.pos <= s.pos <= 8 * (|fed| + |input|)
        invariant m in {LEN, TYPE, BAD} && s.mode == if m == LEN then Len else if m == TYPE then Type else Bad
        decreases 8 * (|fed| + |input|) - s.pos
      {
        m, r, s := FastTurn(r, s, floor);
        AheadFacts(fed, input, r, s, floor);
      }
    }

    /** What may be left over when the fast loop starts: it can be more than 7 bits, but then fewer than the next code has. */
    lemma LookupBits()
      requires Meaning() && mode == LEN
      ensures bits < 15
    {
      hide TableFor, Peek;
      if bits >= 8 {
        PeekIs(lencode[..], lenbits, ref.llens, Lens, hold);
        TableEntryBits(lencode[..], lenbits, ref.llens, Lens, hold);
      }
    }

    // ----- inflate() -----

    /** A turn of inflate()'s loop would be taken by the fast loop, and with 8 bits or more. */
    predicate EntersWide()
      reads this`mode, this`bits, this`input, this`next, this`output, this`put
    {
      mode == LEN && bits >= 8 && |input| - next >= 6 && output.Length - put >= 258
    }

    /** One turn of inflate()'s loop; wide says that it entered the fast loop with 8 bits or more. */
    method Turn() returns (leave: bool, ghost wide: bool)
      requires Active()
      modifies this`next, this`hold, this`bits, this`ref, this`mode, this`last, this`length, this`offset, this`extra,
               this`nlen, this`ndist, this`ncode, this`have,
               this`lencode, this`lenbits, this`distcode, this`distbits, lens, codes, dcodes, this`put, output
      ensures Active() && (leave ==> Waiting()) && (!leave ==> Progress())
      ensures !leave && mode == LEN ==> bits < 8
      ensures wide == old(EntersWide())
    {
      hide Active, Progress, Waiting;
      wide := false;
      match mode {
        case TYPE => leave := DoType();
        case STORED => leave := DoStored();
        case COPY => leave := DoCopy();
        case TABLE => leave := DoTable();
        case LENLENS => leave := DoLenLens();
        case CODELENS => leave := DoCodeLens();
        case LEN =>
          ReadInput();
          if |input| - next >= 6 && output.Length - put >= 258 {
            wide := bits >= 8;
            Fast();
            leave := false;
          } else {
            leave := DoLen();
          }
        case LENEXT => leave := DoLenExt();
        case DIST => leave := DoDist();
        case DISTEXT => leave := DoDistExt();
        case MATCH => leave := DoMatch();
        case LIT => leave := DoLit();
        case CHECK => leave := DoCheck();
        case DONE => leave := true; Over();
        case BAD => leave := true; Over();
      }
    }

    lemma ReadInput()
      requires Active()
      ensures next <= |input| && put <= output.Length && Unseen() >= 0 && Left() >= 0
    {
      Know();
    }

    lemma Over()
      requires mode == DONE || mode == BAD
      ensures Waiting()
    {}

    twostate lemma Measured()
      requires old(Active()) && Progress() && output == old(output)
      ensures old(Unseen()) >= 0 && old(Left()) >= 0
      ensures Unseen() < old(Unseen()) ||
              (Unseen() == old(Unseen()) && (Left() < old(Left()) || (Left() == old(Left()) && Order0(mode) < old(Order0(mode)))))
    {
      hide Rest, Meaning, Reads;
      Read0();
    }

    twostate lemma Read0()
      requires old(Active())
      ensures old(Unseen()) >= 0 && old(Left()) >= 0
    {
      hide Meaning, Shape, FixedOk, Windowed, At, Unread;
    }

    /**
      Until it is finished or needs something from the caller. No turn of the loop but the first can
      enter the fast loop with 8 bits or more.
     */
    method Loop() returns (ghost wide: bool)
      requires Active()
      modifies this`next, this`hold, this`bits, this`ref, this`mode, this`last, this`length, this`offset, this`extra,
               this`nlen, this`ndist, this`ncode, this`have,
               this`lencode, this`lenbits, this`distcode, this`distbits, lens, codes, dcodes, this`put, output
      ensures Active() && Waiting() && wide == old(EntersWide())
    {
      hide Active, Progress, Waiting, Unseen, Left, Order0;
      ghost var first := true;
      wide := false;
      while true
        invariant Active()
        invariant first ==> !wide && EntersWide() == old(EntersWide())
        invariant !first ==> wide == old(EntersWide()) && (mode == LEN ==> bits < 8)
        decreases Unseen(), Left(), Order0(mode)
      {
        label before:
        ReadInput();
        ghost var now;
        var leave;
        leave, now := Turn();
        wide, first := wide || now, false;
        if leave { break; }
        Measured@before();
      }
    }

    /** What the caller is told: how the call ended, in terms of the reference. */
    ghost predicate Outcome(ret: int, inp: seq<byte>, out: array<byte>)
      reads this
    {
      && (ret == Z_STREAM_END <==> ref.mode.Done?)
      && (ret == Z_DATA_ERROR <==> ref.mode.Bad?)
      && (ret == Z_BUF_ERROR <==> !ref.mode.Done? && !ref.mode.Bad? && next == 0 && put == 0)
      && ret in {Z_STREAM_END, Z_DATA_ERROR, Z_BUF_ERROR, Z_OK}
      && (ret in {Z_OK, Z_BUF_ERROR} ==> put == out.Length || (next == |inp| && Waits(fed, ref)))
    }

    /**
      inflate() with Z_NO_FLUSH; wide says that this call entered the fast loop with 8 bits or more
      in the accumulator, at any time.
     */
    method Inflate(inp: seq<byte>, out: array<byte>) returns (ret: int, ghost wide: bool)
      requires Idle() && out != win.window
      modifies this, win, win.window, lens, codes, dcodes, out
      ensures Idle()
      ensures next <= |inp| && fed == old(fed) + inp[..next]
      ensures put <= out.Length && ref.out == old(ref.out) + out[..put]
      ensures Outcome(ret, inp, out)
      ensures wide <==> old(mode == LEN && bits >= 8) && |inp| >= 6 && out.Length >= 258
    {
      hide Idle, Active, Waiting, Outcome;
      if mode == BAD {
        wide := false;
        ret := StayBad(inp, out);
      } else {
        Open(inp, out);
        wide := Loop();
        ret := Close();
      }
    }

    /** A call after an error. */
    method StayBad(inp: seq<byte>, out: array<byte>) returns (ret: int)
      requires Idle() && out != win.window && mode == BAD
      modifies this`input, this`next, this`output, this`put, win, win.window
      ensures Idle() && next == 0 && put == 0 && fed == fed + inp[..next] && ref.out == ref.out + out[..put]
      ensures Outcome(ret, inp, out)
    {
      hide Idle, At, Unread, Shape, FixedOk, LastN, MeaningOf, Outcome;
      KnowIdle();
      ghost var f, r := Fs(), Load();
      SetBuffers(inp, out);
      SameMeaning(f, r, Load(), ref);
      if win.wsize != 0 {
        win.Update(out, 0, 0);
      }
      ret := Z_DATA_ERROR;
      BadSettled(inp, out);
    }

    lemma BadSettled(inp: seq<byte>, out: array<byte>)
      requires Shape() && FixedOk() && MeaningOf(Fs(), Load(), ref) && win.Valid() && mode == BAD
      requires At(fed, ref) && Unread(fed, ref.pos, hold, bits) && next == 0 && put == 0
      ensures Idle() && fed == fed + inp[..next] && ref.out == ref.out + out[..put] && Outcome(Z_DATA_ERROR, inp, out)
    {
      hide At, Unread, TableFor, LastN, Peek, Step, Shape, FixedOk, Order;
    }

    lemma KnowIdle()
      requires Idle()
      ensures Shape() && FixedOk() && MeaningOf(Fs(), Load(), ref)
      ensures At(fed, ref) && Unread(fed, ref.pos, hold, bits)
      ensures win.Valid() && (mode != BAD ==> win.History() == LastN(ref.out, WSIZE))
    {
      hide At, Unread, Shape, FixedOk, LastN, MeaningOf;
    }

    lemma SameMeaning(f: Fields, r: Registers, r': Registers, s: State)
      requires MeaningOf(f, r, s) && r'.hold == r.hold && r'.bits == r.bits
      ensures MeaningOf(f, r', s)
    {
      hide TableFor, Peek, Order;
    }

    method SetBuffers(inp: seq<byte>, out: array<byte>)
      requires Shape() && out != win.window
      modifies this`input, this`next, this`output, this`put
      ensures input == inp && next == 0 && output == out && put == 0 && Shape()
    {
      input, next, output, put := inp, 0, out, 0;
    }

    /** LOAD */
    method Open(inp: seq<byte>, out: array<byte>)
      requires Idle() && out != win.window && mode != BAD
      modifies this`input, this`next, this`output, this`put, this`hist
      ensures Active() && input == inp && output == out && next == 0 && put == 0 && hist == ref.out
    {
      hide Idle, At, Unread, Shape, FixedOk, LastN, MeaningOf, Active;
      KnowIdle();
      ghost var f, r := Fs(), Load();
      SetBuffers(inp, out);
      SameMeaning(f, r, Load(), ref);
      hist := ref.out;
      Opened();
    }

    lemma Opened()
      requires Shape() && FixedOk() && MeaningOf(Fs(), Load(), ref) && win.Valid() && win.History() == LastN(ref.out, WSIZE)
      requires At(fed, ref) && Unread(fed, ref.pos, hold, bits) && next == 0 && put == 0 && hist == ref.out
      ensures Active()
    {
      hide At, Unread, Shape, FixedOk, LastN, MeaningOf;
      assert fed + input[..0] == fed;
      assert hist + output[..0] == hist;
    }

    /** inf_leave: the return code and the window. */
    method Close() returns (ret: int)
      requires Active() && Waiting()
      modifies this`fed, win, win.window
      ensures Idle() && next <= |input| && fed == old(fed) + input[..next]
      ensures put <= output.Length && ref.out == hist + output[..put]
      ensures Outcome(ret, input, output)
    {
      hide Active, Rest, Waiting, Reads, MeaningOf, Windowed, Idle, Step, BitsOf, Outcome, Shape, FixedOk, Wrote, LastN, At, Unread;
      Know();
      ReadsIs();
      ret := if mode == DONE then Z_STREAM_END else if mode == BAD then Z_DATA_ERROR
             else if next == 0 && put == 0 then Z_BUF_ERROR else Z_OK;
      KeepWindow();
      fed := fed + input[..next];
      WroteIs();
      Settle(ret);
    }

    lemma ReadsIs()
      requires Reading()
      ensures next <= |input| && At(fed + input[..next], ref) && Unread(fed + input[..next], ref.pos, hold, bits)
    {
      hide At, Unread;
    }

    lemma WroteIs()
      requires Wrote(ref.out)
      ensures put <= output.Length && ref.out == hist + output[..put]
    {}

    /** updatewindow, unless the window is not in use and need not be. */
    method KeepWindow()
      requires Rest(ref.out)
      modifies win, win.window
      ensures Shape() && FixedOk() && Wrote(ref.out)
      ensures win.Valid() && (mode != BAD ==> win.History() == LastN(ref.out, WSIZE))
    {
      hide TableFor, LastN;
      if win.wsize != 0 || (put != 0 && mode != BAD) {
        win.Update(output, put, put);
        LastNConcat(hist, output[..put], WSIZE);
        WindowSize();
        assert output[put - put..put] == output[..put];
      } else {
        assert put == 0 ==> hist + output[..0] == hist;
      }
    }

    lemma WindowSize()
      ensures Pow2(WBITS) == WSIZE
    {
      Pow2Values();
    }

    lemma Settle(ret: int)
      requires Shape() && FixedOk() && MeaningOf(Fs(), Load(), ref) && Wrote(ref.out) && Waiting()
      requires win.Valid() && (mode != BAD ==> win.History() == LastN(ref.out, WSIZE))
      requires At(fed, ref) && Unread(fed, ref.pos, hold, bits)
      requires ret == if mode == DONE then Z_STREAM_END else if mode == BAD then Z_DATA_ERROR
                      else if next == 0 && put == 0 then Z_BUF_ERROR else Z_OK
      ensures Idle() && Outcome(ret, input, output)
    {
      hide At, Unread, TableFor, LastN, Peek, Step, BitsOf, Shape, FixedOk, Order;
      UnreadIs(fed, ref.pos, hold, bits);
    }

    /** inflateGetDictionary: between calls, the last 32768 bytes of all the output. */
    method GetDictionary(dictionary: array<byte>) returns (dictLength: nat)
      requires dictionary != win.window && WSIZE <= dictionary.Length && Idle() && mode != BAD
      modifies dictionary
      ensures dictLength <= dictionary.Length && dictionary[..dictLength] == LastN(ref.out, WSIZE)
    {
      hide At, Unread, Meaning, FixedOk, LastN, Shape, Idle, MeaningOf;
      KnowIdle();
      dictLength := win.GetDictionary(dictionary);
    }

    /** After the last block, no input is read that is not used. */
    lemma DoneAligned()
      requires Idle() && ref.mode.Done?
      ensures bits == 0 && ref.pos == 8 * |fed|
    {
      hide At, TableFor, Peek, LastN, FixedOk, Shape;
    }

  }

  /** The unused bytes are ones that the fast loop has read. */
  lemma FarEnough(fed: seq<byte>, input: seq<byte>, r0: Registers, s0: State, r: Registers, s: State)
    requires Reads(fed, input, r0, s0) && Ahead(fed, input, r, s, |fed| + r0.next) && s.pos > s0.pos
    requires r0.bits < 8 || s.pos > s0.pos + r0.bits
    ensures s.pos + 8 > 8 * (|fed| + r0.next) && UnseenOf(input, r) < UnseenOf(input, r0)
  {
    hide Reads, Ahead, Ok;
    ReadsPos(fed, input, r0, s0);
    AheadFacts(fed, input, r, s, |fed| + r0.next);
  }

  lemma PairRange(fed: seq<byte>, input: seq<byte>, r: Registers, s: State, floor: nat)
    requires Ahead(fed, input, r, s, floor) && s.mode.Copying?
    ensures s.mode.len <= MAX_MATCH && 1 <= s.mode.offset <= MAX_DISTANCE
  {
    hide Ahead, Usable;
    AheadFacts(fed, input, r, s, floor);
  }

  lemma AheadLiteral(fed: seq<byte>, input: seq<byte>, r: Registers, s: State, floor: nat, b: byte)
    requires Ahead(fed, input, r, s, floor) && s.mode == Literal(b)
    ensures Ahead(fed, input, r, s.(mode := Len, out := s.out + [b]), floor)
  {
    hide Ahead, Step, BitsOf;
    LiteralStep(s, b, BitsOf(r.hold, 0));
    FastStep(fed, input, r, s, floor, 0, s.(mode := Len, out := s.out + [b]));
    DropNothing(r);
  }

  lemma AheadTooFar(fed: seq<byte>, input: seq<byte>, r: Registers, s: State, floor: nat, len: nat, dist: nat)
    requires Ahead(fed, input, r, s, floor) && s.mode == Mode.Copying(len, dist) && dist > |s.out|
    ensures Ahead(fed, input, r, s.(mode := Bad), floor)
  {
    hide Ahead, Step, BitsOf;
    TooFarStep(s, len, dist, BitsOf(r.hold, 0));
    FastStep(fed, input, r, s, floor, 0, s.(mode := Bad));
    DropNothing(r);
  }

  lemma AheadCopied(fed: seq<byte>, input: seq<byte>, r: Registers, s: State, floor: nat, len: nat, dist: nat)
    requires Ahead(fed, input, r, s, floor) && s.mode == Mode.Copying(len, dist) && 1 <= len && 1 <= dist <= |s.out|
    ensures Ahead(fed, input, r, Copied(s, len, dist, len), floor)
  {
    hide At, Unread, ReadSoFar, CopyMatch;
    AtCopied((fed + input)[..Needed(s.pos, floor)], s, len, dist, len);
  }

  lemma InHistory(h: seq<byte>, w: seq<byte>, d: nat)
    requires 1 <= d <= |LastN(h, WSIZE)|
    ensures |h| >= d && LastN(h, WSIZE)[|LastN(h, WSIZE)| - d] == (h + w)[|h| - d]
  {}

  lemma AtEnd(h: seq<byte>, w: seq<byte>, d: nat)
    requires 1 <= d <= |w|
    ensures (h + w)[|h| + |w| - d] == w[|w| - d]
  {}

  lemma MatchRange(fed: seq<byte>, input: seq<byte>, r: Registers, s: State)
    requires Reads(fed, input, r, s) && s.mode.Copying?
    ensures 1 <= s.mode.len <= MAX_MATCH && 1 <= s.mode.offset <= MAX_DISTANCE
  {}

  lemma MatchCopied(fed: seq<byte>, input: seq<byte>, r: Registers, s: State, len: nat, dist: nat, n: nat)
    requires Reads(fed, input, r, s) && s.mode == Mode.Copying(len, dist) && 1 <= n <= len && 1 <= dist <= |s.out|
    ensures Reads(fed, input, r, Copied(s, len, dist, n))
  {
    hide At, Unread, ReadSoFar;
    AtCopied(ReadSoFar(fed, input, r.next), s, len, dist, n);
  }

  /** The step that ends the CODELENS state. */
  lemma CodeLensFinished(fed: seq<byte>, input: seq<byte>, r: Registers, s: State)
    requires Reads(fed, input, r, s) && s.mode.CodeLens? && |s.mode.got| == s.mode.nlen + s.mode.ndist
    ensures |s.mode.got| > 256 && |s.mode.got| >= s.mode.nlen
    ensures var got, n := s.mode.got, s.mode.nlen;
            Reads(fed, input, r, if got[256] != 0 && Acceptable(Lens, got[..n]) && Acceptable(Dists, got[n..])
                                 then s.(mode := Len, llens := got[..n], dlens := got[n..]) else s.(mode := Bad))
  {
    hide Reads, Step, BitsOf, Acceptable, Ok;
    LengthsOk(fed, input, r, s);
    var got, n := s.mode.got, s.mode.nlen;
    CodeLensEnd(s, n, s.mode.ndist, s.mode.bl, got, BitsOf(r.hold, r.bits));
    Stepped(fed, input, r, s, if got[256] != 0 && Acceptable(Lens, got[..n]) && Acceptable(Dists, got[n..])
                              then s.(mode := Len, llens := got[..n], dlens := got[n..]) else s.(mode := Bad), 0);
    DropNothing(r);
  }

  /** fixedtables: the tables of the fixed codes, as they are under BUILDFIXED. */
  method MakeFixed() returns (lenfix: array<Entry>, distfix: array<Entry>)
    ensures fresh(lenfix) && fresh(distfix) && lenfix != distfix
    ensures TableFor(lenfix[..], 9, FixedLens(), Lens) && TableFor(distfix[..], 5, FixedDists(), Dists)
  {
    hide TableFor, Complete, Usable, Acceptable, FixedLens, FixedDists;
    FixedComplete();
    FixedSizes();
    FixedShape();
    Pow2Values();
    lenfix, distfix := new Entry[ENOUGH_LENS], new Entry[ENOUGH_DISTS];
    CompleteAcceptable(Lens, FixedLens());
    CompleteAcceptable(Dists, FixedDists());
    var ret, root := InflateTable.InflateTable(Lens, FixedLens(), 9, lenfix);
    ret, root := InflateTable.InflateTable(Dists, FixedDists(), 5, distfix);
  }

  lemma FixedShape()
    ensures ValidLens(FixedLens()) && ValidLens(FixedDists())
    ensures (forall i :: 0 <= i < |FixedLens()| ==> FixedLens()[i] <= 9) && (exists i :: 0 <= i < |FixedLens()| && FixedLens()[i] == 9)
    ensures (forall i :: 0 <= i < |FixedDists()| ==> FixedDists()[i] <= 5) && (exists i :: 0 <= i < |FixedDists()| && FixedDists()[i] == 5)
  {
    assert FixedLens()[144] == 9;
    assert FixedDists()[0] == 5;
  }
}
