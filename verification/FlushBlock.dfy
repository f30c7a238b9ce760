/**
  The block side of deflate_state: tallying matches and literals, and _tr_flush_block, which
  writes the block in the cheapest of the three forms.
 */
module FlushBlock {
  import opened Options
  import opened Bits
  import opened BitWriter
  import opened Canonical
  import opened DecodeTable
  import opened Symbols
  import opened Reference
  import opened Runs
  import opened Heap
  import opened TokenCoding
  import opened RunCoding
  import opened TreeSending
  import opened Blocks
  import opened BlockDecoding
  import opened BlockCost
  import opened StaticTrees
  import opened DynamicTrees

  /** The bits of one whole block, in one of the three forms, standing for `data` and `tokens`. */
  ghost predicate IsBlock(bits: seq<bool>, pos: nat, last: bool, data: seq<byte>, tokens: seq<Token>) {
    || (|data| <= 0xffff && bits == StoredBits(pos, last, data))
    || (ValidTokens(tokens) && bits == FixedBits(last, tokens))
    || Dynamic(bits, last, tokens)
  }

  ghost predicate IsDynamic(bits: seq<bool>, last: bool, tokens: seq<Token>, ll: seq<nat>, dl: seq<nat>, bl: seq<nat>, n: nat) {
    ValidTokens(tokens) && Decodable(ll, dl, bl, n) && AllCodable(ll, dl, tokens) &&
    bits == DynBits(last, ll, dl, bl, n, tokens)
  }

  /** These bits are a block of these tokens in the dynamic form, under trees the decoder accepts. */
  ghost predicate Dynamic(bits: seq<bool>, last: bool, tokens: seq<Token>) {
    exists ll, dl, bl, n :: IsDynamic(bits, last, tokens, ll, dl, bl, n)
  }

  /** Whatever the form, the decoder reads the block back. */
  lemma BlockRun(s: State, bits: seq<bool>, last: bool, data: seq<byte>, tokens: seq<Token>) returns (t: State)
    requires Between(s) && IsBlock(bits, s.pos, last, data, tokens)
    requires AllFitting(s.out, tokens) && Expand(s.out, tokens) == s.out + data
    ensures t.mode == Type && t.last == last && t.pos == s.pos + |bits| && t.out == s.out + data && Ok(t)
    ensures forall rest: seq<bool> :: Reaches(s, bits + rest, t, rest)
  {
    hide Ok, Expand, AllFitting, StoredBits, FixedBits, DynBits, Decodable, AllCodable, FixedLens, FixedDists, ValidTokens, Run;
    if |data| <= 0xffff && bits == StoredBits(s.pos, last, data) {
      t := After(s, last, s.llens, s.dlens, |bits|, s.out + data);
      forall rest: seq<bool> ensures Reaches(s, bits + rest, t, rest) {
        StoredRun(s, last, data, rest);
      }
    } else if ValidTokens(tokens) && bits == FixedBits(last, tokens) {
      t := After(s, last, FixedLens(), FixedDists(), |bits|, s.out + data);
      forall rest: seq<bool> ensures Reaches(s, bits + rest, t, rest) {
        FixedRun(s, last, tokens, rest);
      }
    } else {
      var ll, dl, bl, n :| IsDynamic(bits, last, tokens, ll, dl, bl, n);
      t := After(s, last, ll, dl, |bits|, s.out + data);
      forall rest: seq<bool> ensures Reaches(s, bits + rest, t, rest) {
        DynRun(s, last, ll, dl, bl, n, tokens, rest);
      }
    }
    ReachedOk(s, bits, t);
  }

  lemma ReachedOk(s: State, bits: seq<bool>, t: State)
    requires Ok(s) && Reaches(s, bits + [], t, [])
    ensures Ok(t)
  {
    hide Ok, Run;
    var k: nat :| Run(k, s, bits + [], t, []);
    RunOk(k, s, bits + [], t, []);
  }

  /** The stream so far decodes to s.out and leaves the decoder in s, whatever follows. */
  ghost predicate Delivers(stream: seq<bool>, s: State) {
    Ok(s) && s.pos == |stream| && forall rest: seq<bool> :: Reaches(INIT, stream + rest, s, rest)
  }

  /** What the decoder has after one more block. */
  lemma DeliverBlock(stream: seq<bool>, s: State, bits: seq<bool>, last: bool, data: seq<byte>, tokens: seq<Token>) returns (t: State)
    requires Delivers(stream, s) && s.mode == Type && !s.last && IsBlock(bits, |stream|, last, data, tokens)
    requires AllFitting(s.out, tokens) && Expand(s.out, tokens) == s.out + data
    ensures Delivers(stream + bits, t) && t.mode == Type && t.last == last && t.out == s.out + data
  {
    hide Ok, Expand, AllFitting, IsBlock, Reaches;
    t := BlockRun(s, bits, last, data, tokens);
    forall rest: seq<bool> ensures Reaches(INIT, stream + bits + rest, t, rest) {
      assert stream + bits + rest == stream + (bits + rest);
      assert Reaches(INIT, stream + (bits + rest), s, bits + rest);
      assert Reaches(s, bits + rest, t, rest);
      ReachesTrans(INIT, stream + (bits + rest), s, bits + rest, t, rest);
    }
  }

  /** After the last block the padding ends the stream. */
  lemma DeliverEnd(stream: seq<bool>, s: State) returns (t: State)
    requires Delivers(stream, s) && s.mode == Type && s.last
    ensures t == s.(mode := Done, pos := t.pos) && Delivers(stream + BitsOf(0, Padding(|stream|)), t)
  {
    hide Reaches, Padding, BitsOf;
    var pad := BitsOf(0, Padding(|stream|));
    t := s.(mode := Done, pos := s.pos + |pad|);
    EndOk(s, t);
    forall rest: seq<bool> ensures Reaches(INIT, stream + pad + rest, t, rest) {
      assert stream + pad + rest == stream + (pad + rest);
      assert Reaches(INIT, stream + (pad + rest), s, pad + rest);
      EndStep(s, pad, rest);
      ReachesTrans(INIT, stream + (pad + rest), s, pad + rest, t, rest);
    }
  }

  lemma EndOk(s: State, t: State)
    requires Ok(s) && t == s.(mode := Done, pos := t.pos)
    ensures Ok(t)
  {}

  lemma EndStep(s: State, pad: seq<bool>, rest: seq<bool>)
    requires s.mode == Type && s.last && |pad| == Padding(s.pos)
    ensures Reaches(s, pad + rest, s.(mode := Done, pos := s.pos + |pad|), rest)
  {
    hide Reaches, Padding, Field, FixedLens, FixedDists, StepStored, StepCopy, StepTable, StepLenLens, StepCodeLens, StepLen,
         StepLenExt, StepDist, StepDistExt, StepCopying;
    assert (pad + rest)[|pad|..] == rest;
    ReachesStep(s, pad + rest);
  }

  lemma NothingDelivered()
    ensures Delivers([], INIT)
  {
    hide Run;
    forall rest: seq<bool> ensures Reaches(INIT, [] + rest, INIT, rest) {
      assert [] + rest == rest;
      ReachesSelf(INIT, rest);
    }
    InitOk();
  }

  lemma InitOk()
    ensures Ok(INIT)
  {
    AllZeroBase([], MAX_BITS + 1);
  }

  // ----- the compression state -----

  class Encoder {
    const w: Writer
    const lfc: array<nat>      // dyn_ltree, the two halves of each ct_data
    const ldl: array<nat>
    const dfc: array<nat>      // dyn_dtree
    const ddl: array<nat>
    const slfc: array<nat>     // static_ltree
    const sldl: array<nat>
    const sdfc: array<nat>     // static_dtree
    const sddl: array<nat>
    const dBuf: array<nat>
    const lBuf: array<nat>
    const litBufsize: nat
    const fixedOnly: bool      // strategy == Z_FIXED
    var lastLit: nat

    ghost predicate Distinct() {
      && lfc != ldl && lfc != dfc && lfc != ddl && ldl != dfc && ldl != ddl && dfc != ddl
      && slfc !in {lfc, ldl, dfc, ddl, dBuf, lBuf} && sldl !in {lfc, ldl, dfc, ddl, dBuf, lBuf}
      && sdfc !in {lfc, ldl, dfc, ddl, dBuf, lBuf} && sddl !in {lfc, ldl, dfc, ddl, dBuf, lBuf}
      && dBuf !in {lfc, ldl, dfc, ddl, lBuf} && lBuf !in {lfc, ldl, dfc, ddl}
    }

    ghost predicate Sized() {
      && lfc.Length == HEAP_SIZE && ldl.Length == HEAP_SIZE
      && dfc.Length == 2 * D_CODES + 1 && ddl.Length == 2 * D_CODES + 1
      && dBuf.Length == litBufsize && lBuf.Length == litBufsize && 1 <= litBufsize <= 0x8000
    }

    ghost predicate Static()
      reads slfc, sldl, sdfc, sddl
    {
      TreeIs(slfc[..], sldl[..], FixedLens()) && TreeIs(sdfc[..], sddl[..], StaticDists())
    }

    /** The tokens tallied since the last flush. */
    ghost function Tokens(): (r: seq<Token>)
      requires Buffered()
      reads this, dBuf, lBuf
      ensures ValidTokens(r) && |r| == lastLit
    {
      TokensOf(dBuf[..lastLit], lBuf[..lastLit])
    }

    ghost predicate Buffered()
      reads this, dBuf, lBuf
    {
      lastLit < litBufsize && dBuf.Length == litBufsize && lBuf.Length == litBufsize &&
      ValidBuffers(dBuf[..lastLit], lBuf[..lastLit])
    }

    /** All but the frequencies, which the codes overwrite while a block is written. */
    ghost predicate Ready()
      reads this, w, slfc, sldl, sdfc, sddl, dBuf, lBuf
    {
      w.Valid() && Distinct() && Sized() && Static() && Buffered()
    }

    ghost predicate Valid()
      reads this, w, lfc, dfc, slfc, sldl, sdfc, sddl, dBuf, lBuf
    {
      && Ready() && lfc[..L_CODES] == LitFreqs(Tokens()) && dfc[..D_CODES] == DistFreqs(Tokens())
    }

    lemma Knows()
      requires Valid()
      ensures Buffered() && w.Valid()
    {
      hide Buffered, Distinct, Sized, Static, LitFreqs, DistFreqs;
    }

    /** _tr_init */
    constructor (size: nat, strategyFixed: bool)
      requires 2 <= size <= 0x8000
      ensures Valid() && Tokens() == [] && w.Stream() == [] && litBufsize == size && fixedOnly == strategyFixed
      ensures fresh(w) && fresh(lfc) && fresh(ldl) && fresh(dfc) && fresh(ddl) && fresh(dBuf) && fresh(lBuf)
    {
      hide TreeIs, FixedLens, StaticDists, LitFreqs, DistFreqs, TokensOf, ValidBuffers, BytesBits, BitsOf, Usable;
      var a, b, c, d := BothTrees();
      slfc, sldl, sdfc, sddl := a, b, c, d;
      lfc, ldl := new nat[HEAP_SIZE], new nat[HEAP_SIZE];
      dfc, ddl := new nat[2 * D_CODES + 1], new nat[2 * D_CODES + 1];
      dBuf, lBuf := new nat[size], new nat[size];
      w := new Writer();
      litBufsize, fixedOnly, lastLit := size, strategyFixed, 0;
      new;
      InitBlock();
    }

    /** _tr_tally: true if the block must be flushed now. */
    method Tally(dist: nat, lc: nat) returns (flush: bool)
      requires Valid() && lastLit + 1 < litBufsize && dist <= MAX_DISTANCE && lc < 256
      modifies this`lastLit, lfc, dfc, dBuf, lBuf
      ensures Valid() && Tokens() == old(Tokens()) + [TokenAt(dist, lc)]
      ensures lastLit == old(lastLit) + 1 && (flush <==> lastLit == litBufsize - 1)
    {
      hide LitFreqs, DistFreqs, LengthCode, DistCode, TreeIs, FixedLens, StaticDists;
      ghost var tokens, db: seq<nat>, lb: seq<nat> := Tokens(), dBuf[..lastLit], lBuf[..lastLit];
      ghost var t := TokenAt(dist, lc);
      dBuf[lastLit] := dist;
      lBuf[lastLit] := lc;
      lastLit := lastLit + 1;
      assert dBuf[..lastLit] == db + [dist] && lBuf[..lastLit] == lb + [lc];
      BufferPush(db, lb, dist, lc);
      FreqsPush(tokens, t);
      ghost var lf: seq<nat>, df: seq<nat> := lfc[..L_CODES], dfc[..D_CODES];
      if dist == 0 {
        lfc[lc] := lfc[lc] + 1;
        assert lfc[..L_CODES] == Bump(lf, lc) && dfc[..D_CODES] == df;
      } else {
        var d: nat := dist - 1;
        ghost var c := LITERALS + 1 + LengthCode(lc);
        lfc[LengthCode(lc) + LITERALS + 1] := lfc[LengthCode(lc) + LITERALS + 1] + 1;
        dfc[DistCode(d)] := dfc[DistCode(d)] + 1;
        assert lfc[..L_CODES] == Bump(lf, c) && dfc[..D_CODES] == Bump(df, DistCode(d));
      }
      flush := lastLit == litBufsize - 1;
    }

    /** init_block */
    method InitBlock()
      requires Sized() && Distinct() && Static() && w.Valid()
      modifies this`lastLit, lfc, dfc
      ensures Valid() && Tokens() == []
    {
      hide TreeIs, FixedLens, StaticDists;
      for n := 0 to L_CODES
        invariant forall i :: 0 <= i < n ==> lfc[i] == 0
      {
        lfc[n] := 0;
      }
      for n := 0 to D_CODES
        invariant forall i :: 0 <= i < n ==> dfc[i] == 0
        invariant forall i :: 0 <= i < L_CODES ==> lfc[i] == 0
      {
        dfc[n] := 0;
      }
      lfc[END_BLOCK] := 1;
      lastLit := 0;
      assert dBuf[..0] == [] && lBuf[..0] == [];
      NoTokens(lfc[..L_CODES], dfc[..D_CODES]);
    }

    /** The static form. */
    method FixedBlock(last: bool)
      requires Ready()
      modifies w
      ensures w.Valid() && w.Stream() == old(w.Stream()) + FixedBits(last, Tokens())
    {
      hide TreeIs, FixedLens, StaticDists, LitFreqs, DistFreqs, TokensBits, BitsOf, Codable, Code;
      ghost var start := w.Stream();
      Pow2Values();
      var flag: nat := if last then 1 else 0;
      w.SendBits(2 * STATIC_TREES + flag, 3);
      StaticCodable(Tokens());
      CompressBlock(w, dBuf, lBuf, lastLit, slfc, sldl, FixedLens(), sdfc, sddl, StaticDists());
      SameTokens(FixedLens(), Tokens());
      assert w.Stream() == start + (HeaderBits(STATIC_TREES, last) + BodyBits(FixedLens(), FixedDists(), Tokens()));
    }

    /** The dynamic form, its trees built. */
    method DynBlock(last: bool, lmax: nat, dmax: nat, bfc: array<nat>, bdl: array<nat>, maxBlindex: nat,
                    ghost ll: seq<nat>, ghost dl: seq<nat>, ghost bl: seq<nat>)
      requires Ready() && maxBlindex < BL_CODES && lmax + 1 < ldl.Length && dmax + 1 < ddl.Length
      requires ll == ldl[..lmax + 1] && dl == ddl[..dmax + 1] && Guarded(ldl[..], ll) && Guarded(ddl[..], dl)
      requires TreeIs(lfc[..], ldl[..], ll) && TreeIs(dfc[..], ddl[..], dl) && TreeIs(bfc[..], bdl[..], bl)
      requires Sendable3(ll, dl, bl, maxBlindex + 1) && AllCodable(ll, dl, Tokens())
      modifies w
      ensures w.Valid() && w.Stream() == old(w.Stream()) + DynBits(last, ll, dl, bl, maxBlindex + 1, Tokens())
    {
      hide TreeIs, FixedLens, StaticDists, LitFreqs, DistFreqs, BodyBits, BitsOf, Codable, Code, TreesBits, Ops, OpsBits, SymbolOf, ValidOp, Guarded;
      ghost var start := w.Stream();
      Pow2Values();
      var flag: nat := if last then 1 else 0;
      w.SendBits(2 * DYN_TREES + flag, 3);
      SendAllTrees(w, ldl, lmax + 1, ddl, dmax + 1, bfc, bdl, bl, maxBlindex + 1);
      CompressBlock(w, dBuf, lBuf, lastLit, lfc, ldl, ll, dfc, ddl, dl);
      assert w.Stream() == start + (HeaderBits(DYN_TREES, last) + (TreesBits(ll, dl, bl, maxBlindex + 1) + BodyBits(ll, dl, Tokens())));
    }

    /** Both trees and the code length tree, with the sizes of the dynamic and the static form. */
    method MakeTrees()
      returns (lmax: nat, dmax: nat, bfc: array<nat>, bdl: array<nat>, maxBlindex: nat, opt: nat, stat: nat,
               ghost ll: seq<nat>, ghost dl: seq<nat>, ghost bl: seq<nat>)
      requires Valid()
      modifies lfc, ldl, dfc, ddl
      ensures Ready() && Tokens() == old(Tokens())
      ensures fresh(bfc) && fresh(bdl) && maxBlindex < BL_CODES && lmax + 1 < ldl.Length && dmax + 1 < ddl.Length
      ensures ll == ldl[..lmax + 1] && dl == ddl[..dmax + 1] && Guarded(ldl[..], ll) && Guarded(ddl[..], dl)
      ensures TreeIs(lfc[..], ldl[..], ll) && TreeIs(dfc[..], ddl[..], dl) && TreeIs(bfc[..], bdl[..], bl)
      ensures Decodable(ll, dl, bl, maxBlindex + 1) && AllCodable(ll, dl, Tokens())
      ensures opt == |TreesBits(ll, dl, bl, maxBlindex + 1)| + |BodyBits(ll, dl, Tokens())|
      ensures stat == |BodyBits(FixedLens(), FixedDists(), Tokens())|
    {
      hide TreeIs, FixedLens, StaticDists, FixedDists, LitFreqs, DistFreqs, BodyBits, Codable, TreesBits, Ops, SymbolOf, ValidOp, Guarded,
           CodeBuilt, LitPrice, DistPrice, Acceptable, Complete, Static, ValidLens;
      ghost var tokens := Tokens();
      var o: int, st: int;
      lmax, dmax, o, st, ll, dl := BuildBoth(lfc, ldl, dfc, ddl, tokens);
      CodesReady(lfc[..], ldl[..], dfc[..], ddl[..], ll, dl, tokens);
      assert ldl[..lmax + 1][END_BLOCK] == ldl[END_BLOCK];
      ghost var l0: seq<nat>, d0: seq<nat> := ldl[..], ddl[..];
      bfc, bdl, maxBlindex, o, bl := BuildBlTree(ldl, lmax, ddl, dmax, o);
      GuardKeeps(lfc[..], l0, ll, lmax + 1);
      GuardKeeps(dfc[..], d0, dl, dmax + 1);
      CompleteAcceptable(Codes, bl);
      SizesAre(ll, dl, tokens);
      opt, stat := o, st;
    }

    /**
      _tr_flush_block: write the block in the cheapest form, and start the next one.

      The sizes predicted by opt_len and static_len are exactly those of the dynamic form dyn and of
      the static form, whichever is written; the block is stored if that is no longer than the
      better of the two and its bytes are still there.
     */
    method FlushBlock(buf: Option<seq<byte>>, storedLen: nat, last: bool, ghost data: seq<byte>)
      returns (form: nat, ghost bits: seq<bool>, ghost dyn: seq<bool>, ghost opt: nat, ghost stat: nat)
      requires Valid() && |data| == storedLen && (buf.Some? ==> buf.value == data && storedLen <= 0xffff)
      modifies this`lastLit, w, lfc, ldl, dfc, ddl
      ensures Valid() && Tokens() == []
      ensures IsBlock(bits, |old(w.Stream())|, last, data, old(Tokens()))
      ensures var stream := old(w.Stream()) + bits;
              w.Stream() == if last then stream + BitsOf(0, Padding(|stream|)) else stream
      ensures Dynamic(dyn, last, old(Tokens())) && 3 + opt == |dyn| && (form == DYN_TREES ==> bits == dyn)
      ensures 3 + stat == |FixedBits(last, old(Tokens()))| && (form == STATIC_TREES ==> bits == FixedBits(last, old(Tokens())))
      ensures form == STORED_BLOCK <==> buf.Some? && storedLen + 4 <= Min(Bytes(opt), Bytes(stat))
      ensures form == STATIC_TREES <==> form != STORED_BLOCK && (fixedOnly || Bytes(stat) <= Bytes(opt))
    {
      hide TreeIs, FixedLens, StaticDists, FixedDists, LitFreqs, DistFreqs, BodyBits, Codable, TreesBits, Ops, SymbolOf, ValidOp, Guarded,
           Decodable, AllCodable, StoredBits, BitsOf, TokensOf, ValidBuffers, Dynamic, Padding, Distinct, Static, Buffered;
      ghost var tokens, start := Tokens(), w.Stream();
      var lmax, dmax, bfc, bdl, maxBlindex;
      var optLen: nat, staticLen: nat;
      ghost var ll: seq<nat>, dl: seq<nat>, bl: seq<nat>;
      lmax, dmax, bfc, bdl, maxBlindex, optLen, staticLen, ll, dl, bl := MakeTrees();
      DecodableSendable(ll, dl, bl, maxBlindex + 1);
      opt, stat, dyn := optLen, staticLen, DynBits(last, ll, dl, bl, maxBlindex + 1, tokens);
      DynamicIs(dyn, last, tokens, ll, dl, bl, maxBlindex + 1);
      var optLenb, staticLenb := Bytes(optLen), Bytes(staticLen);
      if staticLenb <= optLenb { optLenb := staticLenb; }
      if storedLen + 4 <= optLenb && buf.Some? {
        form, bits := STORED_BLOCK, StoredBits(|start|, last, data);
        StoredBlock(w, buf.value, last);
      } else if fixedOnly || staticLenb == optLenb {
        form, bits := STATIC_TREES, FixedBits(last, tokens);
        FixedBlock(last);
      } else {
        form, bits := DYN_TREES, dyn;
        DynBlock(last, lmax, dmax, bfc, bdl, maxBlindex, ll, dl, bl);
      }
      InitBlock();
      if last { w.Windup(); }
    }

    /** _tr_align: an empty static block. */
    method Align()
      requires Valid()
      modifies w
      ensures Valid() && Tokens() == old(Tokens()) && w.Stream() == old(w.Stream()) + FixedBits(false, [])
    {
      hide TreeIs, FixedLens, StaticDists, FixedDists, LitFreqs, DistFreqs, BitsOf, TokenCoding.Code, Distinct;
      ghost var start := w.Stream();
      Pow2Values();
      w.SendBits(2 * STATIC_TREES, 3);
      FixedHas(END_BLOCK);
      SendCode(w, slfc, sldl, FixedLens(), END_BLOCK);
      EmptyBody();
      assert w.Stream() == start + (HeaderBits(STATIC_TREES, false) + TokenCoding.Code(FixedLens(), END_BLOCK));
      w.Flush();
    }

    /** _tr_stored_block without bytes */
    method StoreNothing()
      requires Valid()
      modifies w
      ensures Valid() && Tokens() == old(Tokens()) && w.Stream() == old(w.Stream()) + StoredBits(|old(w.Stream())|, false, [])
      ensures |w.Stream()| % 8 == 0
    {
      hide TreeIs, FixedLens, StaticDists, LitFreqs, DistFreqs, StoredBits, Distinct;
      EmptyStored(|w.Stream()|);
      StoredBlock(w, [], false);
    }
  }

  /** (len + 3 + 7) >> 3 */
  function Bytes(len: nat): nat {
    (len + 3 + 7) / 8
  }

  function Min(a: nat, b: nat): nat {
    if b <= a then b else a
  }

  /** A stored block ends on a byte boundary. */
  lemma EmptyStored(pos: nat)
    ensures (pos + |StoredBits(pos, false, [])|) % 8 == 0
  {
    hide HeaderBits, LengthsBits, Padding;
    assert (pos + 3 + Padding(pos + 3)) % 8 == 0;
  }

  lemma EmptyBody()
    ensures BodyBits(FixedLens(), FixedDists(), []) == TokenCoding.Code(FixedLens(), END_BLOCK)
  {
    hide FixedLens, FixedDists, TokenCoding.Code;
  }

  lemma DecodableSendable(ll: seq<nat>, dl: seq<nat>, bl: seq<nat>, n: nat)
    requires Decodable(ll, dl, bl, n)
    ensures Sendable3(ll, dl, bl, n)
  {}

  lemma DynamicIs(bits: seq<bool>, last: bool, tokens: seq<Token>, ll: seq<nat>, dl: seq<nat>, bl: seq<nat>, n: nat)
    requires ValidTokens(tokens) && Decodable(ll, dl, bl, n) && AllCodable(ll, dl, tokens)
    requires bits == DynBits(last, ll, dl, bl, n, tokens)
    ensures Dynamic(bits, last, tokens)
  {
    assert IsDynamic(bits, last, tokens, ll, dl, bl, n);
  }

  /** The guard is above the lengths. */
  lemma GuardKeeps(fc: seq<nat>, dl: seq<nat>, lens: seq<nat>, n: nat)
    requires TreeIs(fc, dl, lens) && n < |dl| && lens == dl[..n]
    ensures TreeIs(fc, dl[n := GUARD], lens) && dl[n := GUARD][..n] == lens
  {}

  /** The two codes can send the block, and the decoder accepts them. */
  lemma CodesReady(lfc: seq<nat>, ldl: seq<nat>, dfc: seq<nat>, ddl: seq<nat>, ll: seq<nat>, dl: seq<nat>, tokens: seq<Token>)
    requires ValidTokens(tokens)
    requires CodeBuilt(lfc, ldl, LitFreqs(tokens), ll) && CodeBuilt(dfc, ddl, DistFreqs(tokens), dl)
    ensures TreeIs(lfc, ldl, ll) && TreeIs(dfc, ddl, dl) && ValidLens(ll) && ValidLens(dl)
    ensures AllCodable(ll, dl, tokens) && HasCode(ll, END_BLOCK) && Acceptable(Lens, ll) && Acceptable(Dists, dl)
  {
    hide LitFreqs, DistFreqs, LengthCode, DistCode, Huff, Complete, Fits;
    CompleteAcceptable(Lens, ll);
    CompleteAcceptable(Dists, dl);
    EndCounted(tokens);
    forall i | 0 <= i < |tokens| ensures Codable(ll, dl, tokens[i]) {
      TokenCounted(tokens, i);
    }
  }

  lemma SizesAre(ll: seq<nat>, dl: seq<nat>, tokens: seq<Token>)
    requires ValidTokens(tokens) && AllCodable(ll, dl, tokens) && ValidLens(ll) && ValidLens(dl)
    requires |ll| <= L_CODES && |dl| <= D_CODES
    ensures |ll| <= |FixedLens()|
    ensures |BodyBits(ll, dl, tokens)| == LitPrice(tokens, ll, ll) + DistPrice(tokens, dl, dl)
    ensures |BodyBits(FixedLens(), FixedDists(), tokens)| == LitPrice(tokens, ll, FixedLens()) + DistPrice(tokens, dl, StaticDists())
  {
    hide LitPrice, DistPrice, TokensBits, Code, FixedLens, FixedDists, StaticDists, Codable;
    FixedSizes();
    BodyCost(ll, dl, ll, dl, tokens);
    BodyCost(ll, dl, FixedLens(), StaticDists(), tokens);
    SameTokens(FixedLens(), tokens);
  }

  lemma StaticCodable(tokens: seq<Token>)
    requires ValidTokens(tokens)
    ensures AllCodable(FixedLens(), StaticDists(), tokens)
  {
    hide FixedLens, FixedDists, StaticDists, DistCode, LengthCode;
    FixedCodable(tokens);
    FixedHas(0);
    forall i | 0 <= i < |tokens| ensures Codable(FixedLens(), StaticDists(), tokens[i]) {
      assert Codable(FixedLens(), FixedDists(), tokens[i]);
      if tokens[i].Match? {
        StaticHas(DistCode(tokens[i].dist - 1));
      }
    }
  }

  lemma StaticHas(n: nat)
    requires n < D_CODES
    ensures HasCode(StaticDists(), n)
  {}

  /** _tr_stored_block */
  method StoredBlock(w: Writer, buf: seq<byte>, last: bool)
    requires w.Valid() && |buf| <= 0xffff
    modifies w
    ensures w.Valid() && w.Stream() == old(w.Stream()) + StoredBits(|old(w.Stream())|, last, buf)
  {
    hide BitsOf, BytesBits, Padding;
    ghost var start := w.Stream();
    Pow2Values();
    var flag: nat := if last then 1 else 0;
    w.SendBits(2 * STORED_BLOCK + flag, 3);
    w.Windup();
    BitsOfNone(0);
    ghost var aligned := w.Stream();
    assert aligned == BytesBits(w.pending);
    w.PutShort(|buf|);
    w.PutShort(0xffff - |buf|);
    BytesBitsConcat(w.pending, buf);
    w.pending := w.pending + buf;
    assert w.Stream() == aligned + (LengthsBits(|buf|) + BytesBits(buf));
    assert aligned == start + (HeaderBits(STORED_BLOCK, last) + BitsOf(0, Padding(|start| + 3)));
  }

  lemma BufferPush(d: seq<nat>, l: seq<nat>, dist: nat, lc: nat)
    requires ValidBuffers(d, l) && dist <= MAX_DISTANCE && lc < 256
    ensures ValidBuffers(d + [dist], l + [lc])
    ensures TokensOf(d + [dist], l + [lc]) == TokensOf(d, l) + [TokenAt(dist, lc)]
  {}

  lemma NoTokens(lf: seq<nat>, df: seq<nat>)
    requires |lf| == L_CODES && |df| == D_CODES && (forall i :: 0 <= i < D_CODES ==> df[i] == 0)
    requires forall i :: 0 <= i < L_CODES ==> lf[i] == if i == END_BLOCK then 1 else 0
    ensures ValidBuffers([], []) && TokensOf([], []) == [] && lf == LitFreqs([]) && df == DistFreqs([])
  {}
}
