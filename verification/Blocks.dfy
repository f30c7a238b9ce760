/**
  Whole blocks (section 3.2.3 of RFC 1951): compress_block, send_all_trees and _tr_stored_block
  of trees.c, and the decoder running over what they write.
 */
module Blocks {
  import opened Bits
  import opened BitWriter
  import opened Canonical
  import opened Symbols
  import opened TokenCoding
  import opened RunCoding
  import opened TreeSending

  const STORED_BLOCK: nat := 0
  const STATIC_TREES: nat := 1
  const DYN_TREES: nat := 2

  function Flag(last: bool): nat {
    if last then 1 else 0
  }

  // ----- compress_block -----

  /** The tokens held in the match buffers: a zero distance marks a literal. */
  function TokenAt(d: nat, l: nat): Token
    requires l < 256
  {
    if d == 0 then Lit(l) else Match(l + MIN_MATCH, d)
  }

  predicate ValidBuffers(d: seq<nat>, l: seq<nat>) {
    |d| == |l| && forall i :: 0 <= i < |d| ==> d[i] <= MAX_DISTANCE && l[i] < 256
  }

  function TokensOf(d: seq<nat>, l: seq<nat>): (r: seq<Token>)
    requires ValidBuffers(d, l)
    ensures |r| == |d| && ValidTokens(r)
  {
    seq(|d|, i requires 0 <= i < |d| => TokenAt(d[i], l[i]))
  }

  predicate AllCodable(ll: seq<nat>, dl: seq<nat>, tokens: seq<Token>)
    requires ValidTokens(tokens)
  {
    HasCode(ll, END_BLOCK) && forall i :: 0 <= i < |tokens| ==> Codable(ll, dl, tokens[i])
  }

  /** The length code and its extra bits. */
  method SendLength(w: Writer, l: nat, lfc: array<nat>, ldl: array<nat>, ghost ll: seq<nat>)
    requires w.Valid() && TreeIs(lfc[..], ldl[..], ll) && l < 256
    requires HasCode(ll, LITERALS + 1 + LengthCode(l))
    modifies w
    ensures w.Valid() && w.Stream() == old(w.Stream()) + LengthBits(ll, l + MIN_MATCH)
  {
    hide TreeIs, BitsOf, Code, LengthCode, ExtraLBits, LengthBase, BaseLength, Pow2;
    ghost var start := w.Stream();
    var lc := l;
    var code := LengthCode(lc);
    LengthValue(lc + MIN_MATCH);
    LengthExtraSmall(code);
    SendCode(w, lfc, ldl, ll, code + LITERALS + 1);
    var extra := ExtraLBits()[code];
    if extra != 0 {
      LengthBaseIs(lc);
      lc := lc - BaseLength(code);
      w.SendBits(lc, extra);
    } else {
      BitsOfNone(0);
    }
    assert start + (Code(ll, LITERALS + 1 + code) + BitsOf(lc, extra)) == w.Stream();
  }

  lemma LengthExtraSmall(code: nat)
    requires code <= 28
    ensures ExtraLBits()[code] <= 5
  {}

  lemma LengthBaseIs(lc: nat)
    requires lc < 256 && ExtraLBits()[LengthCode(lc)] != 0
    ensures LengthBase(lc) == BaseLength(LengthCode(lc))
  {
    hide CodeFor, FirstValue;
  }

  lemma DistExtraSmall(code: nat)
    requires code < D_CODES
    ensures ExtraDBits()[code] <= 13
  {}

  lemma DistBaseIs(d: nat)
    requires d < MAX_DISTANCE
    ensures DistBase(d) == BaseDist(DistCode(d))
    ensures ExtraDBits()[DistCode(d)] == 0 ==> DistBase(d) == d
  {
    hide CodeFor, FirstValue, ExtraDBits;
    DistInRange(d);
    Pow2Values();
  }

  /** The distance code and its extra bits. */
  method SendDistance(w: Writer, distance: nat, dfc: array<nat>, ddl: array<nat>, ghost dl: seq<nat>)
    requires w.Valid() && TreeIs(dfc[..], ddl[..], dl) && 1 <= distance <= MAX_DISTANCE
    requires HasCode(dl, DistCode(distance - 1))
    modifies w
    ensures w.Valid() && w.Stream() == old(w.Stream()) + DistanceBits(dl, distance)
  {
    hide TreeIs, BitsOf, Code, DistCode, ExtraDBits, DistBase, BaseDist, Pow2;
    ghost var start := w.Stream();
    var dist: nat := distance - 1;
    var code := DistCode(dist);
    DistValue(distance);
    DistBaseIs(dist);
    DistExtraSmall(code);
    SendCode(w, dfc, ddl, dl, code);
    var extra := ExtraDBits()[code];
    if extra != 0 {
      dist := dist - BaseDist(code);
      w.SendBits(dist, extra);
    } else {
      BitsOfNone(0);
    }
    assert start + (Code(dl, code) + BitsOf(distance - 1 - DistBase(distance - 1), extra)) == w.Stream();
  }

  /** The loop body of compress_block: a literal byte, or a length and a distance. */
  method SendToken(w: Writer, dist: nat, lc: nat, lfc: array<nat>, ldl: array<nat>, ghost ll: seq<nat>,
                   dfc: array<nat>, ddl: array<nat>, ghost dl: seq<nat>)
    requires w.Valid() && TreeIs(lfc[..], ldl[..], ll) && TreeIs(dfc[..], ddl[..], dl)
    requires dist <= MAX_DISTANCE && lc < 256 && Codable(ll, dl, TokenAt(dist, lc))
    modifies w
    ensures w.Valid() && w.Stream() == old(w.Stream()) + TokenBits(ll, dl, TokenAt(dist, lc))
  {
    hide TreeIs, BitsOf, Code, LengthCode, DistCode, LengthBits, DistanceBits;
    if dist == 0 {
      SendCode(w, lfc, ldl, ll, lc);
    } else {
      SendLength(w, lc, lfc, ldl, ll);
      SendDistance(w, dist, dfc, ddl, dl);
    }
  }

  /** compress_block: the block's tokens in the given trees, then the end of the block. */
  method CompressBlock(w: Writer, dBuf: array<nat>, lBuf: array<nat>, lastLit: nat,
                       lfc: array<nat>, ldl: array<nat>, ghost ll: seq<nat>,
                       dfc: array<nat>, ddl: array<nat>, ghost dl: seq<nat>)
    requires w.Valid() && TreeIs(lfc[..], ldl[..], ll) && TreeIs(dfc[..], ddl[..], dl)
    requires lastLit <= dBuf.Length && lastLit <= lBuf.Length && ValidBuffers(dBuf[..lastLit], lBuf[..lastLit])
    requires AllCodable(ll, dl, TokensOf(dBuf[..lastLit], lBuf[..lastLit]))
    modifies w
    ensures w.Valid()
    ensures w.Stream() == old(w.Stream()) + BodyBits(ll, dl, TokensOf(dBuf[..lastLit], lBuf[..lastLit]))
  {
    hide TreeIs, TokenBits, TokensBits, Codable, Code, TokenAt, BitsOf;
    ghost var tokens, sent := TokensOf(dBuf[..lastLit], lBuf[..lastLit]), w.Stream();
    var lx := 0;
    TokensBitsNone(ll, dl);
    if lastLit != 0 {
      while true
        invariant lx < lastLit && w.Valid()
        invariant w.Stream() == sent + TokensBits(ll, dl, tokens[..lx])
        decreases lastLit - lx
      {
        TokenOf(dBuf[..lastLit], lBuf[..lastLit], lx);
        SendToken(w, dBuf[lx], lBuf[lx], lfc, ldl, ll, dfc, ddl, dl);
        TokensBitsNext(ll, dl, tokens, lx);
        lx := lx + 1;
        if lx == lastLit { break; }
      }
    }
    assert tokens[..lx] == tokens;
    SendCode(w, lfc, ldl, ll, END_BLOCK);
  }

  lemma TokenOf(d: seq<nat>, l: seq<nat>, i: nat)
    requires ValidBuffers(d, l) && i < |d|
    ensures d[i] <= MAX_DISTANCE && l[i] < 256 && TokensOf(d, l)[i] == TokenAt(d[i], l[i])
  {}

  lemma TokensBitsNext(ll: seq<nat>, dl: seq<nat>, tokens: seq<Token>, i: nat)
    requires i < |tokens| && ValidTokens(tokens)
    ensures TokensBits(ll, dl, tokens[..i + 1]) == TokensBits(ll, dl, tokens[..i]) + TokenBits(ll, dl, tokens[i])
  {
    hide TokenBits, ValidToken;
    assert tokens[..i + 1][..i] == tokens[..i];
  }

  lemma TokensBitsNone(ll: seq<nat>, dl: seq<nat>)
    ensures TokensBits(ll, dl, []) == []
  {}

  // ----- send_all_trees -----

  /** bl_order: the order in which the lengths of the code length code are sent. */
  function BlOrder(): (r: seq<nat>)
    ensures |r| == BL_CODES && forall i :: 0 <= i < BL_CODES ==> r[i] < BL_CODES
  {
    [16, 17, 18, 0, 8, 7, 9, 6, 10, 5, 11, 4, 12, 3, 13, 2, 14, 1, 15]
  }

  /** The lengths of the code length code, in that order. */
  function BlLensBits(bl: seq<nat>, n: nat): seq<bool>
    requires |bl| == BL_CODES && n <= BL_CODES
  {
    if n == 0 then [] else BlLensBits(bl, n - 1) + BitsOf(bl[BlOrder()[n - 1]], 3)
  }

  function CountsBits(lcodes: nat, dcodes: nat, blcodes: nat): seq<bool>
    requires 257 <= lcodes && 1 <= dcodes && 4 <= blcodes
  {
    BitsOf(lcodes - 257, 5) + BitsOf(dcodes - 1, 5) + BitsOf(blcodes - 4, 4)
  }

  /** What send_all_trees is given, and what the decoder needs in order to accept it. */
  ghost predicate Sendable3(ll: seq<nat>, dl: seq<nat>, bl: seq<nat>, blcodes: nat) {
    && 257 <= |ll| <= L_CODES && 1 <= |dl| <= D_CODES && 4 <= blcodes <= 19
    && ValidLens(ll) && ValidLens(dl)
    && |bl| == BL_CODES && (forall i :: 0 <= i < BL_CODES ==> bl[i] <= 7)
    && (forall r :: blcodes <= r < 19 ==> bl[BlOrder()[r]] == 0)
    && Sendable(bl, Ops(ll)) && Sendable(bl, Ops(dl))
  }

  function TreesBits(ll: seq<nat>, dl: seq<nat>, bl: seq<nat>, blcodes: nat): seq<bool>
    requires 257 <= |ll| && 1 <= |dl| && 4 <= blcodes <= 19 && |bl| == BL_CODES
    requires ValidOps(Ops(ll)) && ValidOps(Ops(dl))
  {
    CountsBits(|ll|, |dl|, blcodes) + BlLensBits(bl, blcodes) + OpsBits(bl, Ops(ll)) + OpsBits(bl, Ops(dl))
  }

  /** The three counts. */
  method SendCounts(w: Writer, lcodes: nat, dcodes: nat, blcodes: nat)
    requires w.Valid() && 257 <= lcodes <= L_CODES && 1 <= dcodes <= D_CODES && 4 <= blcodes <= BL_CODES
    modifies w
    ensures w.Valid() && w.Stream() == old(w.Stream()) + CountsBits(lcodes, dcodes, blcodes)
  {
    hide BitsOf;
    Pow2Values();
    ghost var start := w.Stream();
    w.SendBits(lcodes - 257, 5);
    w.SendBits(dcodes - 1, 5);
    w.SendBits(blcodes - 4, 4);
    assert w.Stream() == start + (BitsOf(lcodes - 257, 5) + BitsOf(dcodes - 1, 5) + BitsOf(blcodes - 4, 4));
  }

  /** The lengths of the code length code. */
  method SendBlLens(w: Writer, bdl: array<nat>, ghost bl: seq<nat>, blcodes: nat)
    requires w.Valid() && |bl| == BL_CODES <= bdl.Length && bdl[..BL_CODES] == bl && blcodes <= BL_CODES
    requires forall i :: 0 <= i < BL_CODES ==> bl[i] <= 7
    modifies w
    ensures w.Valid() && w.Stream() == old(w.Stream()) + BlLensBits(bl, blcodes)
  {
    hide BitsOf;
    Pow2Values();
    ghost var start := w.Stream();
    for rank := 0 to blcodes
      invariant w.Valid() && w.Stream() == start + BlLensBits(bl, rank)
    {
      assert bdl[BlOrder()[rank]] == bl[BlOrder()[rank]];
      w.SendBits(bdl[BlOrder()[rank]], 3);
    }
  }

  /** send_all_trees: the counts, the lengths of the code length code, and the two trees. */
  method SendAllTrees(w: Writer, ldl: array<nat>, lcodes: nat, ddl: array<nat>, dcodes: nat,
                      bfc: array<nat>, bdl: array<nat>, ghost bl: seq<nat>, blcodes: nat)
    requires w.Valid() && lcodes < ldl.Length && dcodes < ddl.Length && TreeIs(bfc[..], bdl[..], bl)
    requires Guarded(ldl[..], ldl[..lcodes]) && Guarded(ddl[..], ddl[..dcodes])
    requires Sendable3(ldl[..lcodes], ddl[..dcodes], bl, blcodes)
    modifies w
    ensures w.Valid()
    ensures w.Stream() == old(w.Stream()) + TreesBits(ldl[..lcodes], ddl[..dcodes], bl, blcodes)
  {
    hide BitsOf, Ops, OpsBits, Guarded, Sendable, CountsBits, BlLensBits, Fits;
    ghost var start := w.Stream();
    BlLensIn(bfc[..], bdl[..], bl);
    assert bdl[..][..BL_CODES] == bdl[..BL_CODES];
    SendCounts(w, lcodes, dcodes, blcodes);
    SendBlLens(w, bdl, bl, blcodes);
    SendTree(w, ldl, lcodes - 1, bfc, bdl, bl);
    SendTree(w, ddl, dcodes - 1, bfc, bdl, bl);
  }

  lemma BlLensIn(fc: seq<nat>, dl: seq<nat>, bl: seq<nat>)
    requires TreeIs(fc, dl, bl)
    ensures |bl| <= |dl| && dl[..|bl|] == bl
  {}
}
