/**
  What a raw DEFLATE stream means: the block states of inflate() over an abstract bit stream.

  A state steps as soon as the bits it needs are there; there are no buffers, no accumulator and
  no window, only the bits still unread and all the output so far. The compressor is proved
  to write streams that run to the right output, and inflate() to follow these steps however
  its input and output are cut up.
 */
module Reference {
  import opened Bits
  import opened Canonical
  import opened DecodeTable
  import opened Symbols

  datatype Mode =
    | Type
    | Stored
    | Copy(left: nat)
    | Table
    | LenLens(nlen: nat, ndist: nat, ncode: nat, got: seq<nat>)
    | CodeLens(nlen: nat, ndist: nat, bl: seq<nat>, got: seq<nat>)
    | Len
    | LenExt(len: nat, extra: nat)
    | Dist(len: nat)
    | DistExt(len: nat, offset: nat, extra: nat)
    | Copying(len: nat, offset: nat)
    | Literal(val: byte)
    | Done
    | Bad

  /** pos counts the bits read, last says that the current block is the final one. */
  datatype State = State(mode: Mode, last: bool, llens: seq<nat>, dlens: seq<nat>, pos: nat, out: seq<byte>)

  datatype Next = Stuck | Go(to: State, used: nat)

  const INIT := State(Type, false, [], [], 0, [])

  function FixedLens(): seq<nat> {
    Rep(8, 144) + Rep(9, 112) + Rep(7, 24) + Rep(8, 8)
  }

  function FixedDists(): seq<nat> {
    Rep(5, 32)
  }

  /** The order in which the lengths of the code length code are sent (section 3.2.7). */
  function Order(): (r: seq<nat>)
    ensures |r| == 19 && forall i :: 0 <= i < 19 ==> r[i] < 19
  {
    [16, 17, 18, 0, 8, 7, 9, 6, 10, 5, 11, 4, 12, 3, 13, 2, 14, 1, 15]
  }

  /** Where symbol n stands in that order. */
  function Place(n: nat): nat {
    if n == 0 then 3 else if n == 16 then 0 else if n == 17 then 1 else if n == 18 then 2
    else if n >= 8 then 4 + 2 * (n - 8) else 3 + 2 * (8 - n)
  }

  /** Place undoes Order. */
  lemma OrderPlace()
    ensures forall i :: 0 <= i < 19 ==> Place(Order()[i]) == i
    ensures forall n {:trigger Place(n)} :: 0 <= n < 19 ==> Place(n) < 19 && Order()[Place(n)] == n
  {}

  function Unpermute(got: seq<nat>): seq<nat> {
    seq(19, n requires 0 <= n < 19 => if Place(n) < |got| then got[Place(n)] else 0)
  }

  /** The code of symbol n is at the front of the bits. */
  predicate Begins(lens: seq<nat>, n: nat, bits: seq<bool>) {
    n < |lens| && lens[n] <= |bits| && Matches(lens, n, ValueOf(bits))
  }

  /** No continuation of the bits begins with a code. */
  ghost predicate Hopeless(lens: seq<nat>, bits: seq<bool>) {
    bits != [] && forall v: nat :: Low(v, |bits|) == ValueOf(bits) ==> Unmatched(lens, v)
  }

  datatype Symbol = More | NoCode | Symbol(n: nat)

  ghost function Decode(lens: seq<nat>, bits: seq<bool>): (r: Symbol)
    ensures r.Symbol? ==> Begins(lens, r.n, bits)
  {
    if n :| Begins(lens, n, bits) then Symbol(n)
    else if Hopeless(lens, bits) then NoCode
    else More
  }

  function Field(bits: seq<bool>, from: nat, n: nat): nat
    requires from + n <= |bits|
  {
    ValueOf(bits[from..from + n])
  }

  function StepType(s: State, bits: seq<bool>): Next {
    if s.last then
      if |bits| < Padding(s.pos) then Stuck
      else Go(s.(mode := Done, pos := s.pos + Padding(s.pos)), Padding(s.pos))
    else if |bits| < 3 then Stuck
    else
      var t := s.(last := bits[0], pos := s.pos + 3);
      var kind := Field(bits, 1, 2);
      Go(if kind == 0 then t.(mode := Stored)
         else if kind == 1 then t.(mode := Len, llens := FixedLens(), dlens := FixedDists())
         else if kind == 2 then t.(mode := Table)
         else t.(mode := Bad), 3)
  }

  function StepStored(s: State, bits: seq<bool>): Next {
    if Padding(s.pos) > 0 then
      if |bits| < Padding(s.pos) then Stuck else Go(s.(pos := s.pos + Padding(s.pos)), Padding(s.pos))
    else if |bits| < 32 then Stuck
    else if Field(bits, 0, 16) != 0xffff - Field(bits, 16, 16) then Go(s.(mode := Bad), 0)
    else Go(s.(mode := Copy(Field(bits, 0, 16)), pos := s.pos + 32), 32)
  }

  function StepCopy(s: State, bits: seq<bool>): Next
    requires s.mode.Copy?
  {
    if s.mode.left == 0 then Go(s.(mode := Type), 0)
    else if |bits| < 8 then Stuck
    else
      Pow2Values();
      var b: byte := Field(bits, 0, 8);
      Go(s.(mode := Copy(s.mode.left - 1), pos := s.pos + 8, out := s.out + [b]), 8)
  }

  function StepTable(s: State, bits: seq<bool>): Next {
    if |bits| < 14 then Stuck
    else
      var nlen, ndist, ncode := Field(bits, 0, 5) + 257, Field(bits, 5, 5) + 1, Field(bits, 10, 4) + 4;
      var t := s.(pos := s.pos + 14);
      if nlen > L_CODES || ndist > D_CODES then Go(t.(mode := Bad), 14)
      else Go(t.(mode := LenLens(nlen, ndist, ncode, [])), 14)
  }

  ghost function StepLenLens(s: State, bits: seq<bool>): Next
    requires s.mode.LenLens?
  {
    var m := s.mode;
    if |m.got| < m.ncode then
      if |bits| < 3 then Stuck
      else Go(s.(mode := LenLens(m.nlen, m.ndist, m.ncode, m.got + [Field(bits, 0, 3)]), pos := s.pos + 3), 3)
    else if Acceptable(Codes, Unpermute(m.got)) then
      Go(s.(mode := CodeLens(m.nlen, m.ndist, Unpermute(m.got), [])), 0)
    else Go(s.(mode := Bad), 0)
  }

  /** A run of `copy` lengths x, after the l bits of its symbol and e bits of its count. */
  function StepRepeat(s: State, x: nat, copy: nat, used: nat): Next
    requires s.mode.CodeLens?
  {
    var m := s.mode;
    if |m.got| + copy > m.nlen + m.ndist then Go(s.(mode := Bad, pos := s.pos + used), used)
    else Go(s.(mode := CodeLens(m.nlen, m.ndist, m.bl, m.got + Rep(x, copy)), pos := s.pos + used), used)
  }

  ghost function StepCodeLens(s: State, bits: seq<bool>): Next
    requires s.mode.CodeLens?
  {
    var m := s.mode;
    if |m.got| < m.nlen + m.ndist then
      match Decode(m.bl, bits)
      case More => Stuck
      case NoCode => Go(s.(mode := CodeLens(m.nlen, m.ndist, m.bl, m.got + [0]), pos := s.pos + 1), 1)
      case Symbol(n) =>
        var l := m.bl[n];
        if n < 16 then Go(s.(mode := CodeLens(m.nlen, m.ndist, m.bl, m.got + [n]), pos := s.pos + l), l)
        else if n == 16 then
          if |bits| < l + 2 then Stuck
          else if m.got == [] then Go(s.(mode := Bad, pos := s.pos + l), l)
          else StepRepeat(s, m.got[|m.got| - 1], 3 + Field(bits, l, 2), l + 2)
        else if n == 17 then
          if |bits| < l + 3 then Stuck else StepRepeat(s, 0, 3 + Field(bits, l, 3), l + 3)
        else
          if |bits| < l + 7 then Stuck else StepRepeat(s, 0, 11 + Field(bits, l, 7), l + 7)
    else if m.nlen <= 256 || |m.got| < m.nlen || m.got[256] == 0 then Go(s.(mode := Bad), 0)
    else if Acceptable(Lens, m.got[..m.nlen]) && Acceptable(Dists, m.got[m.nlen..]) then
      Go(s.(mode := Len, llens := m.got[..m.nlen], dlens := m.got[m.nlen..]), 0)
    else Go(s.(mode := Bad), 0)
  }

  ghost function StepLen(s: State, bits: seq<bool>): Next {
    match Decode(s.llens, bits)
    case More => Stuck
    case NoCode => Go(s.(mode := Bad, pos := s.pos + 1), 1)
    case Symbol(n) =>
      var t := s.(pos := s.pos + s.llens[n]);
      Go(if n < 256 then t.(mode := Literal(n))
         else if n == 256 then t.(mode := Type)
         else if n <= 285 then t.(mode := LenExt(LBase()[n - 257], LExt()[n - 257] % 16))
         else t.(mode := Bad), s.llens[n])
  }

  function StepLenExt(s: State, bits: seq<bool>): Next
    requires s.mode.LenExt?
  {
    var e := s.mode.extra;
    if |bits| < e then Stuck
    else Go(s.(mode := Dist(s.mode.len + Field(bits, 0, e)), pos := s.pos + e), e)
  }

  ghost function StepDist(s: State, bits: seq<bool>): Next
    requires s.mode.Dist?
  {
    match Decode(s.dlens, bits)
    case More => Stuck
    case NoCode => Go(s.(mode := Bad, pos := s.pos + 1), 1)
    case Symbol(n) =>
      var t := s.(pos := s.pos + s.dlens[n]);
      Go(if n < D_CODES then t.(mode := DistExt(s.mode.len, DBase()[n], DExt()[n] % 16))
         else t.(mode := Bad), s.dlens[n])
  }

  function StepDistExt(s: State, bits: seq<bool>): Next
    requires s.mode.DistExt?
  {
    var e := s.mode.extra;
    if |bits| < e then Stuck
    else Go(s.(mode := Copying(s.mode.len, s.mode.offset + Field(bits, 0, e)), pos := s.pos + e), e)
  }

  function StepCopying(s: State): Next
    requires s.mode.Copying?
  {
    var m := s.mode;
    if m.offset > |s.out| || m.offset == 0 then Go(s.(mode := Bad), 0)
    else if m.len == 0 then Go(s.(mode := Len), 0)
    else
      var t := s.(out := s.out + [s.out[|s.out| - m.offset]]);
      Go(t.(mode := if m.len == 1 then Len else Copying(m.len - 1, m.offset)), 0)
  }

  ghost function Step(s: State, bits: seq<bool>): (r: Next)
    ensures r.Go? ==> r.used <= |bits|
  {
    match s.mode
    case Type => StepType(s, bits)
    case Stored => StepStored(s, bits)
    case Copy(_) => StepCopy(s, bits)
    case Table => StepTable(s, bits)
    case LenLens(_, _, _, _) => StepLenLens(s, bits)
    case CodeLens(_, _, _, _) => StepCodeLens(s, bits)
    case Len => StepLen(s, bits)
    case LenExt(_, _) => StepLenExt(s, bits)
    case Dist(_) => StepDist(s, bits)
    case DistExt(_, _, _) => StepDistExt(s, bits)
    case Copying(_, _) => StepCopying(s)
    case Literal(v) => Go(s.(mode := Len, out := s.out + [v]), 0)
    case Done => Stuck
    case Bad => Stuck
  }

  /** k steps lead from s, with the given bits unread, to s' with rest unread. */
  ghost predicate Run(k: nat, s: State, bits: seq<bool>, s': State, rest: seq<bool>) {
    if k == 0 then s == s' && bits == rest
    else
      var r := Step(s, bits);
      r.Go? && Run(k - 1, r.to, bits[r.used..], s', rest)
  }

  ghost predicate Reaches(s: State, bits: seq<bool>, s': State, rest: seq<bool>) {
    exists k: nat :: Run(k, s, bits, s', rest)
  }
}
