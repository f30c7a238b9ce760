/**
  The bit buffer of the compressor: send_bits, put_short, bi_flush and bi_windup of trees.c.
 */
module BitWriter {
  import opened Bits

  const BUF_SIZE: nat := 16

  class Writer {
    var pending: seq<byte>   // bytes written out, in order
    var biBuf: nat           // up to 16 bits still to be written, lowest first
    var biValid: nat         // how many bits of biBuf are valid; those above are zero

    ghost predicate Valid()
      reads this
    {
      biValid <= BUF_SIZE && biBuf < Pow2(biValid)
    }

    /** Every bit sent so far. */
    ghost function Stream(): seq<bool>
      reads this
    {
      BytesBits(pending) + BitsOf(biBuf, biValid)
    }

    constructor ()
      ensures Valid() && Stream() == []
    {
      pending, biBuf, biValid := [], 0, 0;
    }

    /** put_short: two bytes, low byte first. */
    method PutShort(w: nat)
      requires w < 0x1_0000
      modifies this`pending
      ensures BytesBits(pending) == old(BytesBits(pending)) + BitsOf(w, 16)
    {
      hide Low, Shr, BitsOf, BytesBits;
      ghost var before := pending;
      ShortBytes(w);
      pending := pending + [Low(w, 8)];
      pending := pending + [Shr(w, 8)];
      BytesBitsPush(before, Low(w, 8));
      BytesBitsPush(before + [Low(w, 8)], Shr(w, 8));
      assert BytesBits(pending) == BytesBits(before) + (BitsOf(Low(w, 8), 8) + BitsOf(Shr(w, 8), 8));
    }

    method PutByte(b: byte)
      modifies this`pending
      ensures BytesBits(pending) == old(BytesBits(pending)) + BitsOf(b, 8)
    {
      BytesBitsPush(pending, b);
      pending := pending + [b];
    }

    /** send_bits: a value that fits in length bits, low bit first. */
    method SendBits(value: nat, length: nat)
      requires Valid() && length <= BUF_SIZE && value < Pow2(length)
      modifies this
      ensures Valid() && Stream() == old(Stream()) + BitsOf(value, length)
    {
      hide Or, Shl, Shr, Low, BitsOf, BytesBits;
      ghost var sent, buf, valid := BytesBits(pending), biBuf, biValid;
      OrDisjoint(biBuf, value, biValid);
      PushBits(buf, valid, value, length);
      if biValid > BUF_SIZE - length {
        biBuf := Low(Or(biBuf, Shl(value, biValid)), 16);
        Pow2Values();
        PutShort(biBuf);
        biBuf := Shr(value, BUF_SIZE - biValid);
        biValid := biValid + length - BUF_SIZE;
        Overflowed(buf, valid, value, length);
        assert Stream() == sent + (BitsOf(buf, valid) + BitsOf(value, length));
      } else {
        biBuf := Low(Or(biBuf, Shl(value, biValid)), 16);
        biValid := biValid + length;
        Pow2Mono(biValid, 16);
        LowSmall(buf + Shl(value, valid), 16);
        assert Stream() == sent + (BitsOf(buf, valid) + BitsOf(value, length));
      }
    }

    /** bi_flush: write out whole bytes, keeping at most 7 bits. */
    method Flush()
      requires Valid()
      modifies this
      ensures Valid() && biValid <= 7 && Stream() == old(Stream())
    {
      hide Shl, Shr, Low, BitsOf, BytesBits;
      ghost var sent, buf, valid := BytesBits(pending), biBuf, biValid;
      Pow2Values();
      BitsOfNone(0);
      if biValid == 16 {
        PutShort(biBuf);
        biBuf, biValid := 0, 0;
        assert Stream() == sent + BitsOf(buf, 16);
      } else if biValid >= 8 {
        Halves(buf, 8, valid - 8);
        PutByte(Low(biBuf, 8));
        biBuf := Shr(biBuf, 8);
        biValid := biValid - 8;
        assert 8 + (valid - 8) == valid;
        assert Stream() == sent + (BitsOf(Low(buf, 8), 8) + BitsOf(Shr(buf, 8), valid - 8));
      }
    }

    /** bi_windup: write out what is left, padding with zero bits to a byte boundary. */
    method Windup()
      requires Valid()
      modifies this
      ensures Valid() && biValid == 0
      ensures Stream() == old(Stream()) + BitsOf(0, Padding(|old(Stream())|))
      ensures |Stream()| % 8 == 0
    {
      hide Shl, Shr, Low, BitsOf, BytesBits;
      ghost var sent, buf, valid := BytesBits(pending), biBuf, biValid;
      Pow2Values();
      BitsOfNone(0);
      PaddingOf(|pending|, biValid);
      if biValid > 8 {
        Pow2Mono(biValid, 16);
        PutShort(biBuf);
        PadTo(buf, valid, 16);
        biBuf, biValid := 0, 0;
        assert Stream() == sent + (BitsOf(buf, valid) + BitsOf(0, 16 - valid));
      } else if biValid > 0 {
        Pow2Mono(biValid, 8);
        LowSmall(biBuf, 8);
        PutByte(Low(biBuf, 8));
        PadTo(buf, valid, 8);
        biBuf, biValid := 0, 0;
        assert Stream() == sent + (BitsOf(buf, valid) + BitsOf(0, 8 - valid));
      } else {
        biBuf, biValid := 0, 0;
        assert Stream() == sent + BitsOf(buf, 0) + BitsOf(0, 0);
      }
    }
  }

  lemma ShortBytes(w: nat)
    requires w < 0x1_0000
    ensures Low(w, 8) < 256 && Shr(w, 8) < 256 && BitsOf(w, 16) == BitsOf(Low(w, 8), 8) + BitsOf(Shr(w, 8), 8)
  {
    hide Low, Shr, BitsOf, Pow2;
    Pow2Values();
    LowSmall(w, 16);
    ShrLow(w, 8, 16);
    LowBelow(w, 8);
    LowBelow(Shr(w, 8), 8);
    BitsOfLow(w, 8, 8);
    BitsOfSplit(w, 8, 8);
  }

  lemma PaddingOf(bytes: nat, bits: nat)
    requires bits <= 16
    ensures Padding(8 * bytes + bits) == if bits > 8 then 16 - bits else if bits > 0 then 8 - bits else 0
  {
    assert (8 * bytes + bits) % 8 == bits % 8;
  }

  lemma BitsOfNone(v: nat)
    ensures BitsOf(v, 0) == [] && forall w: nat :: BitsOf(w, 0) == []
  {}

  lemma Halves(v: nat, m: nat, n: nat)
    requires v < Pow2(m + n)
    ensures BitsOf(v, m + n) == BitsOf(Low(v, m), m) + BitsOf(Shr(v, m), n)
    ensures Shr(v, m) < Pow2(n)
  {
    BitsOfSplit(v, m, n);
    BitsOfLow(v, m, m);
    LowSmall(v, m + n);
    ShrLow(v, m, m + n);
  }

  /** When more than 16 bits are pending, the low 16 go out and the rest of the value stays. */
  lemma Overflowed(buf: nat, valid: nat, value: nat, length: nat)
    requires buf < Pow2(valid) && value < Pow2(length) && valid <= 16 <= valid + length
    ensures var x := buf + Shl(value, valid);
            BitsOf(x, valid + length) == BitsOf(Low(x, 16), 16) + BitsOf(Shr(value, 16 - valid), valid + length - 16)
    ensures Shr(value, 16 - valid) < Pow2(valid + length - 16)
  {
    var x := buf + Shl(value, valid);
    PushBits(buf, valid, value, length);
    Halves(x, 16, valid + length - 16);
    LowShrUnique(buf, value, valid);
    ShrShr(x, valid, 16 - valid);
  }

  lemma {:induction false} PadTo(v: nat, m: nat, n: nat)
    requires m <= n && v < Pow2(m)
    ensures BitsOf(v, n) == BitsOf(v, m) + BitsOf(0, n - m)
  {
    BitsOfSplit(v, m, n - m);
    LowSmall(v, m);
  }
}
