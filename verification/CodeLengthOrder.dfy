/**
  The order in which the lengths of the code length code stand in a dynamic block (section 3.2.7 of RFC 1951),
  as a law: first the repeat codes and the length 0, then the other lengths from 8 outwards. The tables of
  the encoder and of the decoder are compared with it.
 */
module CodeLengthOrder {
  import opened Bits
  import opened Reference
  import opened RunCoding
  import opened TreeSending
  import opened Blocks
  import opened BlockDecoding

  function Away(n: nat): nat {
    if n < 8 then 8 - n else n - 8
  }

  /** Symbol m is sent before symbol n. */
  predicate Sooner(m: nat, n: nat) {
    match n
    case 16 => false
    case 17 => m == 16
    case 18 => m == 16 || m == 17
    case 0 => m == 16 || m == 17 || m == 18
    case _ => m == 16 || m == 17 || m == 18 || m == 0 || Away(m) < Away(n) || (Away(m) == Away(n) && m < n)
  }

  function One(m: nat, n: nat): nat {
    if Sooner(m, n) then 1 else 0
  }

  /** How many of the symbols below k are sent before n. */
  function Before(n: nat, k: nat): nat {
    if k == 0 then 0 else Before(n, k - 1) + One(k - 1, n)
  }

  /** Which field belongs to symbol n. */
  function FieldOf(n: nat): nat {
    Before(n, BL_CODES)
  }

  /** In both tables the entry at the field of a symbol is the symbol. */
  lemma TablesFollow(n: nat)
    requires n < BL_CODES
    ensures FieldOf(n) < BL_CODES && FieldOf(n) == Place(n) && Order()[FieldOf(n)] == n && BlOrder()[FieldOf(n)] == n
  {
    hide FieldOf, Order, BlOrder;
    FieldIs(n);
    OrderPlace();
    OrdersAgree();
  }

  lemma Counted(n: nat)
    ensures FieldOf(n) == One(0, n) + One(1, n) + One(2, n) + One(3, n) + One(4, n) + One(5, n) + One(6, n) + One(7, n) + One(8, n)
                          + One(9, n) + One(10, n) + One(11, n) + One(12, n) + One(13, n) + One(14, n) + One(15, n)
                          + One(16, n) + One(17, n) + One(18, n)
  {
    hide One;
    forall k: nat | k < BL_CODES ensures Before(n, k + 1) == Before(n, k) + One(k, n) {}
    assert Before(n, 0) == 0;
  }

  lemma FieldIs(n: nat)
    requires n < BL_CODES
    ensures FieldOf(n) == Place(n)
  {
    hide FieldOf;
    Counted(n);
  }

  /** The decoder gives every symbol the length in its field, and 0 if the field was not sent. */
  lemma LengthRead(got: seq<nat>, n: nat)
    requires n < BL_CODES
    ensures Unpermute(got)[n] == if FieldOf(n) < |got| then got[FieldOf(n)] else 0
  {
    hide FieldOf, Order, BlOrder;
    TablesFollow(n);
  }

  /** The encoder sends the length of every symbol in its field. */
  lemma {:induction false} LengthSent(bl: seq<nat>, blcodes: nat, n: nat)
    requires |bl| == BL_CODES && blcodes <= BL_CODES && n < BL_CODES && FieldOf(n) < blcodes
    ensures |BlLensBits(bl, blcodes)| == 3 * blcodes
    ensures BlLensBits(bl, blcodes)[3 * FieldOf(n)..3 * FieldOf(n) + 3] == BitsOf(bl[n], 3)
    decreases blcodes
  {
    hide FieldOf, Order, BlOrder, Place, BitsOf;
    TablesFollow(n);
    BlLensSize(bl, blcodes);
    BlLensSize(bl, blcodes - 1);
    if FieldOf(n) < blcodes - 1 {
      LengthSent(bl, blcodes - 1, n);
    }
  }
}
