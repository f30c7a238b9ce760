/**
  However input and output are cut into calls of inflate(), the output and the verdict are the same.

  Between calls an Inflater's ref is a state that the reference decoder reaches on the input fed so
  far. The reference takes one path, so any two such states of one stream lie on it in some order.
 */
module SplitIndependence {
  import opened Bits
  import opened Reference
  import opened Runs
  import opened BitReader
  import opened Inflate

  /** Of two runs from the same state the longer one passes through the end of the shorter. */
  lemma {:induction false} RunOrder(j: nat, k: nat, a: State, x: seq<bool>, b: State, y: seq<bool>, c: State, z: seq<bool>)
    requires Run(j, a, x, b, y) && Run(k, a, x, c, z) && j <= k
    ensures Run(k - j, b, y, c, z)
  {
    hide Step;
    if j > 0 {
      var r := Step(a, x);
      RunOrder(j - 1, k - 1, r.to, x[r.used..], b, y, c, z);
    }
  }

  lemma StepGrows(s: State, bits: seq<bool>)
    requires Step(s, bits).Go?
    ensures s.out <= Step(s, bits).to.out
  {
    hide Field, Decode, FixedLens, FixedDists, Padding;
  }

  /** Output is never taken back. */
  lemma {:induction false} RunGrows(k: nat, a: State, x: seq<bool>, b: State, y: seq<bool>)
    requires Run(k, a, x, b, y)
    ensures a.out <= b.out
  {
    hide Step;
    if k > 0 {
      StepGrows(a, x);
      var r := Step(a, x);
      RunGrows(k - 1, r.to, x[r.used..], b, y);
    }
  }

  /** The state s lies on the run of the decoder over the whole stream x. */
  ghost predicate OnPath(k: nat, x: seq<byte>, s: State) {
    s.pos <= 8 * |x| && Run(k, INIT, BytesBits(x), s, BytesBits(x)[s.pos..])
  }

  lemma PathOf(x: seq<byte>, f: seq<byte>, s: State) returns (k: nat)
    requires At(f, s) && f <= x
    ensures OnPath(k, x, s)
  {
    hide Run, Ok;
    AtMore(f, x[|f|..], s);
    assert f + x[|f|..] == x;
    k :| Run(k, INIT, BytesBits(x), s, BytesBits(x)[s.pos..]);
  }

  /** What two states on the path of one stream have to do with each other. */
  ghost predicate Consistent(x: seq<byte>, s: State, t: State) {
    && (s.out <= t.out || t.out <= s.out)
    && (Waits(x, s) ==> t.out <= s.out)
    && (Waits(x, s) && Waits(x, t) ==> s == t)
  }

  lemma Ordered(x: seq<byte>, j: nat, s: State, k: nat, t: State)
    requires OnPath(j, x, s) && OnPath(k, x, t) && j <= k
    ensures Consistent(x, s, t) && Consistent(x, t, s)
  {
    hide Step;
    RunOrder(j, k, INIT, BytesBits(x), s, BytesBits(x)[s.pos..], t, BytesBits(x)[t.pos..]);
    RunGrows(k - j, s, BytesBits(x)[s.pos..], t, BytesBits(x)[t.pos..]);
  }

  lemma OnePath(x: seq<byte>, f: seq<byte>, s: State, g: seq<byte>, t: State)
    requires At(f, s) && f <= x && At(g, t) && g <= x
    ensures Consistent(x, s, t) && Consistent(x, t, s)
  {
    hide OnPath, Consistent, At;
    var j := PathOf(x, f, s);
    var k := PathOf(x, g, t);
    if j <= k {
      Ordered(x, j, s, k, t);
    } else {
      Ordered(x, k, t, j, s);
    }
  }

  lemma ConsistentIs(x: seq<byte>, s: State, t: State)
    requires Consistent(x, s, t)
    ensures s.out <= t.out || t.out <= s.out
    ensures Waits(x, s) ==> t.out <= s.out
    ensures Waits(x, s) && Waits(x, t) ==> s == t
  {}

  /** Once finished, the decoder stays where it is, whatever input follows. */
  lemma FinishedWaits(f: seq<byte>, s: State, x: seq<byte>)
    requires At(f, s) && f <= x && (s.mode.Done? || s.mode.Bad?)
    ensures Waits(x, s)
  {
    hide Run, Reaches, Ok;
  }

  /**
    Two inflaters that were fed prefixes of the same stream x in any pieces, with any output
    space: one's output begins the other's. If one reached the end of the stream or an error, the
    other's output is part of its output, and once the other has no more to do on x, its state,
    and so its output and its verdict, is the same.
   */
  lemma SplitIndependent(a: Inflater, b: Inflater, x: seq<byte>)
    requires a.Idle() && b.Idle() && a.fed <= x && b.fed <= x
    ensures a.ref.out <= b.ref.out || b.ref.out <= a.ref.out
    ensures a.ref.mode.Done? || a.ref.mode.Bad? || Waits(x, a.ref) ==> b.ref.out <= a.ref.out
    ensures (a.ref.mode.Done? || a.ref.mode.Bad? || Waits(x, a.ref)) && Waits(x, b.ref) ==> a.ref == b.ref
    ensures a.ref.mode.Done? && Waits(x, b.ref) ==> a.fed == b.fed
  {
    hide *;
    a.KnowIdle();
    b.KnowIdle();
    OnePath(x, a.fed, a.ref, b.fed, b.ref);
    ConsistentIs(x, a.ref, b.ref);
    ConsistentIs(x, b.ref, a.ref);
    if a.ref.mode.Done? || a.ref.mode.Bad? {
      FinishedWaits(a.fed, a.ref, x);
    }
    if a.ref.mode.Done? && Waits(x, b.ref) {
      a.DoneAligned();
      b.DoneAligned();
      assert a.fed == x[..|a.fed|] && b.fed == x[..|b.fed|];
    }
  }
}
