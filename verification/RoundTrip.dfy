/**
  What deflate() writes, inflate() reads back: the compressor and the decompressor, which share no
  code, meet at the reference decoder.
 */
module RoundTrip {
  import opened Bits
  import opened Reference
  import opened Runs
  import opened BitReader
  import opened FlushBlock
  import opened Coverage
  import opened Deflate
  import opened Inflate
  import opened SplitIndependence

  lemma DoneWaits(x: seq<byte>, s: State)
    requires s.pos <= 8 * |x| && s.mode.Done?
    ensures Waits(x, s)
  {}

  /** With no bits left the decoder cannot start another block. */
  lemma TypeWaits(x: seq<byte>, s: State)
    requires s.pos == 8 * |x| && s.mode == Type && !s.last
    ensures Waits(x, s)
  {
    hide StepStored, StepCopy, StepTable, StepLenLens, StepCodeLens, StepLen, StepLenExt, StepDist, StepDistExt, StepCopying;
  }

  /**
    Once deflate() has returned Z_STREAM_END, an inflater that is fed what it wrote, in any pieces and
    whatever follows, never writes anything but the data; and once it has no more to do, it has
    written exactly the data, reports the end of the stream and has read exactly what deflate() wrote.
   */
  lemma RoundTrips(d: Deflater, b: Inflater, rest: seq<byte>)
    requires Finished(d.data, BytesBits(d.given), d.ref)
    requires b.Idle() && b.fed <= d.given + rest
    ensures b.ref.out <= d.data
    ensures Waits(d.given + rest, b.ref) ==> b.ref.mode.Done? && b.ref.out == d.data && b.fed == d.given
  {
    hide *;
    var x := d.given + rest;
    FinishedAt(d.data, d.given, d.ref);
    FinishedIs(d.data, BytesBits(d.given), d.ref);
    AtMore(d.given, rest, d.ref);
    AtOk(x, d.ref);
    DoneWaits(x, d.ref);
    b.KnowIdle();
    OnePath(x, x, d.ref, b.fed, b.ref);
    ConsistentIs(x, d.ref, b.ref);
    if Waits(x, b.ref) {
      b.DoneAligned();
      assert b.fed == x[..|b.fed|] && d.given == x[..|d.given|];
    }
  }

  lemma FinishedIs(data: seq<byte>, stream: seq<bool>, s: State)
    requires Finished(data, stream, s)
    ensures s.mode.Done? && s.out == data && Delivers(stream, s)
  {
    hide Delivers;
  }

  /**
    After a sync or full flush that left output space, an inflater that has no more to do with what was written so far
    has written all the data so far.
   */
  lemma FlushShowsAll(d: Deflater, b: Inflater)
    requires d.Synced() && b.Idle() && b.fed <= d.given
    ensures b.ref.out <= d.data
    ensures Waits(d.given, b.ref) ==> b.ref.out == d.data
  {
    hide *;
    SyncedParts(d);
    DeliversAt(d.given, BytesBits(d.given), d.ref);
    DeliversPos(BytesBits(d.given), d.ref);
    TypeWaits(d.given, d.ref);
    b.KnowIdle();
    OnePath(d.given, d.given, d.ref, b.fed, b.ref);
    ConsistentIs(d.given, d.ref, b.ref);
  }

  lemma SyncedParts(d: Deflater)
    requires d.Synced()
    ensures Delivers(BytesBits(d.given), d.ref) && d.ref.mode == Type && !d.ref.last && d.ref.out == d.data
  {
    hide Delivers;
  }

  /** A decoder that has read only bits of the stream has not gone past the state the stream leads to. */
  lemma NotPast(stream: seq<bool>, s: State, f: seq<byte>, t: State)
    requires Delivers(stream, s) && (s.mode.Done? || (s.mode == Type && !s.last)) && At(f, t) && BytesBits(f) <= stream
    ensures t.out <= s.out
  {
    hide Run, Step, Ok;
    var x := BytesBits(f);
    var tail := stream[|x|..];
    assert x + tail == stream && stream + [] == stream;
    ReachesExtend(INIT_Ok(), x, t, x[t.pos..], tail);
    assert Reaches(INIT, stream + [], s, []);
    var j: nat :| Run(j, INIT, stream, t, x[t.pos..] + tail);
    var k: nat :| Run(k, INIT, stream, s, []);
    NotPastRun(j, k, stream, s, t, x[t.pos..] + tail);
  }

  lemma NotPastRun(j: nat, k: nat, stream: seq<bool>, s: State, t: State, rest: seq<bool>)
    requires Run(k, INIT, stream, s, []) && Run(j, INIT, stream, t, rest)
    requires s.mode.Done? || (s.mode == Type && !s.last)
    ensures t.out <= s.out
  {
    hide Step;
    if j <= k {
      RunOrder(j, k, INIT, stream, t, rest, s, []);
      RunGrows(k - j, t, rest, s, []);
    } else {
      RunOrder(k, j, INIT, stream, s, [], t, rest);
      NoBits(s);
    }
  }

  lemma NoBits(s: State)
    requires s.mode.Done? || (s.mode == Type && !s.last)
    ensures Step(s, []).Stuck?
  {
    hide StepStored, StepCopy, StepTable, StepLenLens, StepCodeLens, StepLen, StepLenExt, StepDist, StepDistExt, StepCopying;
  }

  /** At any moment, finished or not: what an inflater makes of any part of the output is a beginning of the data. */
  lemma NothingElse(d: Deflater, b: Inflater)
    requires d.Valid() && b.Idle() && b.fed <= d.given
    ensures b.ref.out <= d.data
  {
    hide *;
    d.Output();
    b.KnowIdle();
    assert d.given == b.fed + d.given[|b.fed|..];
    BytesBitsConcat(b.fed, d.given[|b.fed|..]);
    NotPast(d.enc.w.Stream(), d.ref, b.fed, b.ref);
  }
}
