/**
  What the tallied tokens and the blocks already written say about the input: the meaning of the
  compressor's output at any moment.
 */
module Coverage {
  import opened Bits
  import opened Symbols
  import opened Reference
  import opened Runs
  import opened BitReader
  import opened FlushBlock
  import opened Matching

  /**
    The blocks written decode to a first part of the data, leaving the decoder at s, and the tokens
    tallied since go on from there up to stream position `done`.
   */
  ghost predicate Covers(data: seq<byte>, stream: seq<bool>, s: State, tokens: seq<Token>, done: nat) {
    && Delivers(stream, s) && s.mode == Type && !s.last
    && |s.out| <= done <= |data| && s.out == data[..|s.out|]
    && AllFitting(s.out, tokens) && Expand(s.out, tokens) == data[..done]
  }

  lemma CoversNothing()
    ensures Covers([], [], INIT, [], 0)
  {
    hide Delivers;
    NothingDelivered();
  }

  lemma CoversMore(data: seq<byte>, more: seq<byte>, stream: seq<bool>, s: State, tokens: seq<Token>, done: nat)
    requires Covers(data, stream, s, tokens, done)
    ensures Covers(data + more, stream, s, tokens, done)
  {
    hide Delivers, AllFitting, Expand;
    assert (data + more)[..done] == data[..done];
    assert (data + more)[..|s.out|] == data[..|s.out|];
  }

  lemma CoversLiteral(data: seq<byte>, stream: seq<bool>, s: State, tokens: seq<Token>, done: nat)
    requires Covers(data, stream, s, tokens, done) && done < |data|
    ensures Covers(data, stream, s, tokens + [Lit(data[done])], done + 1)
  {
    hide Delivers, AllFitting, Expand;
    ExpandSnoc(s.out, tokens, Lit(data[done]));
    assert data[..done] + [data[done]] == data[..done + 1];
  }

  lemma CoversMatch(data: seq<byte>, stream: seq<bool>, s: State, tokens: seq<Token>, done: nat, m: nat, len: nat)
    requires Covers(data, stream, s, tokens, done) && IsMatch(data, done, m, len)
    requires MIN_MATCH <= len <= MAX_MATCH && done - m <= MAX_DISTANCE
    ensures Covers(data, stream, s, tokens + [Match(len, done - m)], done + len)
  {
    hide Delivers, AllFitting, Expand, CopyMatch;
    CopyIsData(data, done, m, len);
    ExpandSnoc(s.out, tokens, Match(len, done - m));
  }

  /** A block that stands for the tokens brings the decoder to where they end. */
  lemma CoversBlock(data: seq<byte>, stream: seq<bool>, s: State, tokens: seq<Token>, done: nat, bits: seq<bool>, last: bool)
    returns (t: State)
    requires Covers(data, stream, s, tokens, done) && IsBlock(bits, |stream|, last, data[|s.out|..done], tokens)
    ensures Delivers(stream + bits, t) && t.mode == Type && t.last == last && t.out == data[..done]
    ensures !last ==> Covers(data, stream + bits, t, [], done)
  {
    hide Delivers, AllFitting, Expand, IsBlock;
    assert data[..|s.out|] + data[|s.out|..done] == data[..done];
    t := DeliverBlock(stream, s, bits, last, data[|s.out|..done], tokens);
    ExpandNone(t.out);
  }

  lemma ExpandNone(out: seq<byte>)
    ensures AllFitting(out, []) && Expand(out, []) == out
  {}

  /** The stream is complete: it decodes to all the data. */
  ghost predicate Finished(data: seq<byte>, stream: seq<bool>, s: State) {
    Delivers(stream, s) && s.mode == Done && s.out == data
  }

  /** The bytes of a complete stream, read by the decoder. */
  lemma FinishedAt(data: seq<byte>, bytes: seq<byte>, s: State)
    requires Finished(data, BytesBits(bytes), s)
    ensures At(bytes, s) && s.pos == 8 * |bytes|
  {
    hide Delivers, BytesBits;
    DeliversAt(bytes, BytesBits(bytes), s);
    DeliversPos(BytesBits(bytes), s);
  }

  lemma DeliversPos(stream: seq<bool>, s: State)
    requires Delivers(stream, s)
    ensures s.pos == |stream|
  {
    hide Reaches, Ok;
  }

  /** Whatever has been written so far, the decoder is at s having read it. */
  lemma DeliversAt(bytes: seq<byte>, stream: seq<bool>, s: State)
    requires Delivers(stream, s) && stream <= BytesBits(bytes)
    ensures At(bytes, s)
  {
    hide Reaches, Ok;
    var x := BytesBits(bytes);
    assert x == stream + x[|stream|..];
  }
}
