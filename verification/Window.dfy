/**
  The sliding window of inflate.c: updatewindow and inflateGetDictionary.

  The circular buffer stands for a plain history: the last wsize bytes of everything written.
 */
module Window {
  import opened Bits

  /** The last n elements. */
  function LastN<T>(s: seq<T>, n: nat): (r: seq<T>)
    ensures |r| == if |s| <= n then |s| else n
  {
    if |s| <= n then s else s[|s| - n..]
  }

  /** Keeping the last n after every piece is keeping the last n of the whole. */
  lemma LastNConcat<T>(a: seq<T>, b: seq<T>, n: nat)
    ensures LastN(LastN(a, n) + b, n) == LastN(a + b, n)
  {
    if |a| > n {
      assert a == a[..|a| - n] + LastN(a, n);
    }
  }

  /** w with x written at d. */
  function Splice(w: seq<byte>, d: nat, x: seq<byte>): (r: seq<byte>)
    requires d + |x| <= |w|
    ensures |r| == |w|
  {
    w[..d] + x + w[d + |x|..]
  }

  /** memcpy between different objects. */
  method CopyBytes(dst: array<byte>, d: nat, src: array<byte>, s: nat, n: nat)
    requires dst != src && d + n <= dst.Length && s + n <= src.Length
    modifies dst
    ensures dst[..] == Splice(old(dst[..]), d, src[s..s + n])
  {
    forall i | 0 <= i < n {
      dst[d + i] := src[s + i];
    }
  }

  /** The history held by a window of these contents. */
  function Held(w: seq<byte>, wnext: nat, whave: nat): (r: seq<byte>)
    requires whave <= |w| && wnext <= |w|
    ensures |r| == whave
  {
    if whave < |w| then w[..whave] else w[wnext..] + w[..wnext]
  }

  class SlidingWindow {
    const wbits: nat
    const window: array<byte>
    var wsize: nat    // 0 while the window is not in use
    var whave: nat    // valid bytes
    var wnext: nat    // write index

    ghost predicate Valid()
      reads this
    {
      && window.Length == Pow2(wbits)
      && (wsize == 0 ==> whave == 0 && wnext == 0)
      && (wsize != 0 ==> wsize == Pow2(wbits) && whave <= wsize && wnext < wsize)
      && (whave < wsize ==> wnext == whave)
    }

    /** The history, oldest byte first. */
    ghost function History(): (r: seq<byte>)
      requires Valid()
      reads this, window
      ensures |r| == whave
    {
      if wsize == 0 then [] else Held(window[..], wnext, whave)
    }

    constructor (bits: nat)
      ensures Valid() && wbits == bits && wsize == 0 && fresh(window)
    {
      wbits := bits;
      window := new byte[Pow2(bits)](_ => 0);
      wsize, whave, wnext := 0, 0, 0;
    }

    /** Where the byte d back in the history is held. */
    function IndexBack(d: nat): (i: nat)
      requires wnext < wsize && 1 <= d <= wsize
      reads this
      ensures i < wsize
    {
      if d > wnext then wsize - (d - wnext) else wnext - d
    }

    lemma HistoryAt(d: nat)
      requires Valid() && 1 <= d <= whave
      ensures wnext < wsize && window[IndexBack(d)] == History()[whave - d]
    {}

    /** updatewindow for fewer bytes than the window holds: to the end of the buffer, then from its start. */
    method CopyIn(output: array<byte>, put: nat, copy: nat)
      requires Valid() && wsize != 0 && output != window && copy <= put <= output.Length && copy < wsize
      modifies this`whave, this`wnext, window
      ensures Valid()
      ensures History() == LastN(old(History()) + output[put - copy..put], wsize)
    {
      hide LastN, Held, Pow2, Splice;
      ghost var before: seq<byte>, more: seq<byte>, w0: seq<byte> := History(), output[put - copy..put], window[..];
      var dist := wsize - wnext;
      if dist > copy { dist := copy; }
      CopyBoth(output, put, copy, dist);
      if copy != dist {
        Wrapped(w0, wnext, whave, before, more, dist, window[..]);
        wnext := copy - dist;
        whave := wsize;
      } else {
        Straight(w0, wnext, whave, before, more, window[..]);
        wnext := wnext + dist;
        if wnext == wsize { wnext := 0; }
        if whave < wsize { whave := whave + dist; }
      }
    }

    /** The two copies of updatewindow. */
    method CopyBoth(output: array<byte>, put: nat, copy: nat, dist: nat)
      requires wnext <= window.Length && output != window && copy <= put <= output.Length
      requires dist <= copy < window.Length && wnext + dist <= window.Length
      modifies window
      ensures var w, more := old(window[..]), output[put - copy..put];
              window[..] == if copy == dist then Splice(w, wnext, more) else Splice(Splice(w, wnext, more[..dist]), 0, more[dist..])
    {
      hide Splice;
      ghost var more: seq<byte> := output[put - copy..put];
      var left := copy;
      assert output[put - left..put - left + dist] == more[..dist];
      CopyBytes(window, wnext, output, put - left, dist);
      left := left - dist;
      if left != 0 {
        assert output[put - left..put] == more[dist..];
        CopyBytes(window, 0, output, put - left, left);
      } else {
        assert more[..dist] == more;
      }
    }

    /** updatewindow: put the last `copy` bytes written before `put` into the window. */
    method Update(output: array<byte>, put: nat, copy: nat)
      requires Valid() && output != window && copy <= put <= output.Length
      modifies this, window
      ensures Valid() && wsize == Pow2(wbits)
      ensures History() == LastN(old(History()) + output[put - copy..put], wsize)
    {
      hide Pow2, Held, LastN, Splice;
      ghost var before: seq<byte>, more: seq<byte> := History(), output[put - copy..put];
      SpliceAll(window[..]);
      if wsize == 0 {
        wsize, wnext, whave := Pow2(wbits), 0, 0;
      }
      if copy >= wsize {
        CopyBytes(window, 0, output, put - wsize, wsize);
        wnext := 0;
        whave := wsize;
        assert output[put - wsize..put] == more[|more| - wsize..];
        Replaced(window[..], before, more);
      } else {
        CopyIn(output, put, copy);
      }
    }

    /** inflateGetDictionary: the history in order. */
    method GetDictionary(dictionary: array<byte>) returns (length: nat)
      requires Valid() && dictionary != window && whave <= dictionary.Length
      modifies dictionary
      ensures length == whave && dictionary[..length] == History()
    {
      if whave != 0 {
        ghost var n := whave - wnext;
        CopyBytes(dictionary, 0, window, wnext, whave - wnext);
        ghost var d1: seq<byte> := dictionary[..];
        CopyBytes(dictionary, whave - wnext, window, 0, wnext);
        assert dictionary[..whave] == d1[..n] + window[..wnext];
      }
      length := whave;
    }
  }

  /** New bytes that fit before the end of the buffer. */
  lemma Straight(w0: seq<byte>, wnext: nat, whave: nat, before: seq<byte>, more: seq<byte>, w1: seq<byte>)
    requires 0 < |w0| == |w1| && wnext < |w0| && whave <= |w0| && (whave < |w0| ==> wnext == whave)
    requires wnext + |more| <= |w0| && |more| < |w0|
    requires before == Held(w0, wnext, whave) && w1 == Splice(w0, wnext, more)
    ensures var wn := if wnext + |more| == |w0| then 0 else wnext + |more|;
            var wh := if whave < |w0| then whave + |more| else whave;
            wh <= |w0| && (wh < |w0| ==> wn == wh) && Held(w1, wn, wh) == LastN(before + more, |w0|)
  {
    var all := before + more;
    if whave < |w0| {
      assert before == w0[..wnext];
      assert w1[..wnext + |more|] == all;
    } else {
      assert all[|all| - |w0|..] == w0[wnext + |more|..] + w0[..wnext] + more;
      assert before[|more|..] == w0[wnext + |more|..] + w0[..wnext];
    }
  }

  /** New bytes that wrap around the end. */
  lemma Wrapped(w0: seq<byte>, wnext: nat, whave: nat, before: seq<byte>, more: seq<byte>, dist: nat, w2: seq<byte>)
    requires 0 < |w0| == |w2| && wnext < |w0| && whave <= |w0| && (whave < |w0| ==> wnext == whave)
    requires dist == |w0| - wnext && dist < |more| < |w0|
    requires before == Held(w0, wnext, whave)
    requires w2 == Splice(Splice(w0, wnext, more[..dist]), 0, more[dist..])
    ensures Held(w2, |more| - dist, |w0|) == LastN(before + more, |w0|)
  {
    hide Splice, LastN, Held;
    WrappedWindow(w0, wnext, more, dist, w2);
    var left := |more| - dist;
    assert before[|before| - (wnext - left)..] == w0[left..wnext] by { HeldEnd(w0, wnext, whave, wnext - left); }
    assert Held(w2, left, |w0|) == w0[left..wnext] + more[..dist] + more[dist..] by { HeldAll(w2, left); }
    assert w0[left..wnext] + more[..dist] + more[dist..] == w0[left..wnext] + more;
    LastOf(before, more, |w0|);
  }

  /** New bytes that fill the whole buffer. */
  lemma Replaced(w: seq<byte>, before: seq<byte>, more: seq<byte>)
    requires |w| <= |more| && w == more[|more| - |w|..]
    ensures Held(w, 0, |w|) == LastN(before + more, |w|)
  {}

  lemma SpliceAll(w: seq<byte>)
    ensures forall x: seq<byte> :: |x| == |w| ==> Splice(w, 0, x) == x
  {}

  lemma HeldAll(w: seq<byte>, wnext: nat)
    requires wnext <= |w|
    ensures Held(w, wnext, |w|) == w[wnext..] + w[..wnext]
  {}

  /** The newest bytes are those before the write index. */
  lemma HeldEnd(w: seq<byte>, wnext: nat, whave: nat, n: nat)
    requires whave <= |w| && wnext <= |w| && (whave < |w| ==> wnext == whave) && n <= wnext
    ensures n <= whave && Held(w, wnext, whave)[whave - n..] == w[wnext - n..wnext]
  {}

  lemma LastOf(a: seq<byte>, b: seq<byte>, n: nat)
    requires |b| <= n <= |a| + |b|
    ensures LastN(a + b, n) == a[|a| - (n - |b|)..] + b
  {}

  lemma WrappedWindow(w0: seq<byte>, wnext: nat, more: seq<byte>, dist: nat, w2: seq<byte>)
    requires 0 < |w0| == |w2| && wnext < |w0| && dist == |w0| - wnext && dist < |more| < |w0|
    requires w2 == Splice(Splice(w0, wnext, more[..dist]), 0, more[dist..])
    ensures w2[|more| - dist..] == w0[|more| - dist..wnext] + more[..dist] && w2[..|more| - dist] == more[dist..]
  {
    var w1 := Splice(w0, wnext, more[..dist]);
    assert w1 == w0[..wnext] + more[..dist];
    assert w2 == more[dist..] + w1[|more| - dist..];
  }
}
