/** The circular history window of inflate(). */
module Window {
  import opened Bits

  const WSIZE: nat := 32768

  /** Where the byte k back from the write position is. */
  function Back(write: nat, k: nat): (i: nat)
    requires write < WSIZE && 1 <= k <= WSIZE
    ensures i < WSIZE
  {
    if k <= write then write - k else WSIZE + write - k
  }

  /** The window holds the end of hist. */
  ghost predicate WindowOK(win: seq<byte>, wsize: nat, whave: nat, write: nat, hist: seq<byte>) {
    && |win| == WSIZE
    && if wsize == 0 then whave == 0 && write == 0 && hist == []
       else
         && wsize == WSIZE && write < WSIZE && whave == Min(|hist|, WSIZE)
         && (whave < WSIZE ==> write == whave)
         && forall k :: 1 <= k <= whave ==> win[Back(write, k)] == hist[|hist| - k]
  }

  /** The window read from its oldest byte to its newest. */
  function InOrder(win: seq<byte>, whave: nat, write: nat): seq<byte>
    requires |win| == WSIZE && write < WSIZE && whave <= WSIZE
  {
    if whave < WSIZE then win[..whave] else win[write..] + win[..write]
  }

  /** That is exactly the last min(WSIZE, total) bytes of output. */
  lemma {:induction false} WindowIsHistory(win: seq<byte>, wsize: nat, whave: nat, write: nat, hist: seq<byte>)
    requires WindowOK(win, wsize, whave, write, hist) && wsize > 0
    ensures InOrder(win, whave, write) == hist[|hist| - Min(|hist|, WSIZE)..]
  {
    var a, b := InOrder(win, whave, write), hist[|hist| - whave..];
    assert |a| == |b| == whave;
    forall i | 0 <= i < whave ensures a[i] == b[i] {
      var k := whave - i;
      assert win[Back(write, k)] == hist[|hist| - k];
    }
  }

  /** A window replaced by the last WSIZE bytes of the output. */
  lemma {:induction false} Refilled(win: seq<byte>, hist: seq<byte>, o: seq<byte>)
    requires |win| == WSIZE <= |o| && win == o[|o| - WSIZE..]
    ensures WindowOK(win, WSIZE, WSIZE, 0, hist + o)
  {}

  /** Less than a window of output, written where the last one ended, wrapping. */
  lemma {:induction false} Extended(win: seq<byte>, whave: nat, write: nat, hist: seq<byte>,
                                    win': seq<byte>, o: seq<byte>)
    requires WindowOK(win, WSIZE, whave, write, hist) && |win'| == WSIZE && |o| < WSIZE
    requires var d := Min(WSIZE - write, |o|);
      && win'[write..write + d] == o[..d]
      && win'[..|o| - d] == o[d..]
      && win'[|o| - d..write] == win[|o| - d..write]
      && win'[write + d..] == win[write + d..]
    ensures var d := Min(WSIZE - write, |o|);
      var write' := if d < |o| then |o| - d else if write + d == WSIZE then 0 else write + d;
      var whave' := if d < |o| then WSIZE else if whave < WSIZE then whave + d else whave;
      WindowOK(win', WSIZE, whave', write', hist + o)
  {
    var d, h := Min(WSIZE - write, |o|), hist + o;
    var write' := if d < |o| then |o| - d else if write + d == WSIZE then 0 else write + d;
    var whave' := if d < |o| then WSIZE else if whave < WSIZE then whave + d else whave;
    forall k | 1 <= k <= whave' ensures win'[Back(write', k)] == h[|h| - k] {
      var i := Back(write', k);
      if k <= |o| {
        assert h[|h| - k] == o[|o| - k];
        if i >= write && i < write + d { assert win'[i] == win'[write..write + d][i - write]; }
        else { assert win'[i] == win'[..|o| - d][i]; }
      } else {
        assert win[Back(write, k - |o|)] == hist[|hist| - (k - |o|)];
        if i < write { assert win'[i] == win'[|o| - d..write][i - (|o| - d)]; }
        else { assert win'[i] == win'[write + d..][i - (write + d)]; }
      }
    }
  }

  /** The test for a distance too far back knows only the window and this call's output. */
  lemma {:induction false} TooFar(win: seq<byte>, wsize: nat, whave: nat, write: nat, hist: seq<byte>, dist: nat,
                                  put: nat)
    requires WindowOK(win, wsize, whave, write, hist) && dist <= WSIZE
    ensures dist > whave + put <==> dist > |hist| + put
  {}

  /** Where the bytes from op back in the window are, up to its end or its write position. */
  lemma {:induction false} Chunk(win: seq<byte>, wsize: nat, whave: nat, write: nat, hist: seq<byte>, op: nat)
    requires WindowOK(win, wsize, whave, write, hist) && 1 <= op <= |hist| && op <= WSIZE
    ensures wsize == WSIZE && op <= whave && write < WSIZE
    ensures op > write ==>
      whave == WSIZE && win[WSIZE - (op - write)..] == hist[|hist| - op..|hist| - write] &&
          win[..write] == hist[|hist| - write..]
    ensures op <= write ==> win[write - op..write] == hist[|hist| - op..]
  {
    if op > write {
      var a, b := win[WSIZE - (op - write)..], hist[|hist| - op..|hist| - write];
      forall j | 0 <= j < |a| ensures a[j] == b[j] { assert win[Back(write, op - j)] == hist[|hist| - (op - j)]; }
      Newest(win, wsize, whave, write, hist, write);
    } else {
      Newest(win, wsize, whave, write, hist, op);
    }
  }

  lemma {:induction false} Newest(win: seq<byte>, wsize: nat, whave: nat, write: nat, hist: seq<byte>, op: nat)
    requires WindowOK(win, wsize, whave, write, hist) && op <= write && op <= whave
    ensures win[write - op..write] == hist[|hist| - op..]
  {
    var a, b := win[write - op..write], hist[|hist| - op..];
    forall j | 0 <= j < |a| ensures a[j] == b[j] { assert win[Back(write, op - j)] == hist[|hist| - (op - j)]; }
  }

  lemma {:induction false} WindowNumbers(win: seq<byte>, wsize: nat, whave: nat, write: nat, hist: seq<byte>)
    requires WindowOK(win, wsize, whave, write, hist)
    ensures |win| == WSIZE && (wsize == 0 || wsize == WSIZE) && (whave > 0 ==> wsize > 0)
    ensures write < WSIZE && whave <= WSIZE && whave <= |hist|
  {}

  /** Two copies into the window, the second at its start. */
  lemma {:induction false} Spliced(win: seq<byte>, mid: seq<byte>, win': seq<byte>, write: nat, o: seq<byte>, d: nat)
    requires |win| == |mid| == |win'| == WSIZE && write < WSIZE && |o| < WSIZE && d == Min(WSIZE - write, |o|)
    requires mid[..write] == win[..write] && mid[write..write + d] == o[..d] && mid[write + d..] == win[write + d..]
    requires win'[..|o| - d] == o[d..] && win'[|o| - d..] == mid[|o| - d..]
    ensures win'[write..write + d] == o[..d] && win'[|o| - d..write] == win[|o| - d..write]
    ensures win'[write + d..] == win[write + d..]
  {
    var n := |o| - d;
    assert win'[write..write + d] == win'[n..][write - n..write - n + d] == mid[n..][write - n..write - n + d];
    assert win'[n..write] == win'[n..][..write - n] == mid[n..][..write - n] == mid[..write][n..];
    assert win'[write + d..] == win'[n..][write + d - n..] == mid[n..][write + d - n..];
  }
}
