/** Whole runs of inflate(): a stream that arrives piece by piece, decoded into output
    buffers of any size, one call after the other. */
module Session {
  import opened Bits
  import opened Streams
  import opened Machine
  import opened Slicing
  import opened Runs
  import R = Rfc1951
  import opened Reference
  import opened Inflate
  import E = Encoder
  import opened Accepted

  lemma {:induction false} InputGrows(calls: seq<Call>, i: nat)
    requires i < |calls|
    ensures Input(calls[..i + 1]) == Input(calls[..i]) + calls[i].bytes
  {
    assert Init(calls[..i + 1]) == calls[..i];
  }

  lemma {:induction false} NoCalls(calls: seq<Call>)
    ensures Input(calls[..0]) == [] && WF(START, []) && AfterCalls(START, [], calls[..0]) == START
  {}

  /** One call more. */
  lemma {:induction false} CallMore(calls: seq<Call>, i: nat, d: Cfg)
    requires i < |calls| && WF(START, [])
    requires var c := AfterCalls(START, [], calls[..i]);
             StopsAt(c, Input(calls[..i + 1]), |c.out| + calls[i].space, d)
    ensures d == AfterCalls(START, [], calls[..i + 1])
  {
    hide Final, Step;
    var done := calls[..i + 1];
    assert Init(done) == calls[..i];
    ArrivedIsInput([], done);
    ArrivedIsInput([], calls[..i]);
    assert [] + ByteBits(Input(done)) == ByteBits(Input(done));
    ByteBitsAppend(Input(calls[..i]), calls[i].bytes);
    InputGrows(calls, i);
  }

  lemma {:induction false} NothingTaken()
    requires WF(START, [])
    ensures TakesRight(START, [], 0)
  {}

  /** One call, with room of its own. */
  method Once(strm: InflateState, inp: seq<byte>, space: nat) returns (taken: nat, ret: Ret)
    requires strm.Valid() && strm.Idle()
    modifies strm, strm.lens, strm.work, strm.codes, strm.fixedTab, strm.window
    ensures strm.Valid() && strm.Idle()
    ensures taken <= |inp| && strm.past == old(strm.past) + inp[..taken]
    ensures StopsAt(old(strm.Abs()), old(strm.past) + inp, old(|strm.hist|) + space, strm.Abs())
    ensures TakesRight(strm.Abs(), old(strm.past) + inp, |strm.past|)
    ensures strm.hist == strm.Abs().out && Reports(ret, strm.Abs().ph)
  {
    hide StopsAt, TakesRight, InflateState.Abs, InflateState.Valid;
    strm.CanAbs();
    var out := new byte[space];
    var written;
    ret, taken, written := strm.Inflate(inp, out);
    strm.CanAbs();
  }

  predicate Reports(ret: Ret, ph: Phase) {
    && (ret == Z_STREAM_END <==> ph.Done?)
    && (ret == Z_DATA_ERROR <==> ph.Bad?)
  }

  /** The decoder after the calls: rest is what it has not taken of their input. */
  ghost predicate Fed(strm: InflateState, calls: seq<Call>, rest: seq<byte>, ret: Ret)
    reads strm, strm.output, strm.lens, strm.fixedTab, strm.lencode, strm.distcode, strm.window
  {
    && strm.Valid() && strm.Idle() && WF(START, [])
    && strm.past + rest == Input(calls) && TakesRight(strm.Abs(), Input(calls), |strm.past|)
    && strm.Abs() == AfterCalls(START, [], calls) && strm.hist == strm.Abs().out && Reports(ret, strm.Abs().ph)
  }

  /** One call more, which gets what the one before has left of its input. */
  method Next(strm: InflateState, calls: seq<Call>, i: nat, rest: seq<byte>, ghost was: Ret)
    returns (rest': seq<byte>, ret: Ret)
    requires i < |calls| && Fed(strm, calls[..i], rest, was)
    modifies strm, strm.lens, strm.work, strm.codes, strm.fixedTab, strm.window
    ensures Fed(strm, calls[..i + 1], rest', ret)
  {
    hide WF, StopsAt, TakesRight, AfterCalls, Input, Reports, InflateState.Valid, InflateState.Abs, InflateState.Idle;
    var inp := rest + calls[i].bytes;
    InputGrows(calls, i);
    assert strm.past + inp == Input(calls[..i + 1]);
    var taken;
    taken, ret := Once(strm, inp, calls[i].space);
    rest' := inp[taken..];
    strm.CanAbs();
    CallMore(calls, i, strm.Abs());
  }

  lemma {:induction false} NoneFed(strm: InflateState)
    requires strm.Valid() && strm.Idle() && strm.past == [] && strm.hist == [] && strm.Abs() == START
    ensures Fed(strm, [], [], Z_OK)
  {
    hide InflateState.Valid, InflateState.Abs;
    NoCalls([]);
    NothingTaken();
  }

  /** Feed the input of the calls to a fresh decoder. */
  method Feed(calls: seq<Call>) returns (strm: InflateState, rest: seq<byte>, ret: Ret)
    ensures fresh(strm) && Fed(strm, calls, rest, ret)
  {
    hide Fed, InflateState.Valid, InflateState.Abs;
    strm := new InflateState();
    rest, ret := [], Z_OK;
    NoneFed(strm);
    var i := 0;
    while i < |calls|
      invariant i <= |calls| && fresh(strm) && Fed(strm, calls[..i], rest, ret)
      invariant fresh(strm.window) && fresh(strm.lens) && fresh(strm.work) && fresh(strm.codes) && fresh(strm.fixedTab)
    {
      rest, ret := Next(strm, calls, i, rest, ret);
      i := i + 1;
    }
    assert calls[..i] == calls;
  }

  /** Between two calls of which the next begins at a symbol: all of the input is taken, and
      what is at hand is what lies behind the position. So fewer than eight bits are at hand
      exactly if less than a byte of the input does. */
  lemma {:induction false} AtSymbol(strm: InflateState, calls: seq<Call>, rest: seq<byte>, ret: Ret)
    requires Fed(strm, calls, rest, ret) && calls != [] && strm.mode == LEN
    ensures rest == [] && strm.bits == 8 * |Input(calls)| - strm.Abs().pos
    ensures strm.bits < 8 <==> 8 * |Input(calls)| < strm.Abs().pos + 8
  {
    hide Final, AfterCalls, Input, LastLimit, Arrived, ByteBits, Step, InflateState.Core, InflateState.LensOK,
         InflateState.FixedOK, InflateState.CodeTables, InflateState.ClTable;
    strm.CanAbs();
    strm.AbsIs();
    CallsAreOne(START, [], calls);
    ArrivedIsInput([], calls);
    assert Arrived([], calls) == ByteBits(Input(calls));
    FinalGrows(START, ByteBits(Input(calls)), LastLimit(START, [], calls));
    SymbolNeedsNoRoom(strm.Abs(), ByteBits(Input(calls)), LastLimit(START, [], calls));
  }

  lemma {:induction false} SymbolNeedsNoRoom(d: Cfg, S: Stream, limit: nat)
    requires WF(d, S) && d.ph.Len? && Step(d, S, limit).None?
    ensures Consumed(d, S) == |S| / 8
  {}

  /** Two decoders fed the same input in different pieces, with different room: unless one
      of them has written more than the other had room for, they have written and taken the
      same bytes, are in the same state and have reported the same. */
  lemma {:induction false} FedAlike(s: InflateState, t: InflateState, a: seq<Call>, b: seq<Call>, x: seq<byte>,
                                    y: seq<byte>, u: Ret, v: Ret)
    requires Fed(s, a, x, u) && Fed(t, b, y, v) && a != [] && b != [] && Input(a) == Input(b)
    requires |s.hist| <= LastLimit(START, [], b) && |t.hist| <= LastLimit(START, [], a)
    ensures s.hist == t.hist && s.past == t.past && x == y && s.Abs() == t.Abs()
    ensures (u == Z_STREAM_END <==> v == Z_STREAM_END) && (u == Z_DATA_ERROR <==> v == Z_DATA_ERROR)
  {
    hide WF, AfterCalls, Input, LastLimit, Consumed, InflateState.Valid, InflateState.Abs;
    SlicingDoesNotMatter(START, [], a, b);
    assert s.past == Input(a)[..|s.past|] && t.past == Input(a)[..|t.past|];
    assert x == Input(a)[|s.past|..] && y == Input(a)[|t.past|..];
  }

  /** What the reference decoder says of a string of bytes. */
  ghost function Expected(src: seq<byte>): R.Result {
    R.Blocks(ByteBits(src), 0, [])
  }

  /** However a valid stream is cut up, and whatever the sizes of the output buffers,
      the calls end with exactly the reference decoder's output if there is room for it;
      and if they ever report the end of the stream, the stream is valid and that is its
      output. */
  lemma {:induction false} AnyCallsDecode(calls: seq<Call>)
    requires WF(START, [])
    ensures var f := AfterCalls(START, [], calls);
      match Expected(Input(calls))
      case Fail => !f.ph.Done?
      case Ok(o, p) =>
        if calls != [] && |o| <= LastLimit(START, [], calls) then f == Cfg(Done, true, p, o) else !f.ph.Done?
  {
    hide Final, Step, R.Blocks;
    if calls != [] {
      CallsAreOne(START, [], calls);
      ArrivedIsInput([], calls);
      var S := ByteBits(Input(calls));
      assert Arrived([], calls) == S;
      MachineIsReference(S, LastLimit(START, [], calls));
    }
  }

  /** If the stream can still be continued to a valid one, then no error is reported, and
      what is written is the beginning of its output. */
  lemma {:induction false} Continues(S: Stream, limit: nat, T: Stream)
    requires S <= T
    ensures WF(START, S)
    ensures match R.Blocks(T, 0, [])
      case Fail => true
      case Ok(o, p) => !Final(START, S, limit).ph.Bad? && Final(START, S, limit).out <= o
  {
    hide Final, Step, R.Blocks;
    MachineIsReference(S, limit);
    var f, r := Final(START, S, limit), R.Blocks(T, 0, []);
    if r.Ok? {
      var m := if |f.out| <= |r.out| then |r.out| else |f.out|;
      MachineIsReference(T, m);
      Resume(START, S, limit, T, m);
      FinalGrows(f, T, m);
      if f.ph.Bad? { EndStays(f, T, m); }
    }
  }

  lemma {:induction false} CallsContinue(calls: seq<Call>, more: seq<byte>)
    requires WF(START, [])
    ensures var f := AfterCalls(START, [], calls);
      match Expected(Input(calls) + more)
      case Fail => true
      case Ok(o, p) => !f.ph.Bad? && f.out <= o
  {
    hide Final, Step, R.Blocks, ByteBits, Input, Arrived, LastLimit, WF;
    if calls != [] {
      CallsAreOne(START, [], calls);
      ArrivedIsInput([], calls);
      assert Arrived([], calls) == ByteBits(Input(calls));
      ByteBitsAppend(Input(calls), more);
      Continues(Arrived([], calls), LastLimit(START, [], calls), ByteBits(Input(calls) + more));
    }
  }

  /** A fresh decoder that is fed any calls: it reports the end of the stream exactly if
      the reference decoder accepts their input and there is room, and has then written the
      reference output and taken the bytes that the stream reaches into. Before that, what
      it has written is the beginning of the output of every valid continuation; and when
      it reports a data error, there is none. */
  method Decompress(calls: seq<Call>) returns (strm: InflateState, rest: seq<byte>, ret: Ret)
    ensures WF(START, []) && strm.past + rest == Input(calls)
    ensures match Expected(Input(calls))
      case Fail => ret != Z_STREAM_END
      case Ok(o, p) =>
        if calls != [] && |o| <= LastLimit(START, [], calls)
        then ret == Z_STREAM_END && strm.hist == o && |strm.past| == Align(p) / 8
        else ret != Z_STREAM_END
    ensures forall more: seq<byte> ::
      match Expected(Input(calls) + more)
      case Fail => true
      case Ok(o, p) => ret != Z_DATA_ERROR && strm.hist <= o
  {
    hide InflateState.Valid, InflateState.Abs, AfterCalls, Input, Expected, LastLimit, ByteBits;
    strm, rest, ret := Feed(calls);
    AnyCallsDecode(calls);
    forall more: seq<byte>
      ensures match Expected(Input(calls) + more)
        case Fail => true
        case Ok(o, p) => ret != Z_DATA_ERROR && strm.hist <= o {
      CallsContinue(calls, more);
    }
  }

  /** src is what a compressor may write as bs. */
  ghost predicate Compressed(src: seq<byte>, bs: seq<E.Block>) { E.Encodes(ByteBits(src), 0, [], bs) }

  lemma {:induction false} CompressedIs(src: seq<byte>)
    ensures Expected(src).Ok? <==> exists bs: seq<E.Block> :: Compressed(src, bs)
    ensures forall bs: seq<E.Block> :: Compressed(src, bs) ==>
      Expected(src) == R.Ok(E.Data(0, [], bs), Align(|E.StreamBits(0, [], bs)|))
  {
    hide E.StreamOK, E.StreamBits, E.Data, E.At, ByteBits, R.Blocks, Align, E.Encodes;
    AcceptsFormat(ByteBits(src));
    if Expected(src).Ok? {
      var bs: seq<E.Block> :| E.Encodes(ByteBits(src), 0, [], bs);
      assert Compressed(src, bs);
    }
  }

  /** Decompression undoes compression: a fresh decoder reports the end of the stream exactly if
      its input, however it is cut up, is what a compressor may write, in any blocks, codes and
      matches, for data that there is room for; and what it has written then is those data. */
  method Uncompress(calls: seq<Call>) returns (strm: InflateState, rest: seq<byte>, ret: Ret)
    ensures WF(START, []) && strm.past + rest == Input(calls)
    ensures ret == Z_STREAM_END <==> calls != [] && exists bs: seq<E.Block> ::
              Compressed(Input(calls), bs) && |E.Data(0, [], bs)| <= LastLimit(START, [], calls)
    ensures forall bs: seq<E.Block> :: Compressed(Input(calls), bs) && ret == Z_STREAM_END ==>
              strm.hist == E.Data(0, [], bs) && |strm.past| == Align(|E.StreamBits(0, [], bs)|) / 8
  {
    hide E.StreamOK, E.StreamBits, E.Data, E.At, ByteBits, Input, LastLimit, Expected, Align;
    strm, rest, ret := Decompress(calls);
    CompressedIs(Input(calls));
    forall bs: seq<E.Block> | Compressed(Input(calls), bs)
      ensures Align(Align(|E.StreamBits(0, [], bs)|)) == Align(|E.StreamBits(0, [], bs)|) {
      BoundaryStays(|E.StreamBits(0, [], bs)|);
    }
  }

  lemma {:induction false} BoundaryStays(n: nat)
    ensures Align(Align(n)) == Align(n)
  {}
}
