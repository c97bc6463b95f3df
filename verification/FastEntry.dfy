/** inflate_fast() assumes that it is entered with fewer than eight bits in the accumulator
    (libgzip/inffast.c). Resuming in the middle of a symbol it is not: an input that shows
    it, of a fixed block with five literals of nine bits and the beginning of another. */
module FastEntry {
  import opened Bits
  import opened Canonical
  import opened Tables
  import opened Streams
  import opened Machine
  import opened Slicing
  import opened Runs
  import opened Reference
  import opened Inflate
  import Session

  function Piece(): seq<byte> { [0x9a, 0x30, 0x61, 0xc2, 0x84, 0x09, 0x13] }

  /** The code of the literal 144. */
  function Word(): (w: seq<bool>)
    ensures |w| == 9
  {
    [true, true, false, false, true, false, false, false, false]
  }

  /** A header of a fixed block, five such codes, and eight bits of a sixth. */
  ghost predicate Encoded(S: Stream) {
    && |S| == 56 && !S[0] && Num(S, 1, 2) == 1 && S[48..] == Word()[..8]
    && forall k :: 0 <= k < 5 ==> Word() <= S[3 + 9 * k..]
  }

  function Literals(k: nat): (o: seq<byte>)
    ensures |o| == k
  {
    if k == 0 then [] else Literals(k - 1) + [144]
  }

  // ---- The code ------------------------------------------------------------------------

  lemma {:induction false} CodeDigits(x: nat, n: nat, w: seq<bool>)
    requires w == ToBE(n, x / 2)
    ensures ToBE(n + 1, x) == w + [x % 2 == 1]
  {}

  lemma {:induction false} Bits144()
    ensures Uses(FixedLengths(), 144) && FixedLengths()[144] == 9 && CodeBits(FixedLengths(), 144) == Word()
  {
    hide FixedLengths, CodeOf, ToBE;
    FixedCodes(FixedLengths(), 144);
    NoDigits();
    CodeDigits(1, 0, []);
    CodeDigits(3, 1, [true]);
    CodeDigits(6, 2, [true, true]);
    CodeDigits(12, 3, [true, true, false]);
    CodeDigits(25, 4, [true, true, false, false]);
    CodeDigits(50, 5, [true, true, false, false, true]);
    CodeDigits(100, 6, [true, true, false, false, true, false]);
    CodeDigits(200, 7, [true, true, false, false, true, false, false]);
    CodeDigits(400, 8, [true, true, false, false, true, false, false, false]);
  }

  lemma {:induction false} NoDigits()
    ensures ToBE(0, 0) == []
  {}

  // ---- The stream -----------------------------------------------------------------------

  lemma {:induction false} FourBits(x: nat)
    ensures ToLE(4, x) == [x % 2 == 1, x / 2 % 2 == 1, x / 4 % 2 == 1, x / 8 % 2 == 1]
  {
    assert ToLE(2, x / 4) == [x / 4 % 2 == 1, x / 8 % 2 == 1];
    assert ToLE(3, x / 2) == [x / 2 % 2 == 1] + ToLE(2, x / 4);
  }

  lemma {:induction false} EightBits(x: nat)
    ensures ToLE(8, x) == ToLE(4, x) + ToLE(4, x / 16)
  {
    assert x / 2 / 2 == x / 4 && x / 4 / 2 == x / 8 && x / 8 / 2 == x / 16;
    assert ToLE(8, x) == [x % 2 == 1] + ToLE(7, x / 2);
    assert ToLE(7, x / 2) == [x / 2 % 2 == 1] + ToLE(6, x / 4);
    assert ToLE(6, x / 4) == [x / 4 % 2 == 1] + ToLE(5, x / 8);
    assert ToLE(5, x / 8) == [x / 8 % 2 == 1] + ToLE(4, x / 16);
    FourBits(x);
  }

  lemma {:induction false} OneByte(s: seq<byte>, b: byte, rest: seq<byte>)
    requires s == [b] + rest
    ensures var c := b / 16;
      ByteBits(s) == [b % 2 == 1, b / 2 % 2 == 1, b / 4 % 2 == 1, b / 8 % 2 == 1,
                      c % 2 == 1, c / 2 % 2 == 1, c / 4 % 2 == 1, c / 8 % 2 == 1] + ByteBits(rest)
  {
    hide ToLE;
    assert s[1..] == rest;
    EightBits(b);
    FourBits(b);
    FourBits(b / 16);
  }

  lemma {:induction false} NoBytes()
    ensures ByteBits([]) == []
  {}

  lemma {:induction false} EachByte()
    ensures ByteBits([0x9a]) == [false, true, false, true, true, false, false, true]
    ensures ByteBits([0x30]) == [false, false, false, false, true, true, false, false]
    ensures ByteBits([0x61]) == [true, false, false, false, false, true, true, false]
    ensures ByteBits([0xc2]) == [false, true, false, false, false, false, true, true]
    ensures ByteBits([0x84]) == [false, false, true, false, false, false, false, true]
    ensures ByteBits([0x09]) == [true, false, false, true, false, false, false, false]
    ensures ByteBits([0x13]) == [true, true, false, false, true, false, false, false]
  {
    hide ByteBits, ToLE;
    NoBytes();
    OneByte([0x9a], 0x9a, []);
    OneByte([0x30], 0x30, []);
    OneByte([0x61], 0x61, []);
    OneByte([0xc2], 0xc2, []);
    OneByte([0x84], 0x84, []);
    OneByte([0x09], 0x09, []);
    OneByte([0x13], 0x13, []);
  }

  lemma {:induction false} TwoBytes(a: byte, b: byte, rest: seq<byte>)
    ensures ByteBits([a, b] + rest) == ByteBits([a]) + ByteBits([b]) + ByteBits(rest)
  {
    hide ByteBits;
    assert [a, b] == [a] + [b];
    ByteBitsAppend([a, b], rest);
    ByteBitsAppend([a], [b]);
  }

  lemma {:induction false} PieceByBytes()
    ensures ByteBits(Piece()) == ByteBits([0x9a]) + ByteBits([0x30]) + ByteBits([0x61]) + ByteBits([0xc2]) +
                                 ByteBits([0x84]) + ByteBits([0x09]) + ByteBits([0x13])
  {
    hide ByteBits;
    assert Piece() == [0x9a, 0x30] + [0x61, 0xc2, 0x84, 0x09, 0x13];
    TwoBytes(0x9a, 0x30, [0x61, 0xc2, 0x84, 0x09, 0x13]);
    assert [0x61, 0xc2, 0x84, 0x09, 0x13] == [0x61, 0xc2] + [0x84, 0x09, 0x13];
    TwoBytes(0x61, 0xc2, [0x84, 0x09, 0x13]);
    assert [0x84, 0x09, 0x13] == [0x84, 0x09] + [0x13];
    TwoBytes(0x84, 0x09, [0x13]);
  }

  lemma {:induction false} PieceBits()
    ensures ByteBits(Piece()) == [false, true, false] + Word() + Word() + Word() + Word() + Word() + Word()[..8]
  {
    hide ByteBits, Piece;
    PieceByBytes();
    EachByte();
  }

  lemma {:induction false} PieceEncodes(S: Stream)
    requires S == ByteBits(Piece())
    ensures Encoded(S)
  {
    hide ByteBits, Word, Piece;
    var w := Word();
    PieceBits();
    assert S[1..3] == [true, false];
    assert LE([true, false]) == 1;
    assert S[3..] == w + (w + w + w + w + w[..8]);
    assert S[12..] == w + (w + w + w + w[..8]);
    assert S[21..] == w + (w + w + w[..8]);
    assert S[30..] == w + (w + w[..8]);
    assert S[39..] == w + w[..8];
  }

  // ---- The run ---------------------------------------------------------------------------

  function After(k: nat): Cfg { Cfg(Len(Fixed()), false, 3 + 9 * k, Literals(k)) }

  lemma {:induction false} AfterOK(k: nat, S: Stream)
    requires k <= 5 && Encoded(S)
    ensures WF(After(k), S)
  {
    hide FixedLengths, FixedDistances, Word, Literals, Acceptable;
    FixedOK();
  }

  lemma {:induction false} FixedFits()
    ensures Fits(FixedLengths()) && Acceptable(LENS, FixedLengths()) && Complete(FixedLengths())
  {
    hide FixedLengths, FixedDistances;
    FixedOK();
  }

  lemma {:induction false} Decoded144(w: seq<bool>)
    requires Word() <= w
    ensures Decode(FixedLengths(), w) == Found(144, 9)
  {
    hide FixedLengths, Word, CodeBits, Decode, Fits;
    Bits144();
    FixedFits();
    DecodeFound(FixedLengths(), 144, w);
  }

  /** One literal more. */
  lemma {:induction false} OneLiteral(k: nat, S: Stream, limit: nat)
    requires k < 5 <= limit && Encoded(S)
    ensures WF(After(k), S) && WF(After(k + 1), S) && Final(After(k), S, limit) == Final(After(k + 1), S, limit)
  {
    hide Step, Decode, FixedLengths, FixedDistances, Word, WF, Leads, Final;
    AfterOK(k, S);
    Decoded144(S[3 + 9 * k..]);
    ToLiteral(After(k), S, limit, 144);
    LeadsFacts(After(k), S, limit, After(k + 1));
  }

  /** Eight bits of the code are not enough. */
  lemma {:induction false} SixthIncomplete()
    ensures Decode(FixedLengths(), Word()[..8]).More?
  {
    hide FixedLengths, Word, CodeBits, Fits, Complete, Acceptable;
    Bits144();
    FixedFits();
    var w := Word()[..8];
    if s: nat :| Matches(FixedLengths(), s, w) {
      assert w <= Word() && Matches(FixedLengths(), s, Word());
      MatchUnique(FixedLengths(), s, 144, Word());
    }
  }

  lemma {:induction false} Header(S: Stream, limit: nat)
    requires Encoded(S)
    ensures WF(START, S) && WF(After(0), S) && Final(START, S, limit) == Final(After(0), S, limit)
  {
    hide Step, Final, Leads, FixedLengths, FixedDistances, Word, Acceptable, Num;
    TypeRun(false, S, 0, [], limit);
    GoesSteps(START, S, limit, After(0));
    LeadsFacts(START, S, limit, After(0));
  }

  lemma {:induction false} Waits(S: Stream, limit: nat)
    requires Encoded(S)
    ensures WF(After(5), S) && Step(After(5), S, limit).None?
  {
    hide Step, Decode, FixedLengths, FixedDistances, Word, WF;
    AfterOK(5, S);
    SixthIncomplete();
    LenRun(Fixed(), false, S, 48, Literals(5), limit);
  }

  lemma {:induction false} RunsTo(S: Stream, limit: nat)
    requires limit >= 5 && Encoded(S)
    ensures WF(START, S) && Final(START, S, limit) == After(5)
    ensures WF(After(5), S) && Consumed(After(5), S) == 7
  {
    hide Step, After, WF;
    Header(S, limit);
    OneLiteral(0, S, limit);
    OneLiteral(1, S, limit);
    OneLiteral(2, S, limit);
    OneLiteral(3, S, limit);
    OneLiteral(4, S, limit);
    Waits(S, limit);
    AllConsumed(S);
  }

  lemma {:induction false} AllConsumed(S: Stream)
    requires Encoded(S)
    ensures WF(After(5), S) && Consumed(After(5), S) == 7
  {
    hide Step, WF;
    Waits(S, 6);
  }

  // ---- The calls ---------------------------------------------------------------------------

  lemma {:induction false} FirstCall(src: seq<byte>, d: Cfg, taken: nat)
    requires src == Piece() && StopsAt(START, src, 5, d) && TakesRight(d, src, taken)
    ensures d == After(5) && taken == 7
  {
    hide Final, Consumed, WF, Encoded, Piece, After, ByteBits;
    PieceEncodes(ByteBits(src));
    RunsTo(ByteBits(src), 5);
  }

  lemma {:induction false} EightAtHand(strm: InflateState)
    requires strm.Valid() && strm.Idle() && strm.Abs() == After(5) && |strm.past| == 7
    ensures strm.mode == LEN && strm.bits == 8
  {
    hide WF, InflateState.Lean, InflateState.FixedOK, InflateState.CodeTables, InflateState.ClTable,
         InflateState.LensOK, Fixed;
    strm.AbsIs();
  }

  /** A first call with that input, and a second with enough input and room for the fast
      path: inflate() then enters inflate_fast() with eight bits at hand. */
  method EnterWithEightBits(inp: seq<byte>, out: array<byte>) returns (strm: InflateState)
    requires |inp| >= 6 && out.Length >= 258
    ensures fresh(strm) && strm.Valid() && strm.mode == LEN && strm.bits == 8
    ensures strm.input == inp && strm.nextIn == 0 && strm.output == out && strm.nextOut == 0
  {
    hide StopsAt, TakesRight, InflateState.Valid, InflateState.Abs, InflateState.Idle, After, Piece, ByteBits, WF;
    strm := new InflateState();
    var taken, _ := Session.Once(strm, Piece(), 5);
    assert [] + Piece() == Piece();
    strm.CanAbs();
    FirstCall([] + Piece(), strm.Abs(), |strm.past|);
    EightAtHand(strm);
    strm.Load(inp, out);
  }
}
